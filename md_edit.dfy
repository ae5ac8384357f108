/**
 * The two edits md_browser.py makes to a parsed document (add_entry and
 * delete_entry) and the file they rewrite. The menu choices made through
 * choose_from_list and the console lines read by input() are parameters.
 */
module MdEdit {
  import opened Wrappers
  import opened Text
  import opened Assoc
  import opened MdDoc
  import opened MdParse
  import opened MdWrite
  import opened MdRoundTrip

  /** The line a user types to end the body of a new entry. */
  const DoneMarker := "::done"

  /** A console line that ends the body of a new entry. */
  predicate IsDone(line: string) {
    Strip(line) == DoneMarker
  }

  /** The index of the first console line that strips to "::done", or |input| when none does. */
  function DoneAt(input: seq<string>): (n: nat)
    ensures n <= |input|
  {
    FirstWhere(input, IsDone, 0)
  }

  /** The first "::done" line found by a left-to-right scan is the one DoneAt names. */
  lemma DoneAtIs(input: seq<string>, i: nat)
    requires i <= |input|
    requires i < |input| ==> IsDone(input[i])
    requires forall j :: 0 <= j < i ==> !IsDone(input[j])
    ensures DoneAt(input) == i
  {
    FirstWhereIs(input, IsDone, 0, i);
  }

  /**
   * The loop reading the body of a new entry: the lines typed before the
   * first line that strips to "::done", or None when the input ends first
   * (input() then raises EOFError and nothing is added).
   */
  method ReadContent(input: seq<string>) returns (lines: Option<seq<string>>)
    ensures lines.Some? <==> DoneAt(input) < |input|
    ensures lines.Some? ==> lines.value == input[..DoneAt(input)]
  {
    var acc: seq<string> := [];
    var i := 0;
    while i < |input|
      invariant 0 <= i <= |input| && acc == input[..i]
      invariant forall j :: 0 <= j < i ==> !IsDone(input[j])
    {
      if IsDone(input[i]) {
        DoneAtIs(input, i);
        return Some(acc);
      }
      acc := acc + [input[i]];
      i := i + 1;
    }
    DoneAtIs(input, i);
    return None;
  }

  /** How add_entry ends. */
  datatype AddOutcome =
    | EmptyHeading
    | InputEnded
    | EmptyContent
    | Added(heading: string, content: string)

  /** How delete_entry ends. */
  datatype DeleteOutcome = NoSubheadings | Deleted(heading: string)

  /**
   * What add_entry does with the typed subheading and console lines: the
   * subheading and the body are stripped, and only when both are non-empty
   * is there something to add.
   */
  function AddResult(headingInput: string, input: seq<string>): (r: AddOutcome)
    ensures r == EmptyHeading <==> Strip(headingInput) == []
    ensures r == InputEnded <==> Strip(headingInput) != [] && DoneAt(input) == |input|
    ensures r.Added? ==> r.heading == Strip(headingInput) && r.heading != [] && r.content != []
    ensures r.Added? ==> r.content == Strip(JoinNl(input[..DoneAt(input)]))
    ensures (r.Added? || r.EmptyContent?) <==> Strip(headingInput) != [] && DoneAt(input) < |input|
    ensures r.Added? <==>
      Strip(headingInput) != [] && DoneAt(input) < |input| && Strip(JoinNl(input[..DoneAt(input)])) != []
  {
    var h := Strip(headingInput);
    var n := DoneAt(input);
    if h == [] then EmptyHeading
    else if n == |input| then InputEnded
    else
      var c := Strip(JoinNl(input[..n]));
      if c == [] then EmptyContent else Added(h, c)
  }

  /**
   * The parsed document held by md_browser.py together with the text of the
   * file it was read from; every successful edit rewrites the file from the
   * document.
   */
  class Store {
    var data: Doc
    var file: string

    /** Reopening the file gives back the document. */
    predicate Synced()
      reads this
    {
      Parse(ReadLines(file)) == data
    }

    /** main: parse_markdown on the file's text. */
    constructor Open(text: string)
      ensures file == text && data == Parse(ReadLines(text))
      ensures Synced()
    {
      var parsed := ParseMarkdown(ReadLines(text));
      file := text;
      data := parsed;
    }

    /**
     * add_entry for the chosen category k: on success the entry is set and
     * the file rewritten; otherwise nothing changes.
     */
    method AddEntry(k: Option<string>, headingInput: string, input: seq<string>) returns (outcome: AddOutcome)
      requires k in Keys(data)
      modifies this
      ensures outcome == AddResult(headingInput, input)
      ensures !outcome.Added? ==> data == old(data) && file == old(file)
      ensures outcome.Added? ==> data == StoreEntry(old(data), k, outcome.heading, outcome.content)
      ensures outcome.Added? ==> file == Serialize(data)
      ensures outcome.Added? ==> Entry(data, k, outcome.heading) == Some(outcome.content)
      ensures outcome.Added? ==> forall h :: h != outcome.heading ==> Entry(data, k, h) == Entry(old(data), k, h)
      ensures outcome.Added? ==> forall k' :: k' != k ==> Find(data, k') == Find(old(data), k')
      ensures outcome.Added? ==> Keys(data) == Keys(old(data)) && Sec(data, k).links == Sec(old(data), k).links
      ensures outcome.Added? && DocOk(old(data)) && NameOk(outcome.heading) && BodyOk(outcome.content) ==> Synced()
    {
      var heading := Strip(headingInput);
      if heading == [] {
        return EmptyHeading;
      }
      var lines := ReadContent(input);
      if lines.None? {
        return InputEnded;
      }
      var content := Strip(JoinNl(lines.value));
      if content == [] {
        return EmptyContent;
      }
      assert AddResult(headingInput, input) == Added(heading, content);
      AddedFacts(data, k, heading, content);
      data := StoreEntry(data, k, heading, content);
      file := WriteMarkdown(data);
      return Added(heading, content);
    }

    /**
     * delete_entry for the chosen category k and, when k has subheadings,
     * the chosen one among them.
     */
    method DeleteEntry(k: Option<string>, pick: string) returns (outcome: DeleteOutcome)
      requires k in Keys(data)
      requires EntryKeys(data, k) != [] ==> pick in EntryKeys(data, k)
      modifies this
      ensures outcome == if EntryKeys(old(data), k) == [] then NoSubheadings else Deleted(pick)
      ensures outcome.NoSubheadings? ==> data == old(data) && file == old(file)
      ensures outcome.Deleted? ==> data == RemoveEntry(old(data), k, pick) && file == Serialize(data)
      ensures outcome.Deleted? ==> Entry(data, k, pick) == None
      ensures outcome.Deleted? ==> forall h :: h != pick ==> Entry(data, k, h) == Entry(old(data), k, h)
      ensures outcome.Deleted? ==> EntryKeys(data, k) == Without(EntryKeys(old(data), k), pick)
      ensures outcome.Deleted? ==> forall k' :: k' != k ==> Find(data, k') == Find(old(data), k')
      ensures outcome.Deleted? ==> Keys(data) == Keys(old(data)) && Sec(data, k).links == Sec(old(data), k).links
      ensures outcome.Deleted? && DocOk(old(data)) && (Sec(old(data), k).links != [] || EntryKeys(data, k) != [])
        ==> Synced()
    {
      if EntryKeys(data, k) == [] {
        return NoSubheadings;
      }
      DeletedFacts(data, k, pick);
      data := RemoveEntry(data, k, pick);
      file := WriteMarkdown(data);
      return Deleted(pick);
    }
  }

  // ---------------------------------------------------------------- what survives a rewrite

  /**
   * Adding a well-formed entry to a category of a document that reads back
   * from its own serialization gives one that still does.
   */
  lemma StoreEntryOk(d: Doc, k: Option<string>, h: string, c: string)
    requires DocOk(d) && k in Keys(d) && NameOk(h) && BodyOk(c)
    ensures DocOk(StoreEntry(d, k, h, c))
  {
    var s := Sec(d, k);
    SectionAt(d, k);
    EntriesPut(s.entries, h, c);
    SectionsPut(d, k, s.(entries := Put(s.entries, h, c)));
  }

  /** Setting a well-formed entry keeps a well-formed, now non-empty, entry list. */
  lemma EntriesPut(es: Assoc<string, string>, h: string, c: string)
    requires EntriesOk(es) && EntryOk((h, c))
    ensures EntriesOk(Put(es, h, c)) && Put(es, h, c) != []
  {
    var r := Put(es, h, c);
    PutDistinct(es, h, c);
    PutElems(es, h, c);
    PutKeys(es, h, c);
    forall j | 0 <= j < |r| ensures EntryOk(r[j]) {
      assert r[j] in r;
    }
    assert |Keys(r)| > 0;
  }

  /**
   * Deleting an entry keeps a document that reads back from its own
   * serialization, unless it leaves a category with neither links nor entries.
   */
  lemma RemoveEntryOk(d: Doc, k: Option<string>, h: string)
    requires DocOk(d) && k in Keys(d)
    requires Sec(d, k).links != [] || Without(EntryKeys(d, k), h) != []
    ensures DocOk(RemoveEntry(d, k, h))
  {
    var s := Sec(d, k);
    SectionAt(d, k);
    EntriesRemove(s.entries, h);
    SectionsPut(d, k, s.(entries := Remove(s.entries, h)));
  }

  /** Deleting an entry keeps a well-formed entry list, holding the other subheadings. */
  lemma EntriesRemove(es: Assoc<string, string>, h: string)
    requires EntriesOk(es)
    ensures EntriesOk(Remove(es, h)) && Keys(Remove(es, h)) == Without(Keys(es), h)
  {
    var r := Remove(es, h);
    RemoveDistinct(es, h);
    RemoveElems(es, h);
    RemoveKeys(es, h);
    forall j | 0 <= j < |r| ensures EntryOk(r[j]) {
      assert r[j] in r;
    }
  }

  /** What AddEntry promises about the document it stores, gathered from the lemmas above. */
  lemma AddedFacts(d: Doc, k: Option<string>, h: string, c: string)
    requires k in Keys(d)
    ensures var r := StoreEntry(d, k, h, c);
      && Entry(r, k, h) == Some(c)
      && (forall h' :: h' != h ==> Entry(r, k, h') == Entry(d, k, h'))
      && (forall k' :: k' != k ==> Find(r, k') == Find(d, k'))
      && Keys(r) == Keys(d) && Sec(r, k).links == Sec(d, k).links
      && (DocOk(d) && NameOk(h) && BodyOk(c) ==> Parse(ReadLines(Serialize(r))) == r)
  {
    StoreEntrySection(d, k, h, c);
    StoreEntrySpec(d, k, h, c);
    if DocOk(d) && NameOk(h) && BodyOk(c) {
      StoreEntryOk(d, k, h, c);
      RoundTrip(StoreEntry(d, k, h, c));
    }
  }

  /** What DeleteEntry promises about the document it stores, gathered from the lemmas above. */
  lemma DeletedFacts(d: Doc, k: Option<string>, h: string)
    requires k in Keys(d)
    ensures var r := RemoveEntry(d, k, h);
      && Entry(r, k, h) == None
      && (forall h' :: h' != h ==> Entry(r, k, h') == Entry(d, k, h'))
      && EntryKeys(r, k) == Without(EntryKeys(d, k), h)
      && (forall k' :: k' != k ==> Find(r, k') == Find(d, k'))
      && Keys(r) == Keys(d) && Sec(r, k).links == Sec(d, k).links
      && (DocOk(d) && (Sec(d, k).links != [] || EntryKeys(r, k) != []) ==> Parse(ReadLines(Serialize(r))) == r)
  {
    RemoveEntrySpec(d, k, h);
    if DocOk(d) && (Sec(d, k).links != [] || Without(EntryKeys(d, k), h) != []) {
      RemoveEntryOk(d, k, h);
      RoundTrip(RemoveEntry(d, k, h));
    }
  }

  /** A category of a well-formed document holds a well-formed section. */
  lemma SectionAt(d: Doc, k: Option<string>)
    requires DocOk(d) && k in Keys(d)
    ensures SectionOk(k, Sec(d, k))
  {
    FindElem(d, k);
    var i :| 0 <= i < |d| && d[i] == (k, Find(d, k).value);
  }

  /** Replacing a section by a well-formed one keeps the document well-formed. */
  lemma SectionsPut(d: Doc, k: Option<string>, s: Section)
    requires DocOk(d) && SectionOk(k, s)
    ensures DocOk(Put(d, k, s))
  {
    var r := Put(d, k, s);
    PutDistinct(d, k, s);
    PutElems(d, k, s);
    forall i | 0 <= i < |r| ensures SectionOk(r[i].0, r[i].1) {
      assert r[i] in r;
      if r[i] != (k, s) {
        var j :| 0 <= j < |d| && d[j] == r[i];
      }
    }
  }
}
