/**
 * Reading back what write_markdown wrote: parse_markdown on the lines of
 * the written file gives back the document, for documents whose names,
 * links and bodies the line format can carry.
 */
module MdRoundTrip {
  import opened Wrappers
  import opened Text
  import opened Assoc
  import opened Bookmark
  import opened MdDoc
  import opened MdParse
  import opened MdWrite

  // ---------------------------------------------------------------- what the format can carry

  /** A category or subheading name that reads back as itself. */
  predicate NameOk(n: string) {
    n != [] && Strip(n) == n && '\n' !in n && '\r' !in n
  }

  /** A link whose line reads back as that link. */
  predicate LinkOk(l: Link) {
    '\n' !in l.title && '\r' !in l.title && NoCloseOpen(l.title)
    && '\n' !in l.url && '\r' !in l.url && ')' !in l.url
  }

  /** A body whose lines all read as body text and which no stripping changes. */
  predicate BodyOk(b: string) {
    '\r' !in b && Strip(b) == b
    && forall i :: 0 <= i < |SplitNl(b)| ==> RStrip(SplitNl(b)[i]) == SplitNl(b)[i] && IsText(Strip(SplitNl(b)[i]))
  }

  /** An entry whose subheading and body read back. */
  predicate EntryOk(e: (string, string)) {
    NameOk(e.0) && BodyOk(e.1)
  }

  predicate EntriesOk(es: Assoc<string, string>) {
    DistinctKeys(es) && forall j :: 0 <= j < |es| ==> EntryOk(es[j])
  }

  predicate LinksOk(ls: seq<Link>) {
    forall j :: 0 <= j < |ls| ==> LinkOk(ls[j])
  }

  /** A named, non-empty section whose parts all read back. */
  predicate SectionOk(k: Option<string>, s: Section) {
    k.Some? && NameOk(k.value) && (s.links != [] || s.entries != []) && LinksOk(s.links) && EntriesOk(s.entries)
  }

  predicate DocOk(d: Doc) {
    DistinctKeys(d) && forall i :: 0 <= i < |d| ==> SectionOk(d[i].0, d[i].1)
  }

  // ---------------------------------------------------------------- the theorem

  /**
   * parse_markdown(write_markdown(d)) == d: every category, link list,
   * subheading and body comes back, in the same order.
   */
  lemma RoundTrip(d: Doc)
    requires DocOk(d)
    ensures Parse(ReadLines(Serialize(d))) == d
  {
    DocNoCR(d);
    DocLineSafe(d);
    SerializedLines(d);
    assert ReadLines(Serialize(d)) == DocLines(d);
    RunDoc(d);
  }

  /** The category name a key is written under: None is written as "None". */
  function AsWritten(k: Option<string>): (r: Option<string>)
    ensures KeyText(r) == KeyText(k) && r.Some?
  {
    if k.None? then Some("None") else k
  }

  /** d with each key replaced by the name it is written under. */
  function NoneAsName(d: Doc): (r: Doc)
    ensures |r| == |d|
    decreases |d|
  {
    if d == [] then [] else NoneAsName(d[..|d| - 1]) + [(AsWritten(d[|d| - 1].0), d[|d| - 1].1)]
  }

  /** Renaming the None key leaves the written file as it was. */
  lemma {:induction false} SerializeNoneAsName(d: Doc)
    ensures Serialize(NoneAsName(d)) == Serialize(d)
    decreases |d|
  {
    if d != [] {
      var r := NoneAsName(d);
      var pre := d[..|d| - 1];
      SerializeNoneAsName(pre);
      assert r[..|r| - 1] == NoneAsName(pre);
      assert SectionText(r[|r| - 1].0, r[|r| - 1].1) == SectionText(d[|d| - 1].0, d[|d| - 1].1);
    }
  }

  /**
   * The None key, under which links met before any "## " are filed, is
   * written as "## None", so the file reads back with that category named
   * "None" and everything else as it was.
   */
  lemma NoneKeyRenamed(d: Doc)
    requires DocOk(NoneAsName(d))
    ensures Parse(ReadLines(Serialize(d))) == NoneAsName(d)
  {
    SerializeNoneAsName(d);
    RoundTrip(NoneAsName(d));
  }

  // ---------------------------------------------------------------- no carriage return, one line per name

  lemma DocLineSafe(d: Doc)
    requires DocOk(d)
    ensures LineSafe(d)
  {
  }

  lemma DocNoCR(d: Doc)
    requires DocOk(d)
    ensures '\r' !in Serialize(d)
  {
    forall i | 0 <= i < |d| ensures SectionNoCR(d[i].0, d[i].1) {
      SectionPartsNoCR(d[i].0, d[i].1);
    }
    SerializeNoCR(d);
  }

  /** The parts of a well-formed section hold no carriage return. */
  lemma SectionPartsNoCR(k: Option<string>, s: Section)
    requires SectionOk(k, s)
    ensures SectionNoCR(k, s)
  {
    forall j | 0 <= j < |s.links| ensures LinkNoCR(s.links[j]) {
      assert LinkOk(s.links[j]);
    }
    forall j | 0 <= j < |s.entries| ensures EntryNoCR(s.entries[j]) {
      assert EntryOk(s.entries[j]);
    }
  }

  // ---------------------------------------------------------------- the lines, one by one

  /** A written "## " line closes what is pending and opens exactly the category it names. */
  lemma StepCategoryLine(st: ParseState, n: string)
    requires BufferOwned(st) && NameOk(n)
    ensures Step(st, HeadingText(Some(n))) == ParseState(Flushed(st), Some(n), None, [])
  {
    var line := "## " + n;
    StrippedEnds(n);
    assert HeadingText(Some(n)) == line + "\n";
    assert line[0] == '#' && line[|line| - 1] == n[|n| - 1];
    StripLine(line);
    assert line[3..] == n;
    StepCategory(st, HeadingText(Some(n)));
  }

  /** A written "### " line closes what is pending and opens exactly the subheading it names. */
  lemma StepSubheadingLine(st: ParseState, h: string)
    requires BufferOwned(st) && NameOk(h)
    ensures Step(st, EntryHeadingText(h)) == ParseState(Flushed(st), st.category, Some(h), [])
  {
    var line := "### " + h;
    StrippedEnds(h);
    assert EntryHeadingText(h) == line + "\n";
    assert line[0] == '#' && line[|line| - 1] == h[|h| - 1];
    StripLine(line);
    assert line[4..] == h;
    StepSubheading(st, EntryHeadingText(h));
  }

  /** A written link line is a link line, and the link it yields is the one written. */
  lemma LinkLineKind(l: Link)
    requires LinkOk(l)
    ensures IsLinkLine(Strip(LinkText(l))) && LinkMatch(Strip(LinkText(l))) == Some(l)
  {
    LinkLineStripped(l);
    LinkLineMatches(l.title, l.url);
  }

  /** Stripping a written link line drops just its newline. */
  lemma LinkLineStripped(l: Link)
    ensures Strip(LinkText(l)) == "- [" + l.title + "](" + l.url + ")"
  {
    var line := "- [" + l.title + "](" + l.url + ")";
    assert LinkText(l) == line + "\n";
    assert line[0] == '-' && line[|line| - 1] == ')';
    StripLine(line);
  }

  /** The link line for title t and url u is a link line yielding exactly that link. */
  lemma LinkLineMatches(t: string, u: string)
    requires NoCloseOpen(t) && ')' !in u && '\n' !in t && '\n' !in u
    ensures IsLinkLine("- [" + t + "](" + u + ")") && LinkMatch("- [" + t + "](" + u + ")") == Some(Link(t, u))
  {
    var line := "- [" + t + "](" + u + ")";
    LinkMatchWritten(t, u);
    LinkShapeMatches(line);
    assert line[0] == '-';
  }

  /** A written link line appends exactly that link to the current category. */
  lemma StepLinkLine(st: ParseState, l: Link)
    requires LinkOk(l)
    ensures Step(st, LinkText(l)) == st.(data := AppendLink(st.data, st.category, l))
  {
    LinkLineKind(l);
    StepLink(st, LinkText(l));
  }

  /** A blank line is body text, buffered as "". */
  lemma BlankLineRead()
    ensures IsText(Strip("\n")) && RStrip("\n") == ""
  {
  }

  /** A line of a body, with its newline, is body text and is buffered as written. */
  lemma BodyLineRead(p: string)
    requires RStrip(p) == p && IsText(Strip(p))
    ensures IsText(Strip(p + "\n")) && RStrip(p + "\n") == p
  {
    StripNewline(p);
  }

  // ---------------------------------------------------------------- building a section

  /** The document once a section with these links and entries is added (nothing if both are empty). */
  function Block(D: Doc, k: Option<string>, ls: seq<Link>, es: Assoc<string, string>): Doc {
    if ls == [] && es == [] then D else D + [(k, Section(ls, es))]
  }

  lemma BlockSec(D: Doc, k: Option<string>, ls: seq<Link>, es: Assoc<string, string>)
    requires k !in Keys(D)
    ensures Sec(Block(D, k, ls, es), k) == Section(ls, es)
  {
    if ls == [] && es == [] {
      FindAbsent(D, k);
    } else {
      FindLast(D, k, Section(ls, es));
    }
  }

  lemma BlockPut(D: Doc, k: Option<string>, ls: seq<Link>, es: Assoc<string, string>, s: Section)
    requires k !in Keys(D) && (s.links != [] || s.entries != [])
    ensures Put(Block(D, k, ls, es), k, s) == Block(D, k, s.links, s.entries)
  {
    if ls == [] && es == [] {
      PutNew(D, k, s);
    } else {
      PutLast(D, k, Section(ls, es), s);
    }
  }

  /** Appending a link to the section being built. */
  lemma AppendLinkBlock(D: Doc, k: Option<string>, ls: seq<Link>, l: Link)
    requires k !in Keys(D)
    ensures AppendLink(Block(D, k, ls, []), k, l) == Block(D, k, ls + [l], [])
  {
    BlockSec(D, k, ls, []);
    BlockPut(D, k, ls, [], Section(ls + [l], []));
  }

  /** Storing a body under a new subheading of the section being built. */
  lemma StoreEntryBlock(D: Doc, k: Option<string>, ls: seq<Link>, es: Assoc<string, string>, h: string, b: string)
    requires k !in Keys(D) && h !in Keys(es)
    ensures StoreEntry(Block(D, k, ls, es), k, h, b) == Block(D, k, ls, es + [(h, b)])
  {
    BlockSec(D, k, ls, es);
    PutNew(es, h, b);
    BlockPut(D, k, ls, es, Section(ls, es + [(h, b)]));
  }

  // ---------------------------------------------------------------- scanning a section

  /** The link lines of a section, read with no subheading open, build its link list. */
  lemma {:induction false} RunLinksBlock(D: Doc, k: Option<string>, ls: seq<Link>)
    requires k !in Keys(D) && LinksOk(ls)
    ensures Run(ParseState(D, k, None, []), LinksLines(ls)) == ParseState(Block(D, k, ls, []), k, None, [])
    decreases |ls|
  {
    if ls != [] {
      var pre, l := ls[..|ls| - 1], ls[|ls| - 1];
      assert pre + [l] == ls;
      assert LinksOk(pre) by {
        assert forall j :: 0 <= j < |pre| ==> pre[j] == ls[j];
      }
      RunLinksBlock(D, k, pre);
      LinksLinesSnoc(ls);
      RunSnocLine(ParseState(D, k, None, []), LinksLines(pre), LinkText(l));
      StepLinkLine(ParseState(Block(D, k, pre, []), k, None, []), l);
      AppendLinkBlock(D, k, pre, l);
    }
  }

  lemma LinksLinesSnoc(ls: seq<Link>)
    requires ls != []
    ensures LinksLines(ls) == LinksLines(ls[..|ls| - 1]) + [LinkText(ls[|ls| - 1])]
  {
  }

  /** Blank lines read with no subheading open change nothing. */
  lemma RunBlanks(st: ParseState, B: seq<string>)
    requires st.subheading == None
    requires forall i :: 0 <= i < |B| ==> B[i] == "\n"
    ensures Run(st, B) == st
  {
    BlankLineRead();
    assert AllText(B);
    RunText(st, B);
  }

  /** The lines of a body, each with its newline, read as body text and are buffered as the body's lines. */
  lemma BodyPiecesRead(b: string)
    requires BodyOk(b)
    ensures AllText(AddNl(SplitNl(b))) && RStripAll(AddNl(SplitNl(b))) == SplitNl(b)
  {
    var P := SplitNl(b);
    var A := AddNl(P);
    forall i | 0 <= i < |A| ensures IsText(Strip(A[i])) && RStrip(A[i]) == P[i] {
      BodyLineRead(P[i]);
    }
  }

  /** The lines of a body followed by the blank line, as the buffer receives them. */
  lemma BodyLinesBuffered(b: string)
    requires BodyOk(b)
    ensures AllText(AddNl(SplitNl(b)) + ["\n"])
    ensures RStripAll(AddNl(SplitNl(b)) + ["\n"]) == SplitNl(b) + [""]
  {
    var A := AddNl(SplitNl(b));
    BodyPiecesRead(b);
    BlankLineRead();
    AllTextSnocLine(A, "\n");
    SplitLast(A + ["\n"]);
    assert (A + ["\n"])[..|A|] == A;
    RStripAllSnoc(A + ["\n"]);
  }

  /** The buffered lines of a written body give back that body. */
  lemma BodyRead(b: string)
    requires BodyOk(b)
    ensures Body(SplitNl(b) + [""]) == b
  {
    JoinNlBlank(SplitNl(b));
    StripNewline(b);
  }

  /**
   * One written entry: after it the subheading is open with the body's lines
   * and a blank line buffered, and the data is what it was once flushed.
   */
  lemma RunEntry(st: ParseState, h: string, b: string)
    requires BufferOwned(st) && NameOk(h) && BodyOk(b)
    ensures Run(st, EntryLines(h, b)) == ParseState(Flushed(st), st.category, Some(h), SplitNl(b) + [""])
  {
    var head := EntryHeadingText(h);
    var B := AddNl(SplitNl(b)) + ["\n"];
    var st1 := ParseState(Flushed(st), st.category, Some(h), []);
    AppendAssoc([head], AddNl(SplitNl(b)), ["\n"]);
    RunAppend(st, [head], B);
    RunOne(st, head);
    StepSubheadingLine(st, h);
    BodyLinesBuffered(b);
    RunText(st1, B);
    assert [] + RStripAll(B) == RStripAll(B);
  }

  /** Closing a written entry stores its body under its subheading. */
  lemma FlushEntry(D: Doc, k: Option<string>, h: string, b: string)
    requires NameOk(h) && BodyOk(b)
    ensures Flushed(ParseState(D, k, Some(h), SplitNl(b) + [""])) == StoreEntry(D, k, h, b)
    ensures BufferOwned(ParseState(D, k, Some(h), SplitNl(b) + [""]))
  {
    BodyRead(b);
  }

  /** The state reached inside a section: its category is current and flushing gives the document so far. */
  predicate Reached(st: ParseState, doc: Doc, k: Option<string>) {
    Flushed(st) == doc && BufferOwned(st) && st.category == k
  }

  /** The entries of a section, read after its links, build its entry list. */
  lemma {:induction false} RunEntriesBlock(D: Doc, k: Option<string>, ls: seq<Link>, es: Assoc<string, string>)
    requires k !in Keys(D) && EntriesOk(es)
    ensures Reached(Run(ParseState(Block(D, k, ls, []), k, None, []), EntriesLines(es)), Block(D, k, ls, es), k)
    decreases |es|
  {
    var st0 := ParseState(Block(D, k, ls, []), k, None, []);
    if es != [] {
      var pre, e := es[..|es| - 1], es[|es| - 1];
      SplitLast(es);
      EntriesOkSnoc(es);
      RunEntriesBlock(D, k, ls, pre);
      var st := Run(st0, EntriesLines(pre));
      RunAppend(st0, EntriesLines(pre), EntryLines(e.0, e.1));
      RunEntry(st, e.0, e.1);
      FlushEntry(Block(D, k, ls, pre), k, e.0, e.1);
      StoreEntryBlock(D, k, ls, pre, e.0, e.1);
    }
  }

  lemma EntriesOkSnoc(es: Assoc<string, string>)
    requires EntriesOk(es) && es != []
    ensures EntriesOk(es[..|es| - 1])
    ensures EntryOk(es[|es| - 1]) && es[|es| - 1].0 !in Keys(es[..|es| - 1])
  {
    var pre, e := es[..|es| - 1], es[|es| - 1];
    SplitLast(es);
    forall j | 0 <= j < |pre| ensures EntryOk(pre[j]) {
      assert pre[j] == es[j];
    }
    DistinctPrefix(pre, [e]);
    DistinctAppend(pre, e.0, e.1);
  }

  /** The "## " line and the blank line after it open category k with nothing pending. */
  lemma RunHead(st: ParseState, k: Option<string>)
    requires BufferOwned(st) && k.Some? && NameOk(k.value)
    ensures Run(st, [HeadingText(k), "\n"]) == ParseState(Flushed(st), k, None, [])
  {
    RunTwo(st, HeadingText(k), "\n");
    assert k == Some(k.value);
    StepCategoryLine(st, k.value);
    StepBlank(ParseState(Flushed(st), k, None, []));
  }

  /** A blank line read with no subheading open changes nothing. */
  lemma StepBlank(st: ParseState)
    requires st.subheading == None
    ensures Step(st, "\n") == st
  {
    BlankLineRead();
    StepText(st, "\n");
  }

  /** The link lines and the blank line after them build the section's link list. */
  lemma RunLinksGap(D: Doc, k: Option<string>, ls: seq<Link>)
    requires k !in Keys(D) && LinksOk(ls)
    ensures Run(ParseState(D, k, None, []), LinksLines(ls) + GapLines(ls)) == ParseState(Block(D, k, ls, []), k, None, [])
  {
    var st0 := ParseState(D, k, None, []);
    var st1 := ParseState(Block(D, k, ls, []), k, None, []);
    assert Run(st0, LinksLines(ls)) == st1 by {
      RunLinksBlock(D, k, ls);
    }
    assert Run(st1, GapLines(ls)) == st1 by {
      RunBlanks(st1, GapLines(ls));
    }
    RunAppend(st0, LinksLines(ls), GapLines(ls));
  }

  /** One written section, read after the document D so far, adds exactly that section. */
  lemma RunSection(st: ParseState, k: Option<string>, s: Section)
    requires BufferOwned(st) && SectionOk(k, s) && k !in Keys(Flushed(st))
    ensures Reached(Run(st, SectionLines(k, s)), Flushed(st) + [(k, s)], k)
  {
    var D := Flushed(st);
    var st1 := ParseState(D, k, None, []);
    var L23 := LinksLines(s.links) + GapLines(s.links);
    RunAppend(st, [HeadingText(k), "\n"], BodyLines(s));
    RunHead(st, k);
    RunAppend(st1, L23, EntriesLines(s.entries));
    RunLinksGap(D, k, s.links);
    RunEntriesBlock(D, k, s.links, s.entries);
  }

  /** The whole written document, read from the start, is the document once flushed. */
  lemma {:induction false} RunDoc(d: Doc)
    requires DocOk(d)
    ensures Parse(DocLines(d)) == d
    ensures d != [] ==> Reached(Run(Init, DocLines(d)), d, d[|d| - 1].0)
    decreases |d|
  {
    if d != [] {
      var pre, e := d[..|d| - 1], d[|d| - 1];
      SplitLast(d);
      DocOkSnoc(d);
      RunDoc(pre);
      var st := Run(Init, DocLines(pre));
      assert Flushed(st) == pre && BufferOwned(st) by {
        if pre == [] {
          assert st == Init;
        }
      }
      RunAppend(Init, DocLines(pre), SectionLines(e.0, e.1));
      RunSection(st, e.0, e.1);
    }
  }

  lemma DocOkSnoc(d: Doc)
    requires DocOk(d) && d != []
    ensures DocOk(d[..|d| - 1])
    ensures SectionOk(d[|d| - 1].0, d[|d| - 1].1) && d[|d| - 1].0 !in Keys(d[..|d| - 1])
  {
    var pre, e := d[..|d| - 1], d[|d| - 1];
    SplitLast(d);
    assert forall j :: 0 <= j < |pre| ==> pre[j] == d[j];
    DistinctPrefix(pre, [e]);
    DistinctAppend(pre, e.0, e.1);
  }

  lemma DistinctPrefix<K, V>(a: Assoc<K, V>, b: Assoc<K, V>)
    requires DistinctKeys(a + b)
    ensures DistinctKeys(a)
  {
    assert forall i :: 0 <= i < |a| ==> (a + b)[i] == a[i];
  }
}
