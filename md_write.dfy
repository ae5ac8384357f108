/**
 * write_markdown of md_browser.py: every category in order as a "## name"
 * line and a blank line, then one "- [title](url)" line per link, a blank
 * line when there were links, then per entry a "### subheading" line, the
 * body and a blank line.
 */
module MdWrite {
  import opened Wrappers
  import opened Text
  import opened Assoc
  import opened Bookmark
  import opened MdDoc

  /** f"{category}": the name, or "None" for the key of links met before any category. */
  function KeyText(k: Option<string>): string {
    match k
    case Some(n) => n
    case None => "None"
  }

  function HeadingText(k: Option<string>): string {
    "## " + KeyText(k) + "\n"
  }

  function LinkText(l: Link): string {
    "- [" + l.title + "](" + l.url + ")\n"
  }

  function EntryHeadingText(h: string): string {
    "### " + h + "\n"
  }

  function EntryText(h: string, b: string): string {
    EntryHeadingText(h) + b + "\n\n"
  }

  function LinksText(ls: seq<Link>): string
    decreases |ls|
  {
    if ls == [] then "" else LinksText(ls[..|ls| - 1]) + LinkText(ls[|ls| - 1])
  }

  function EntriesText(es: Assoc<string, string>): string
    decreases |es|
  {
    if es == [] then "" else EntriesText(es[..|es| - 1]) + EntryText(es[|es| - 1].0, es[|es| - 1].1)
  }

  /** The blank line written after a non-empty link list. */
  function LinksGap(ls: seq<Link>): string {
    if ls != [] then "\n" else ""
  }

  /** What follows a category's heading and blank line: its links, the gap, its entries. */
  function BodyText(s: Section): string {
    LinksText(s.links) + LinksGap(s.links) + EntriesText(s.entries)
  }

  function SectionText(k: Option<string>, s: Section): string {
    HeadingText(k) + "\n" + BodyText(s)
  }

  /** The whole file written for d. */
  function Serialize(d: Doc): string
    decreases |d|
  {
    if d == [] then "" else Serialize(d[..|d| - 1]) + SectionText(d[|d| - 1].0, d[|d| - 1].1)
  }

  /** write_markdown, producing the file's text. */
  method WriteMarkdown(d: Doc) returns (out: string)
    ensures out == Serialize(d)
  {
    out := "";
    var i := 0;
    while i < |d|
      invariant i <= |d|
      invariant out == Serialize(d[..i])
    {
      var (k, s) := d[i];
      var text := WriteSection(k, s);
      out := out + text;
      assert d[..i + 1][..i] == d[..i];
      i := i + 1;
    }
    assert d[..i] == d;
  }

  /** The writes of one iteration of write_markdown's outer loop, in order. */
  method WriteSection(k: Option<string>, s: Section) returns (out: string)
    ensures out == SectionText(k, s)
  {
    out := HeadingText(k) + "\n";
    ghost var head := out;
    var j := 0;
    while j < |s.links|
      invariant j <= |s.links|
      invariant out == head + LinksText(s.links[..j])
    {
      assert s.links[..j + 1][..j] == s.links[..j];
      AppendAssoc(head, LinksText(s.links[..j]), LinkText(s.links[j]));
      out := out + LinkText(s.links[j]);
      j := j + 1;
    }
    assert s.links[..j] == s.links;
    if s.links != [] {
      out := out + "\n";
    }
    AppendAssoc(head, LinksText(s.links), LinksGap(s.links));
    ghost var mid := out;
    var e := 0;
    while e < |s.entries|
      invariant e <= |s.entries|
      invariant out == mid + EntriesText(s.entries[..e])
    {
      assert s.entries[..e + 1][..e] == s.entries[..e];
      var (h, b) := s.entries[e];
      AppendAssoc(mid, EntriesText(s.entries[..e]), EntryText(h, b));
      out := out + (EntryHeadingText(h) + b + "\n\n");
      e := e + 1;
    }
    assert s.entries[..e] == s.entries;
    AppendAssoc(head, LinksText(s.links) + LinksGap(s.links), EntriesText(s.entries));
  }

  // ---------------------------------------------------------------- the layout, line by line

  /** No name, title or url holds a newline, so each makes up one line of the file. */
  predicate LineSafe(d: Doc) {
    forall i :: 0 <= i < |d| ==>
      '\n' !in KeyText(d[i].0)
      && (forall j :: 0 <= j < |d[i].1.links| ==> '\n' !in d[i].1.links[j].title && '\n' !in d[i].1.links[j].url)
      && (forall j :: 0 <= j < |d[i].1.entries| ==> '\n' !in d[i].1.entries[j].0)
  }

  /** The lines of one entry: its heading, the lines of its body, and a blank line. */
  function EntryLines(h: string, b: string): seq<string> {
    [EntryHeadingText(h)] + AddNl(SplitNl(b)) + ["\n"]
  }

  function EntriesLines(es: Assoc<string, string>): seq<string>
    decreases |es|
  {
    if es == [] then [] else EntriesLines(es[..|es| - 1]) + EntryLines(es[|es| - 1].0, es[|es| - 1].1)
  }

  function LinksLines(ls: seq<Link>): (r: seq<string>)
    ensures |r| == |ls|
  {
    seq(|ls|, i requires 0 <= i < |ls| => LinkText(ls[i]))
  }

  function GapLines(ls: seq<Link>): seq<string> {
    if ls != [] then ["\n"] else []
  }

  /** The lines of a category after its heading and blank line. */
  function BodyLines(s: Section): seq<string> {
    LinksLines(s.links) + GapLines(s.links) + EntriesLines(s.entries)
  }

  function SectionLines(k: Option<string>, s: Section): seq<string> {
    [HeadingText(k), "\n"] + BodyLines(s)
  }

  function DocLines(d: Doc): seq<string>
    decreases |d|
  {
    if d == [] then [] else DocLines(d[..|d| - 1]) + SectionLines(d[|d| - 1].0, d[|d| - 1].1)
  }

  /**
   * The file written for d reads back, line by line, as: per category its
   * "## " line and a blank line, its link lines, a blank line if and only if
   * it has links, then per entry the "### " line, the body's lines and a
   * blank line.
   */
  lemma {:induction false} SerializedLines(d: Doc)
    requires LineSafe(d)
    ensures SplitLines(Serialize(d)) == DocLines(d)
    decreases |d|
  {
    if d != [] {
      var pre := d[..|d| - 1];
      var (k, s) := d[|d| - 1];
      assert LineSafe(pre) by {
        forall i | 0 <= i < |pre| ensures pre[i] == d[i] {
        }
      }
      SerializedLines(pre);
      SerializeTerminated(pre);
      SplitLinesAppend(Serialize(pre), SectionText(k, s));
      SectionLinesRead(k, s);
    }
  }

  lemma SectionLinesRead(k: Option<string>, s: Section)
    requires '\n' !in KeyText(k)
    requires forall j :: 0 <= j < |s.links| ==> '\n' !in s.links[j].title && '\n' !in s.links[j].url
    requires forall j :: 0 <= j < |s.entries| ==> '\n' !in s.entries[j].0
    ensures SplitLines(SectionText(k, s)) == SectionLines(k, s)
  {
    var a := HeadingText(k);
    var rest := BodyText(s);
    assert a == "## " + KeyText(k) + "\n";
    SplitLinesOne("## " + KeyText(k));
    SplitLinesOne("");
    assert "" + "\n" == "\n";
    BodyLinesRead(s);
    SplitLinesAppend("\n", rest);
    SplitLinesAppend(a, "\n" + rest);
    AppendAssoc(a, "\n", rest);
    AppendAssoc([a], ["\n"], BodyLines(s));
    assert [a] + ["\n"] == [a, "\n"];
  }

  /** The part of a section after its heading and blank line. */
  lemma BodyLinesRead(s: Section)
    requires forall j :: 0 <= j < |s.links| ==> '\n' !in s.links[j].title && '\n' !in s.links[j].url
    requires forall j :: 0 <= j < |s.entries| ==> '\n' !in s.entries[j].0
    ensures SplitLines(BodyText(s)) == BodyLines(s)
  {
    var b, c, e := LinksText(s.links), LinksGap(s.links), EntriesText(s.entries);
    LinksRead(s.links);
    EntriesRead(s.entries);
    LinksTerminated(s.links);
    SplitLinesOne("");
    assert "" + "\n" == "\n";
    assert SplitLines(c) == GapLines(s.links);
    SplitLinesAppend(b, c);
    SplitLinesAppend(b + c, e);
  }

  lemma LinkRead(l: Link)
    requires '\n' !in l.title && '\n' !in l.url
    ensures SplitLines(LinkText(l)) == [LinkText(l)]
  {
    var line := "- [" + l.title + "](" + l.url + ")";
    assert LinkText(l) == line + "\n";
    SplitLinesOne(line);
  }

  lemma {:induction false} LinksRead(ls: seq<Link>)
    requires forall j :: 0 <= j < |ls| ==> '\n' !in ls[j].title && '\n' !in ls[j].url
    ensures SplitLines(LinksText(ls)) == LinksLines(ls)
    decreases |ls|
  {
    if ls != [] {
      var pre, l := ls[..|ls| - 1], ls[|ls| - 1];
      assert forall j :: 0 <= j < |pre| ==> pre[j] == ls[j];
      LinksRead(pre);
      LinksTerminated(pre);
      SplitLinesAppend(LinksText(pre), LinkText(l));
      LinkRead(l);
      assert LinksLines(ls) == LinksLines(pre) + [LinkText(l)];
    }
  }

  lemma {:induction false} EntriesRead(es: Assoc<string, string>)
    requires forall j :: 0 <= j < |es| ==> '\n' !in es[j].0
    ensures SplitLines(EntriesText(es)) == EntriesLines(es)
    decreases |es|
  {
    if es != [] {
      var pre := es[..|es| - 1];
      var (h, b) := es[|es| - 1];
      EntriesRead(pre);
      EntriesTerminated(pre);
      SplitLinesAppend(EntriesText(pre), EntryText(h, b));
      EntryRead(h, b);
    }
  }

  lemma EntryRead(h: string, b: string)
    requires '\n' !in h
    ensures SplitLines(EntryText(h, b)) == EntryLines(h, b)
  {
    var a := EntryHeadingText(h);
    var line := "### " + h;
    assert a == line + "\n";
    SplitLinesOne(line);
    var rest := (b + "\n") + "\n";
    assert EntryText(h, b) == a + rest;
    SplitLinesPieces(b);
    SplitLinesOne("");
    assert "" + "\n" == "\n";
    SplitLinesAppend(b + "\n", "\n");
    assert SplitLines(rest) == AddNl(SplitNl(b)) + ["\n"];
    SplitLinesAppend(a, rest);
    AppendAssoc([a], AddNl(SplitNl(b)), ["\n"]);
  }

  lemma {:induction false} LinksTerminated(ls: seq<Link>)
    ensures Terminated(LinksText(ls))
    decreases |ls|
  {
    if ls != [] {
      var t := LinksText(ls);
      assert t[|t| - 1] == LinkText(ls[|ls| - 1])[|LinkText(ls[|ls| - 1])| - 1];
    }
  }

  lemma {:induction false} EntriesTerminated(es: Assoc<string, string>)
    ensures Terminated(EntriesText(es))
    decreases |es|
  {
    if es != [] {
      var t := EntriesText(es);
      var e := EntryText(es[|es| - 1].0, es[|es| - 1].1);
      assert t[|t| - 1] == e[|e| - 1];
    }
  }

  lemma {:induction false} SerializeTerminated(d: Doc)
    ensures Terminated(Serialize(d))
    decreases |d|
  {
    if d != [] {
      var (k, s) := d[|d| - 1];
      var t := Serialize(d);
      var u := SectionText(k, s);
      var rest := BodyText(s);
      assert u == HeadingText(k) + "\n" + rest;
      if EntriesText(s.entries) != [] {
        EntriesTerminated(s.entries);
      } else if s.links != [] {
        assert rest[|rest| - 1] == '\n';
      }
      assert t[|t| - 1] == u[|u| - 1];
    }
  }

  /** Neither the title nor the url of l holds a carriage return. */
  predicate LinkNoCR(l: Link) {
    '\r' !in l.title && '\r' !in l.url
  }

  /** Neither the subheading nor the body of e holds a carriage return. */
  predicate EntryNoCR(e: (string, string)) {
    '\r' !in e.0 && '\r' !in e.1
  }

  /** No category name, title, url, subheading or body of the section holds a carriage return. */
  predicate SectionNoCR(k: Option<string>, s: Section) {
    (k.Some? ==> '\r' !in k.value)
    && (forall j :: 0 <= j < |s.links| ==> LinkNoCR(s.links[j]))
    && (forall j :: 0 <= j < |s.entries| ==> EntryNoCR(s.entries[j]))
  }

  /** The link lines hold a carriage return only where a title or url does. */
  lemma {:induction false} LinksNoCR(ls: seq<Link>)
    requires forall j :: 0 <= j < |ls| ==> LinkNoCR(ls[j])
    ensures '\r' !in LinksText(ls)
    decreases |ls|
  {
    if ls != [] {
      var pre := ls[..|ls| - 1];
      assert forall j :: 0 <= j < |pre| ==> pre[j] == ls[j];
      LinksNoCR(pre);
    }
  }

  /** The entries hold a carriage return only where a subheading or body does. */
  lemma {:induction false} EntriesNoCR(es: Assoc<string, string>)
    requires forall j :: 0 <= j < |es| ==> EntryNoCR(es[j])
    ensures '\r' !in EntriesText(es)
    decreases |es|
  {
    if es != [] {
      var pre := es[..|es| - 1];
      assert forall j :: 0 <= j < |pre| ==> pre[j] == es[j];
      EntriesNoCR(pre);
    }
  }

  /** A section is written with a carriage return only where one of its parts holds one. */
  lemma SectionTextNoCR(k: Option<string>, s: Section)
    requires SectionNoCR(k, s)
    ensures '\r' !in SectionText(k, s)
  {
    LinksNoCR(s.links);
    EntriesNoCR(s.entries);
  }

  /** Nothing is written with a carriage return unless a name, title, url or body holds one. */
  lemma {:induction false} SerializeNoCR(d: Doc)
    requires forall i :: 0 <= i < |d| ==> SectionNoCR(d[i].0, d[i].1)
    ensures '\r' !in Serialize(d)
    decreases |d|
  {
    if d != [] {
      var pre := d[..|d| - 1];
      assert forall i :: 0 <= i < |pre| ==> pre[i] == d[i];
      SerializeNoCR(pre);
      SectionTextNoCR(d[|d| - 1].0, d[|d| - 1].1);
    }
  }
}
