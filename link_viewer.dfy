/**
 * parse_markdown of link_viewer.py: the file's text is split with
 * str.splitlines(); every line that starts with "##" names a category
 * (a fresh, empty list under that name), and on any other line the first
 * [title](http...) link is filed under the category in effect, unless there
 * is none or its name is empty.
 */
module LinkViewer {
  import opened Wrappers
  import opened Text
  import opened Assoc
  import opened Bookmark

  // ---------------------------------------------------------------- str.splitlines

  /** The characters at which str.splitlines() ends a line. */
  predicate IsLineBreak(c: char) {
    c == '\n' || c == '\r' || c == '\U{b}' || c == '\U{c}' || ('\U{1c}' <= c <= '\U{1e}')
    || c == '\U{85}' || c == '\U{2028}' || c == '\U{2029}'
  }

  /** The index of the first line break at or after `from`, or |s| when there is none. */
  function BreakFrom(s: string, from: nat): (i: nat)
    requires from <= |s|
    ensures from <= i <= |s|
    ensures i < |s| ==> IsLineBreak(s[i])
    decreases |s| - from
  {
    if from == |s| || IsLineBreak(s[from]) then from else BreakFrom(s, from + 1)
  }

  /** No line break comes before the one BreakFrom finds. */
  lemma {:induction false} BreakFromFirst(s: string, from: nat)
    requires from <= |s|
    ensures forall k :: from <= k < BreakFrom(s, from) ==> !IsLineBreak(s[k])
    decreases |s| - from
  {
    if from < |s| && !IsLineBreak(s[from]) {
      BreakFromFirst(s, from + 1);
    }
  }

  /** How many characters the break at s[i] takes: two for "\r\n", one otherwise. */
  function BreakWidth(s: string, i: nat): nat
    requires i < |s|
  {
    if s[i] == '\r' && i + 1 < |s| && s[i + 1] == '\n' then 2 else 1
  }

  /**
   * s.splitlines(): the pieces between line breaks, without the breaks; a
   * break at the very end does not start another (empty) piece.
   */
  function SplitBreaks(s: string): seq<string>
    decreases |s|
  {
    if s == [] then []
    else
      var i := BreakFrom(s, 0);
      if i == |s| then [s] else [s[..i]] + SplitBreaks(s[i + BreakWidth(s, i)..])
  }

  /** No piece of s.splitlines() holds a line break, so a regular expression's `.` runs to its end. */
  lemma {:induction false} SplitBreaksClean(s: string)
    ensures forall j, k :: 0 <= j < |SplitBreaks(s)| && 0 <= k < |SplitBreaks(s)[j]| ==> !IsLineBreak(SplitBreaks(s)[j][k])
    decreases |s|
  {
    if s != [] {
      var i := BreakFrom(s, 0);
      BreakFromFirst(s, 0);
      if i < |s| {
        SplitBreaksClean(s[i + BreakWidth(s, i)..]);
      }
    }
  }

  /** content.splitlines() of the text a file opened in text mode reads as. */
  function ViewLines(text: string): seq<string> {
    SplitBreaks(Normalize(text))
  }

  // ---------------------------------------------------------------- the link pattern

  /**
   * The regular expression \[([^\]]+)\]\((http[^\)]+)\) matches line[p..r + 1]:
   * "[" at p, a title line[p + 1..q] of at least one character and no "]",
   * "](" at q, and a url line[q + 2..r] that starts with "http", has at least
   * one more character, holds no ")" and is closed by the ")" at r.
   */
  predicate PatternAt(line: string, p: int, q: int, r: int) {
    0 <= p && p + 1 < q && q + 6 < r < |line|
    && line[p] == '[' && (forall k :: p < k < q ==> line[k] != ']') && line[q] == ']' && line[q + 1] == '('
    && line[q + 2..q + 6] == "http" && (forall k :: q + 6 <= k < r ==> line[k] != ')') && line[r] == ')'
  }

  /**
   * Whether re.search finds its match starting at p: the title ends at the
   * first "]" after p and the url at the first ")" after "http".
   */
  predicate MatchAt(line: string, p: nat) {
    p < |line| && line[p] == '['
    && var q := IndexOf(line, ']', p + 1);
    p + 1 < q && q + 6 < |line| && line[q + 1] == '(' && HttpAt(line, q + 2)
    && var r := IndexOf(line, ')', q + 6);
    q + 6 < r < |line|
  }

  /** "http" starts at index i of line. */
  predicate HttpAt(line: string, i: nat) {
    i + 4 <= |line| && line[i] == 'h' && line[i + 1] == 't' && line[i + 2] == 't' && line[i + 3] == 'p'
  }

  /** HttpAt is the slice comparison the pattern makes. */
  lemma HttpAtSlice(line: string, i: nat)
    requires i + 4 <= |line|
    ensures HttpAt(line, i) <==> line[i..i + 4] == "http"
  {
    if HttpAt(line, i) {
      assert line[i..i + 4] == [line[i], line[i + 1], line[i + 2], line[i + 3]];
    }
  }

  /** The two groups of the match starting at p. */
  function MatchLink(line: string, p: nat): Link
    requires MatchAt(line, p)
  {
    var q := IndexOf(line, ']', p + 1);
    var r := IndexOf(line, ')', q + 6);
    Link(line[p + 1..q], line[q + 2..r])
  }

  /** re.search from position p on: the match that starts leftmost. */
  function SearchFrom(line: string, p: nat): Option<Link>
    requires p <= |line|
    decreases |line| - p
  {
    if p == |line| then None
    else if MatchAt(line, p) then Some(MatchLink(line, p))
    else SearchFrom(line, p + 1)
  }

  /** re.search(r'\[([^\]]+)\]\((http[^\)]+)\)', line), as (group(1), group(2)). */
  function SearchLink(line: string): Option<Link> {
    SearchFrom(line, 0)
  }

  /** A match found by the search is a match of the pattern. */
  lemma MatchAtSound(line: string, p: nat)
    requires MatchAt(line, p)
    ensures var q := IndexOf(line, ']', p + 1);
      PatternAt(line, p, q, IndexOf(line, ')', q + 6))
  {
    var q := IndexOf(line, ']', p + 1);
    IndexOfNone(line, ']', p + 1);
    IndexOfNone(line, ')', q + 6);
    HttpAtSlice(line, q + 2);
  }

  /** Every match of the pattern at p is the one the search takes there, with the same groups. */
  lemma MatchAtComplete(line: string, p: int, q: int, r: int)
    requires PatternAt(line, p, q, r)
    ensures MatchAt(line, p) && MatchLink(line, p) == Link(line[p + 1..q], line[q + 2..r])
  {
    IndexOfFirst(line, ']', p + 1, q);
    IndexOfFirst(line, ')', q + 6, r);
    HttpAtSlice(line, q + 2);
  }

  /** SearchFrom finds the leftmost match at or after `from`, or reports that there is none. */
  lemma {:induction false} SearchFromLeftmost(line: string, from: nat)
    requires from <= |line|
    ensures SearchFrom(line, from).None? ==> forall p :: from <= p < |line| ==> !MatchAt(line, p)
    ensures SearchFrom(line, from).Some? ==>
      exists p :: from <= p < |line| && MatchAt(line, p) && SearchFrom(line, from).value == MatchLink(line, p)
        && forall p' :: from <= p' < p ==> !MatchAt(line, p')
    decreases |line| - from
  {
    if from < |line| && !MatchAt(line, from) {
      SearchFromLeftmost(line, from + 1);
      if SearchFrom(line, from).Some? {
        var p :| from + 1 <= p < |line| && MatchAt(line, p) && SearchFrom(line, from).value == MatchLink(line, p)
          && forall p' :: from + 1 <= p' < p ==> !MatchAt(line, p');
        assert forall p' :: from <= p' < p ==> !MatchAt(line, p');
      }
    }
  }

  /**
   * The search agrees with the regular expression: it finds nothing exactly
   * when the pattern matches nowhere in the line, and otherwise returns the
   * groups of the leftmost match.
   */
  lemma SearchLinkRegex(line: string)
    ensures SearchLink(line).None? <==> forall p, q, r :: !PatternAt(line, p, q, r)
    ensures SearchLink(line).Some? ==>
      exists p, q, r :: PatternAt(line, p, q, r) && SearchLink(line).value == Link(line[p + 1..q], line[q + 2..r])
        && forall p', q', r' :: PatternAt(line, p', q', r') ==> p <= p'
  {
    SearchFromLeftmost(line, 0);
    if SearchLink(line).None? {
      NoMatchNoPattern(line);
    } else {
      var p :| 0 <= p < |line| && MatchAt(line, p) && SearchLink(line).value == MatchLink(line, p)
        && forall p' :: 0 <= p' < p ==> !MatchAt(line, p');
      LeftmostPattern(line, p);
    }
  }

  /** Where the search finds no start, the pattern matches nowhere. */
  lemma NoMatchNoPattern(line: string)
    requires forall p :: 0 <= p < |line| ==> !MatchAt(line, p)
    ensures forall p, q, r :: !PatternAt(line, p, q, r)
  {
    forall p, q, r | PatternAt(line, p, q, r) ensures false {
      MatchAtComplete(line, p, q, r);
    }
  }

  /** The first start the search finds is where the leftmost match of the pattern starts. */
  lemma LeftmostPattern(line: string, p: nat)
    requires p < |line| && MatchAt(line, p)
    requires forall p' :: 0 <= p' < p ==> !MatchAt(line, p')
    ensures exists q, r :: PatternAt(line, p, q, r) && MatchLink(line, p) == Link(line[p + 1..q], line[q + 2..r])
    ensures forall p', q', r' :: PatternAt(line, p', q', r') ==> p <= p'
  {
    MatchAtSound(line, p);
    var q := IndexOf(line, ']', p + 1);
    var r := IndexOf(line, ')', q + 6);
    assert PatternAt(line, p, q, r);
    forall p', q', r' | PatternAt(line, p', q', r') ensures p <= p' {
      MatchAtComplete(line, p', q', r');
    }
  }

  // ---------------------------------------------------------------- the scan

  /** categorized_links and current_heading. */
  datatype ViewState = ViewState(links: Assoc<string, seq<Link>>, current: Option<string>)

  const Start := ViewState([], None)

  /** re.match(r'^(##)\s*(.*)', line): the line itself, not its stripped form, starts with "##". */
  predicate IsHeading(line: string) {
    StartsWith(line, "##")
  }

  /** heading_match.group(2).strip(): everything after the "##", stripped. */
  function HeadingName(line: string): string
    requires IsHeading(line)
  {
    Strip(line[2..])
  }

  /** One iteration of the loop over the lines. */
  function StepView(st: ViewState, line: string): ViewState {
    if IsHeading(line) then
      var h := HeadingName(line);
      ViewState(Put(st.links, h, []), Some(h))
    else if Truthy(st.current) && SearchLink(line).Some? then
      var h := st.current.value;
      st.(links := Put(st.links, h, GetOr(st.links, h, []) + [SearchLink(line).value]))
    else st
  }

  /** The state after the loop has run over `lines`. */
  function RunView(lines: seq<string>): ViewState
    decreases |lines|
  {
    if lines == [] then Start else StepView(RunView(lines[..|lines| - 1]), lines[|lines| - 1])
  }

  /** What parse_markdown returns for the file's text. */
  function Categorize(text: string): Assoc<string, seq<Link>> {
    RunView(ViewLines(text)).links
  }

  /** parse_markdown(file_path), on the text the file holds. */
  method ParseMarkdown(text: string) returns (categorized: Assoc<string, seq<Link>>)
    ensures categorized == Categorize(text)
  {
    var lines := ViewLines(text);
    categorized := [];
    var current: Option<string> := None;
    var i := 0;
    while i < |lines|
      invariant 0 <= i <= |lines|
      invariant ViewState(categorized, current) == RunView(lines[..i])
    {
      var line := lines[i];
      ghost var st := ViewState(categorized, current);
      RunViewSnoc(lines, i);
      if IsHeading(line) {
        current := Some(HeadingName(line));
        categorized := Put(categorized, current.value, []);
      } else if Truthy(current) {
        var found := SearchLink(line);
        if found.Some? {
          var h := current.value;
          categorized := Put(categorized, h, GetOr(categorized, h, []) + [found.value]);
        }
      }
      assert ViewState(categorized, current) == StepView(st, line);
      i := i + 1;
    }
    assert lines[..i] == lines;
  }

  /** The loop's state after one more line. */
  lemma RunViewSnoc(lines: seq<string>, i: nat)
    requires i < |lines|
    ensures RunView(lines[..i + 1]) == StepView(RunView(lines[..i]), lines[i])
  {
    assert lines[..i + 1][..i] == lines[..i];
  }

  // ---------------------------------------------------------------- what the result holds

  /** The names of the heading lines, in file order (repeats included). */
  function HeadingNames(lines: seq<string>): seq<string>
    decreases |lines|
  {
    if lines == [] then []
    else
      var pre, line := lines[..|lines| - 1], lines[|lines| - 1];
      if IsHeading(line) then HeadingNames(pre) + [HeadingName(line)] else HeadingNames(pre)
  }

  /** s without repeats, each element where it first appears. */
  function FirstAppearances(s: seq<string>): seq<string>
    decreases |s|
  {
    if s == [] then []
    else
      var d := FirstAppearances(s[..|s| - 1]);
      if s[|s| - 1] in d then d else d + [s[|s| - 1]]
  }

  /** The name of the last heading line, if any: the category in effect after `lines`. */
  function CurrentHeading(lines: seq<string>): Option<string>
    decreases |lines|
  {
    if lines == [] then None
    else if IsHeading(lines[|lines| - 1]) then Some(HeadingName(lines[|lines| - 1]))
    else CurrentHeading(lines[..|lines| - 1])
  }

  /**
   * The links category h holds after `lines`: the first link of each line
   * after the last heading line named h while h is in effect, and none when
   * h is empty.
   */
  function LinksSince(lines: seq<string>, h: string): seq<Link>
    decreases |lines|
  {
    if lines == [] then []
    else
      var pre, line := lines[..|lines| - 1], lines[|lines| - 1];
      if IsHeading(line) then (if HeadingName(line) == h then [] else LinksSince(pre, h))
      else if CurrentHeading(pre) == Some(h) && h != "" && SearchLink(line).Some? then
        LinksSince(pre, h) + [SearchLink(line).value]
      else LinksSince(pre, h)
  }

  /** FirstAppearances keeps exactly the elements of s, once each. */
  lemma {:induction false} FirstAppearancesElems(s: seq<string>)
    ensures forall x :: x in FirstAppearances(s) <==> x in s
    ensures NoDup(FirstAppearances(s))
    decreases |s|
  {
    if s != [] {
      var pre := s[..|s| - 1];
      FirstAppearancesElems(pre);
      assert s == pre + [s[|s| - 1]];
    }
  }

  /** The category in effect is the name of the last heading line. */
  lemma {:induction false} RunViewCurrent(lines: seq<string>)
    ensures RunView(lines).current == CurrentHeading(lines)
    ensures CurrentHeading(lines).Some? ==> CurrentHeading(lines).value in HeadingNames(lines)
    decreases |lines|
  {
    if lines != [] {
      RunViewCurrent(lines[..|lines| - 1]);
    }
  }

  /**
   * The keys are the heading names in order of first appearance: every
   * heading line makes its name a key, even with no links under it, and a
   * repeated name keeps its first place.
   */
  lemma {:induction false} RunViewKeys(lines: seq<string>)
    ensures Keys(RunView(lines).links) == FirstAppearances(HeadingNames(lines))
    decreases |lines|
  {
    if lines != [] {
      var pre, line := lines[..|lines| - 1], lines[|lines| - 1];
      var st := RunView(pre);
      RunViewKeys(pre);
      if IsHeading(line) {
        PutKeys(st.links, HeadingName(line), []);
        assert HeadingNames(lines) == HeadingNames(pre) + [HeadingName(line)];
        assert HeadingNames(lines)[..|HeadingNames(lines)| - 1] == HeadingNames(pre);
      } else if Truthy(st.current) && SearchLink(line).Some? {
        var h := st.current.value;
        RunViewCurrent(pre);
        FirstAppearancesElems(HeadingNames(pre));
        PutKeys(st.links, h, GetOr(st.links, h, []) + [SearchLink(line).value]);
      }
    }
  }

  /**
   * Each heading name holds exactly the links LinksSince describes: a
   * repeated heading starts its list afresh, a line adds at most its first
   * link, and names never used by a heading line are absent.
   */
  lemma {:induction false} RunViewFind(lines: seq<string>, h: string)
    ensures Find(RunView(lines).links, h) == if h in HeadingNames(lines) then Some(LinksSince(lines, h)) else None
    decreases |lines|
  {
    if lines != [] {
      var pre, line := lines[..|lines| - 1], lines[|lines| - 1];
      var st := RunView(pre);
      RunViewFind(pre, h);
      RunViewCurrent(pre);
      if IsHeading(line) {
        PutFind(st.links, HeadingName(line), []);
      } else if Truthy(st.current) && SearchLink(line).Some? {
        var c := st.current.value;
        RunViewFind(pre, c);
        PutFind(st.links, c, GetOr(st.links, c, []) + [SearchLink(line).value]);
      }
    }
  }

  /** A category whose name is empty (a bare "##" line) never holds a link. */
  lemma {:induction false} EmptyNameSwallows(lines: seq<string>)
    ensures LinksSince(lines, "") == []
    decreases |lines|
  {
    if lines != [] {
      EmptyNameSwallows(lines[..|lines| - 1]);
    }
  }

  /**
   * In the result for a file, the empty name (from a bare "##" line) is a key
   * exactly when such a line occurs, and its list of links is always empty.
   */
  lemma EmptyHeadingNoLinks(text: string)
    ensures Find(Categorize(text), "") == if "" in HeadingNames(ViewLines(text)) then Some([]) else None
  {
    RunViewFind(ViewLines(text), "");
    EmptyNameSwallows(ViewLines(text));
  }

  /** Lines before the first heading line leave the result empty, whatever links they hold. */
  lemma {:induction false} NoHeadingNoLinks(lines: seq<string>)
    requires HeadingNames(lines) == []
    ensures RunView(lines) == Start
    decreases |lines|
  {
    if lines != [] {
      NoHeadingNoLinks(lines[..|lines| - 1]);
    }
  }

  /** The result for a file, described by key and by contents. */
  lemma CategorizeSpec(text: string, h: string)
    ensures Keys(Categorize(text)) == FirstAppearances(HeadingNames(ViewLines(text)))
    ensures DistinctKeys(Categorize(text))
    ensures Find(Categorize(text), h)
      == if h in HeadingNames(ViewLines(text)) then Some(LinksSince(ViewLines(text), h)) else None
  {
    var lines := ViewLines(text);
    RunViewKeys(lines);
    FirstAppearancesElems(HeadingNames(lines));
    RunViewFind(lines, h);
  }

  /**
   * "##", any whitespace, a name that starts and ends with non-whitespace (or
   * none), and any whitespace: a heading with that name, whether or not a
   * space follows the "##".
   */
  lemma HeadingOf(pre: string, name: string, post: string)
    requires forall k :: 0 <= k < |pre| ==> IsSpace(pre[k])
    requires forall k :: 0 <= k < |post| ==> IsSpace(post[k])
    requires name == [] || (!IsSpace(name[0]) && !IsSpace(name[|name| - 1]))
    ensures IsHeading("##" + pre + name + post) && HeadingName("##" + pre + name + post) == name
  {
    var t := pre + name + post;
    var line := "##" + pre + name + post;
    assert line == "##" + t;
    assert line[..2] == "##" && line[2..] == t;
    StripPadded(pre, name, post);
  }

  /** A line whose first character is not "#" (an indented "## X", say) is no heading. */
  lemma NotHeading(line: string)
    requires line != [] && line[0] != '#'
    ensures !IsHeading(line)
  {
    if |line| >= 2 {
      assert line[..2][0] == line[0];
    }
  }

  /** "### Sub" is a heading, of the category "# Sub". */
  lemma SubheadingLineIsCategory()
    ensures IsHeading("### Sub") && HeadingName("### Sub") == "# Sub"
  {
    HeadingOf([], "# Sub", []);
    assert "##" + [] + "# Sub" + [] == "### Sub";
  }

  /** A bare "##" is a heading with the empty name. */
  lemma BareHeading()
    ensures IsHeading("##") && HeadingName("##") == ""
  {
    HeadingOf([], "", []);
    assert "##" + [] + "" + [] == "##";
  }
}
