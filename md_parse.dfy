/**
 * parse_markdown of md_browser.py: one forward scan over the file's lines.
 * Each line is stripped and classified as a "## " category heading, a "### "
 * subheading, a "- [title](url)" link, or body text; body lines are buffered
 * and stored under the open subheading when the next heading arrives or at
 * the end of input.
 */
module MdParse {
  import opened Wrappers
  import opened Text
  import opened Assoc
  import opened Bookmark
  import opened MdDoc

  /** "](" starts at index k of l. */
  predicate CloseOpenAt(l: string, k: int) {
    0 <= k && k + 1 < |l| && l[k] == ']' && l[k + 1] == '('
  }

  /** l holds no "](". */
  predicate NoCloseOpen(l: string) {
    forall k | 0 <= k < |l| :: !CloseOpenAt(l, k)
  }

  /**
   * What re.match(r"- \[.*\]\(.*\)", s) asks for: s starts with "- [", and
   * later, before any newline (which `.` cannot cross), a "](" is followed
   * somewhere by ")".
   */
  predicate GreedyMatch(s: string) {
    var l := UpToNewline(s);
    StartsWith(l, "- [")
    && exists i, j | 3 <= i && i + 2 <= j < |l| :: CloseOpenAt(l, i) && l[j] == ')'
  }

  /**
   * re.match(r"- \[.*\]\(.*\)", s), decided the way the greedy groups settle:
   * the first "](" from index 3 on must come before the last ")" of the
   * first line (LinkShapeRegex: exactly GreedyMatch).
   */
  predicate LinkShape(s: string) {
    var l := UpToNewline(s);
    StartsWith(l, "- [") && FindCloseOpen(l, 3) + 2 <= LastIndexOf(l, ')')
  }

  /** The first "](" at or after `from`, or |l| when there is none. */
  function FindCloseOpen(l: string, from: nat): (i: nat)
    requires from <= |l|
    ensures from <= i <= |l|
    ensures i < |l| ==> CloseOpenAt(l, i)
    decreases |l| - from
  {
    if from + 1 >= |l| then |l|
    else if CloseOpenAt(l, from) then from
    else FindCloseOpen(l, from + 1)
  }

  /** No "](" starts between `from` and the index found. */
  lemma {:induction false} FindCloseOpenNone(l: string, from: nat)
    requires from <= |l|
    ensures forall k :: from <= k < FindCloseOpen(l, from) ==> !CloseOpenAt(l, k)
    decreases |l| - from
  {
    if from + 1 < |l| && !CloseOpenAt(l, from) {
      FindCloseOpenNone(l, from + 1);
    }
  }

  /** The index of the last c in s, or -1 when there is none. */
  function LastIndexOf(s: string, c: char): (j: int)
    ensures -1 <= j < |s|
    ensures j >= 0 ==> s[j] == c
    decreases |s|
  {
    if s == [] then -1
    else if s[|s| - 1] == c then |s| - 1
    else LastIndexOf(s[..|s| - 1], c)
  }

  /** No c lies after the index found. */
  lemma {:induction false} LastIndexOfNone(s: string, c: char)
    ensures forall k :: LastIndexOf(s, c) < k < |s| ==> s[k] != c
    decreases |s|
  {
    if s != [] && s[|s| - 1] != c {
      var p := s[..|s| - 1];
      LastIndexOfNone(p, c);
      assert forall k :: 0 <= k < |p| ==> p[k] == s[k];
    }
  }

  /**
   * re.match(r"- \[(.*?)\]\((.*?)\)", s) and its two groups. The lazy groups
   * make the title the shortest one (it holds no "](") and the url the
   * shortest one after it (it holds no ")").
   */
  function LinkMatch(s: string): (r: Option<Link>)
  {
    var l := UpToNewline(s);
    if !StartsWith(l, "- [") then None
    else
      var i := FindCloseOpen(l, 3);
      if i == |l| then None
      else
        var j := IndexOf(l, ')', i + 2);
        if j == |l| then None
        else
          Some(Link(l[3..i], l[i + 2..j]))
  }

  /**
   * What a successful match yields: the line begins with "- [title](url)",
   * the title holds no "](" and the url no ")".
   */
  lemma LinkMatchShape(s: string)
    ensures var r := LinkMatch(s);
      r.Some? ==>
        StartsWith(UpToNewline(s), "- [" + r.value.title + "](" + r.value.url + ")")
        && NoCloseOpen(r.value.title) && ')' !in r.value.url
  {
    var l := UpToNewline(s);
    if LinkMatch(s).Some? {
      var i := FindCloseOpen(l, 3);
      var j := IndexOf(l, ')', i + 2);
      FindCloseOpenNone(l, 3);
      IndexOfNone(l, ')', i + 2);
      var t, u := l[3..i], l[i + 2..j];
      assert l[..j + 1] == "- [" + t + "](" + u + ")";
      assert forall k :: CloseOpenAt(t, k) ==> CloseOpenAt(l, k + 3);
    }
  }

  /** A stripped line that is neither kind of heading and has the link shape. */
  predicate IsLinkLine(s: string) {
    !StartsWith(s, "## ") && !StartsWith(s, "### ") && LinkShape(s)
  }

  /** A stripped line that parse_markdown treats as body text. */
  predicate IsText(s: string) {
    !StartsWith(s, "## ") && !StartsWith(s, "### ") && !LinkShape(s)
  }

  /** The scan's variables: data, current_category, current_subheading, buffer. */
  datatype ParseState = ParseState(
    data: Doc, category: Option<string>, subheading: Option<string>, buffer: seq<string>)

  const Init := ParseState([], None, None, [])

  /** "\n".join(buffer).strip(): the body stored for a subheading. */
  function Body(buffer: seq<string>): string {
    Strip(JoinNl(buffer))
  }

  /** `current_subheading and buffer`: there is a body to store. */
  predicate Pending(st: ParseState) {
    Truthy(st.subheading) && st.buffer != []
  }

  /** The data once the pending body, if any, is stored under the open subheading. */
  function Flushed(st: ParseState): Doc {
    if Pending(st) then StoreEntry(st.data, st.category, st.subheading.value, Body(st.buffer))
    else st.data
  }

  /** The buffer once a heading has closed the pending body. */
  function Cleared(st: ParseState): seq<string> {
    if Pending(st) then [] else st.buffer
  }

  /** One iteration of the scan. */
  function Step(st: ParseState, line: string): ParseState {
    var s := Strip(line);
    if StartsWith(s, "## ") then ParseState(Flushed(st), Some(Strip(s[3..])), None, Cleared(st))
    else if StartsWith(s, "### ") then ParseState(Flushed(st), st.category, Some(Strip(s[4..])), Cleared(st))
    else if LinkShape(s) then
      match LinkMatch(s)
      case Some(l) => st.(data := AppendLink(st.data, st.category, l))
      case None => st
    else if Truthy(st.subheading) then st.(buffer := st.buffer + [RStrip(line)])
    else st
  }

  /** The scan over all of `lines`, starting from st. */
  function Run(st: ParseState, lines: seq<string>): ParseState
    decreases |lines|
  {
    if lines == [] then st else Step(Run(st, lines[..|lines| - 1]), lines[|lines| - 1])
  }

  /** The scan followed by the end-of-input flush, which also needs an open category. */
  function Parse(lines: seq<string>): Doc {
    var st := Run(Init, lines);
    if Truthy(st.category) then Flushed(st) else st.data
  }

  /** parse_markdown on the lines of the file. */
  method ParseMarkdown(lines: seq<string>) returns (data: Doc)
    ensures data == Parse(lines)
  {
    data := [];
    var category: Option<string> := None;
    var subheading: Option<string> := None;
    var buffer: seq<string> := [];
    var n := 0;
    while n < |lines|
      invariant n <= |lines|
      invariant ParseState(data, category, subheading, buffer) == Run(Init, lines[..n])
    {
      var line := lines[n];
      RunSnoc(Init, lines, n);
      var stripped := Strip(line);
      if StartsWith(stripped, "## ") {
        if Truthy(subheading) && buffer != [] {
          data := StoreEntry(data, category, subheading.value, Body(buffer));
          buffer := [];
        }
        category := Some(Strip(stripped[3..]));
        subheading := None;
      } else if StartsWith(stripped, "### ") {
        if Truthy(subheading) && buffer != [] {
          data := StoreEntry(data, category, subheading.value, Body(buffer));
          buffer := [];
        }
        subheading := Some(Strip(stripped[4..]));
      } else if LinkShape(stripped) {
        var m := LinkMatch(stripped);
        if m.Some? {
          data := AppendLink(data, category, m.value);
        }
      } else if Truthy(subheading) {
        buffer := buffer + [RStrip(line)];
      }
      n := n + 1;
    }
    assert lines[..n] == lines;
    if Truthy(category) && Truthy(subheading) && buffer != [] {
      data := StoreEntry(data, category, subheading.value, Body(buffer));
    }
  }

  /** One more line is one more step. */
  lemma RunSnoc(st: ParseState, lines: seq<string>, n: nat)
    requires n < |lines|
    ensures Run(st, lines[..n + 1]) == Step(Run(st, lines[..n]), lines[n])
  {
    assert lines[..n + 1][..n] == lines[..n];
  }

  /** A line after the lines A is one more step. */
  lemma RunSnocLine(st: ParseState, A: seq<string>, x: string)
    ensures Run(st, A + [x]) == Step(Run(st, A), x)
  {
    assert (A + [x])[..|A|] == A;
  }

  /** Two lines are two steps. */
  lemma RunTwo(st: ParseState, x: string, y: string)
    ensures Run(st, [x, y]) == Step(Step(st, x), y)
  {
    RunSnocLine(st, [x], y);
    assert [x] + [y] == [x, y];
    RunOne(st, x);
  }

  /** One line alone is one step. */
  lemma RunOne(st: ParseState, line: string)
    ensures Run(st, [line]) == Step(st, line)
  {
    assert [line][..0] == [];
  }

  /** Scanning a + b is scanning a, then b. */
  lemma {:induction false} RunAppend(st: ParseState, a: seq<string>, b: seq<string>)
    ensures Run(st, a + b) == Run(Run(st, a), b)
    decreases |b|
  {
    if b == [] {
      assert a + b == a;
    } else {
      var b' := b[..|b| - 1];
      assert (a + b)[..|a + b| - 1] == a + b';
      RunAppend(st, a, b');
    }
  }

  // ---------------------------------------------------------------- one step, kind by kind

  /** A "## " line closes the pending body and opens the named category, with no subheading. */
  lemma StepCategory(st: ParseState, line: string)
    requires StartsWith(Strip(line), "## ")
    ensures Step(st, line) == ParseState(Flushed(st), Some(Strip(Strip(line)[3..])), None, Cleared(st))
  {
  }

  /** A "### " line closes the pending body and opens the named subheading in the same category. */
  lemma StepSubheading(st: ParseState, line: string)
    requires StartsWith(Strip(line), "### ")
    ensures Step(st, line) == ParseState(Flushed(st), st.category, Some(Strip(Strip(line)[4..])), Cleared(st))
  {
    HeadingKindsDisjoint(Strip(line));
  }

  /** A link line appends its link to the current category and touches nothing else. */
  lemma StepLink(st: ParseState, line: string)
    requires IsLinkLine(Strip(line))
    ensures LinkMatch(Strip(line)).Some?
    ensures Step(st, line) == st.(data := AppendLink(st.data, st.category, LinkMatch(Strip(line)).value))
  {
    LinkShapeMatches(Strip(line));
  }

  /** A body line is buffered, right-stripped, under an open subheading, and dropped otherwise. */
  lemma StepText(st: ParseState, line: string)
    requires IsText(Strip(line))
    ensures Step(st, line) == if Truthy(st.subheading) then st.(buffer := st.buffer + [RStrip(line)]) else st
  {
  }

  /** Every line is of exactly one of the four kinds. */
  lemma Kinds(s: string)
    ensures StartsWith(s, "## ") || StartsWith(s, "### ") || IsLinkLine(s) || IsText(s)
    ensures StartsWith(s, "### ") ==> !StartsWith(s, "## ")
  {
    if StartsWith(s, "### ") {
      HeadingKindsDisjoint(s);
    }
  }

  // ---------------------------------------------------------------- the two regular expressions

  /** The second pattern matches exactly when the first does, so a link-shaped line always yields a link. */
  lemma LinkShapeMatches(s: string)
    ensures LinkShape(s) <==> LinkMatch(s).Some?
  {
    var l := UpToNewline(s);
    if StartsWith(l, "- [") {
      var i := FindCloseOpen(l, 3);
      if i < |l| {
        IndexOfNone(l, ')', i + 2);
        LastIndexOfNone(l, ')');
      }
    }
  }

  /** The greedy decision is the regular expression's own condition. */
  lemma LinkShapeRegex(s: string)
    ensures LinkShape(s) <==> GreedyMatch(s)
  {
    var l := UpToNewline(s);
    if StartsWith(l, "- [") {
      FindCloseOpenNone(l, 3);
      LastIndexOfNone(l, ')');
      var i0, j0 := FindCloseOpen(l, 3), LastIndexOf(l, ')');
      if LinkShape(s) {
        assert CloseOpenAt(l, i0) && l[j0] == ')';
      }
      if GreedyMatch(s) {
        var i, j :| 3 <= i && i + 2 <= j < |l| && CloseOpenAt(l, i) && l[j] == ')';
        assert i0 <= i && j <= j0;
      }
    }
  }

  /** The line written for a link reads back as that link when its title has no "](" and its url no ")". */
  lemma LinkMatchWritten(t: string, u: string)
    requires NoCloseOpen(t) && ')' !in u && '\n' !in t && '\n' !in u
    ensures LinkMatch("- [" + t + "](" + u + ")") == Some(Link(t, u))
  {
    var l := "- [" + t + "](" + u + ")";
    var i, j := 3 + |t|, |l| - 1;
    UpToNewlineSpec(l);
    assert StartsWith(l, "- [");
    forall k | 3 <= k < i ensures !CloseOpenAt(l, k) {
      assert l[k] == t[k - 3];
      if k + 1 < i {
        assert l[k + 1] == t[k - 2] && !CloseOpenAt(t, k - 3);
      } else {
        assert l[k + 1] == ']';
      }
    }
    assert CloseOpenAt(l, i);
    FindCloseOpenFirst(l, 3, i);
    forall k | i + 2 <= k < j ensures l[k] != ')' {
      assert l[k] == u[k - i - 2];
    }
    IndexOfFirst(l, ')', i + 2, j);
    assert l[3..i] == t && l[i + 2..j] == u;
  }

  /** The first "](" at or after `from` is the one found. */
  lemma {:induction false} FindCloseOpenFirst(l: string, from: nat, i: nat)
    requires from <= i < |l| && CloseOpenAt(l, i)
    requires forall k :: from <= k < i ==> !CloseOpenAt(l, k)
    ensures FindCloseOpen(l, from) == i
    decreases i - from
  {
    if from < i {
      FindCloseOpenFirst(l, from + 1, i);
    }
  }

  // ---------------------------------------------------------------- the heading rules

  /** A "### " line is never taken as a "## " heading. */
  lemma HeadingKindsDisjoint(s: string)
    requires StartsWith(s, "### ")
    ensures !StartsWith(s, "## ")
  {
    assert s[2] == '#';
  }

  /** The name taken from a "## " or "### " line is never empty, so it is always truthy. */
  lemma HeadingNameNonEmpty(line: string, n: nat)
    requires n == 3 || n == 4
    requires StartsWith(Strip(line), if n == 3 then "## " else "### ")
    ensures Truthy(Some(Strip(Strip(line)[n..])))
  {
    var s := Strip(line);
    assert s != [] && !IsSpace(s[|s| - 1]) by {
      StripEnds(line);
    }
    NameAfterMarker(s, n);
  }

  /** After a marker ending in a space, a stripped line still holds its last (non-space) character. */
  lemma NameAfterMarker(s: string, n: nat)
    requires n == 3 || n == 4
    requires StartsWith(s, if n == 3 then "## " else "### ")
    requires !IsSpace(s[|s| - 1])
    ensures Strip(s[n..]) != []
  {
    assert s[n - 1] == (if n == 3 then "## " else "### ")[n - 1];
    var t := s[n..];
    assert |s| > n;
    assert t[|s| - 1 - n] == s[|s| - 1];
    StripNonEmpty(t, |s| - 1 - n);
  }

  /** The category in effect after `lines`: the name from the last "## " line. */
  function LastCategory(lines: seq<string>): Option<string>
    decreases |lines|
  {
    if lines == [] then None
    else
      var s := Strip(lines[|lines| - 1]);
      if StartsWith(s, "## ") then Some(Strip(s[3..])) else LastCategory(lines[..|lines| - 1])
  }

  /** Only a "## " line moves current_category. */
  lemma StepCategoryField(st: ParseState, line: string)
    ensures Step(st, line).category
      == if StartsWith(Strip(line), "## ") then Some(Strip(Strip(line)[3..])) else st.category
  {
    var s := Strip(line);
    Kinds(s);
    if StartsWith(s, "## ") {
      StepCategory(st, line);
    } else if StartsWith(s, "### ") {
      StepSubheading(st, line);
    } else if IsLinkLine(s) {
      StepLink(st, line);
    } else {
      StepText(st, line);
    }
  }

  /** current_category is always the name of the last "## " line read so far. */
  lemma {:induction false} CategoryTracking(lines: seq<string>)
    ensures Run(Init, lines).category == LastCategory(lines)
    decreases |lines|
  {
    if lines != [] {
      var pre := lines[..|lines| - 1];
      CategoryTracking(pre);
      StepCategoryField(Run(Init, pre), lines[|lines| - 1]);
    }
  }

  /** The buffer holds lines only while a subheading is open. */
  predicate BufferOwned(st: ParseState) {
    st.buffer != [] ==> Truthy(st.subheading)
  }

  lemma StepBufferOwned(st: ParseState, line: string)
    requires BufferOwned(st)
    ensures BufferOwned(Step(st, line))
  {
    var s := Strip(line);
    Kinds(s);
    if StartsWith(s, "## ") {
      StepCategory(st, line);
    } else if StartsWith(s, "### ") {
      StepSubheading(st, line);
      HeadingNameNonEmpty(line, 4);
    } else if IsLinkLine(s) {
      StepLink(st, line);
    } else {
      StepText(st, line);
    }
  }

  /** A buffered line always belongs to an open subheading. */
  lemma {:induction false} BufferUnderSubheading(lines: seq<string>)
    ensures BufferOwned(Run(Init, lines))
    decreases |lines|
  {
    if lines != [] {
      var pre := lines[..|lines| - 1];
      BufferUnderSubheading(pre);
      StepBufferOwned(Run(Init, pre), lines[|lines| - 1]);
    }
  }

  // ---------------------------------------------------------------- links

  /** The link a link-shaped line yields, as a zero- or one-element list. */
  function LinkOf(s: string): seq<Link> {
    match LinkMatch(s)
    case Some(l) => [l]
    case None => []
  }

  /** The links of the link lines whose category in effect is k, in file order. */
  function LinksUnder(lines: seq<string>, k: Option<string>): seq<Link>
    decreases |lines|
  {
    if lines == [] then []
    else
      var pre := lines[..|lines| - 1];
      var s := Strip(lines[|lines| - 1]);
      if IsLinkLine(s) && LastCategory(pre) == k then LinksUnder(pre, k) + LinkOf(s)
      else LinksUnder(pre, k)
  }

  /** Storing a body never touches a link list. */
  lemma FlushedLinks(st: ParseState, k: Option<string>)
    ensures Sec(Flushed(st), k).links == Sec(st.data, k).links
  {
    if Pending(st) {
      StoreEntrySection(st.data, st.category, st.subheading.value, Body(st.buffer));
    }
  }

  /** A step adds to category k's links exactly the link of a link line read while k is current. */
  lemma StepLinks(st: ParseState, line: string, k: Option<string>)
    ensures Sec(Step(st, line).data, k).links
      == Sec(st.data, k).links + if IsLinkLine(Strip(line)) && st.category == k then LinkOf(Strip(line)) else []
  {
    var s := Strip(line);
    Kinds(s);
    if StartsWith(s, "## ") || StartsWith(s, "### ") {
      StepHeadingLinks(st, line, k);
    } else if IsLinkLine(s) {
      StepLinkLinks(st, line, k);
    } else {
      StepText(st, line);
    }
  }

  /** A heading line leaves every category's links alone. */
  lemma StepHeadingLinks(st: ParseState, line: string, k: Option<string>)
    requires StartsWith(Strip(line), "## ") || StartsWith(Strip(line), "### ")
    ensures Sec(Step(st, line).data, k).links == Sec(st.data, k).links
  {
    assert Step(st, line).data == Flushed(st) by {
      if StartsWith(Strip(line), "## ") {
        StepCategory(st, line);
      } else {
        StepSubheading(st, line);
      }
    }
    FlushedLinks(st, k);
  }

  /** A link line adds its link to the current category's links and to no other. */
  lemma StepLinkLinks(st: ParseState, line: string, k: Option<string>)
    requires IsLinkLine(Strip(line))
    ensures Sec(Step(st, line).data, k).links
      == Sec(st.data, k).links + if st.category == k then LinkOf(Strip(line)) else []
  {
    StepLink(st, line);
    LinkAppended(st.data, st.category, k, Strip(line));
  }

  /** Filing the link of a link line under category c adds it to c's links and to no other category's. */
  lemma LinkAppended(d: Doc, c: Option<string>, k: Option<string>, s: string)
    requires IsLinkLine(s)
    ensures LinkMatch(s).Some?
    ensures Sec(AppendLink(d, c, LinkMatch(s).value), k).links == Sec(d, k).links + if c == k then LinkOf(s) else []
  {
    LinkShapeMatches(s);
    var l := LinkMatch(s).value;
    assert LinkOf(s) == [l];
    AppendLinkSpec(d, c, l);
  }

  /**
   * Each category's links are exactly the link lines met while it was the
   * current category, in file order: links under an open subheading included,
   * links before any "## " filed under None, a repeated "## X" adding to X.
   */
  lemma ParseLinks(lines: seq<string>, k: Option<string>)
    ensures Sec(Parse(lines), k).links == LinksUnder(lines, k)
  {
    RunLinks(lines, k);
    FlushedLinks(Run(Init, lines), k);
  }

  lemma {:induction false} RunLinks(lines: seq<string>, k: Option<string>)
    ensures Sec(Run(Init, lines).data, k).links == LinksUnder(lines, k)
    decreases |lines|
  {
    if lines != [] {
      var pre := lines[..|lines| - 1];
      RunLinks(pre, k);
      CategoryTracking(pre);
      StepLinks(Run(Init, pre), lines[|lines| - 1], k);
    }
  }

  // ---------------------------------------------------------------- body text

  /** Every line of B reads as body text. */
  predicate AllText(B: seq<string>) {
    forall i :: 0 <= i < |B| ==> IsText(Strip(B[i]))
  }

  /** Each line right-stripped: what the buffer receives. */
  function RStripAll(B: seq<string>): (r: seq<string>)
    ensures |r| == |B|
  {
    seq(|B|, i requires 0 <= i < |B| => RStrip(B[i]))
  }

  /**
   * Body lines go to the buffer right-stripped while a subheading is open,
   * and are dropped when none is.
   */
  lemma {:induction false} RunText(st: ParseState, B: seq<string>)
    requires AllText(B)
    ensures Run(st, B) == if Truthy(st.subheading) then st.(buffer := st.buffer + RStripAll(B)) else st
    decreases |B|
  {
    if B != [] {
      var pre, last := B[..|B| - 1], B[|B| - 1];
      AllTextSnoc(B);
      RunText(st, pre);
      StepText(Run(st, pre), last);
      RStripAllSnoc(B);
      AppendAssoc(st.buffer, RStripAll(pre), [RStrip(last)]);
    }
  }

  lemma AllTextSnoc(B: seq<string>)
    requires AllText(B) && B != []
    ensures AllText(B[..|B| - 1]) && IsText(Strip(B[|B| - 1]))
  {
    var pre := B[..|B| - 1];
    forall i | 0 <= i < |pre| ensures IsText(Strip(pre[i])) {
      assert pre[i] == B[i];
    }
  }

  lemma AllTextSnocLine(A: seq<string>, x: string)
    requires AllText(A) && IsText(Strip(x))
    ensures AllText(A + [x])
  {
  }

  lemma RStripAllSnoc(B: seq<string>)
    requires B != []
    ensures RStripAll(B) == RStripAll(B[..|B| - 1]) + [RStrip(B[|B| - 1])]
  {
  }

  /**
   * A "### h" line followed by body lines B and then a heading line: the
   * body is stored under h, in the category in effect, exactly when B is not
   * empty, and it is B right-stripped line by line, joined and stripped.
   */
  lemma SubheadingBody(st: ParseState, head: string, B: seq<string>, next: string)
    requires BufferOwned(st)
    requires StartsWith(Strip(head), "### ") && AllText(B)
    requires StartsWith(Strip(next), "## ") || StartsWith(Strip(next), "### ")
    ensures var h := Strip(Strip(head)[4..]);
      Run(st, [head] + B + [next]).data
      == if B == [] then Flushed(st) else StoreEntry(Flushed(st), st.category, h, Body(RStripAll(B)))
  {
    var h := Strip(Strip(head)[4..]);
    var st2 := ParseState(Flushed(st), st.category, Some(h), RStripAll(B));
    SubheadingFill(st, head, B);
    RunSnocLine(st, [head] + B, next);
    SubheadingClose(st2, next);
  }

  /** The subheading line opens a (non-empty) subheading and the text lines fill its buffer. */
  lemma SubheadingFill(st: ParseState, head: string, B: seq<string>)
    requires BufferOwned(st)
    requires StartsWith(Strip(head), "### ") && AllText(B)
    ensures var h := Strip(Strip(head)[4..]);
      Truthy(Some(h)) && Run(st, [head] + B) == ParseState(Flushed(st), st.category, Some(h), RStripAll(B))
  {
    var h := Strip(Strip(head)[4..]);
    var st1 := ParseState(Flushed(st), st.category, Some(h), []);
    assert Run(st, [head]) == st1 by {
      RunOne(st, head);
      StepSubheading(st, head);
    }
    assert Truthy(Some(h)) by {
      HeadingNameNonEmpty(head, 4);
    }
    RunAppend(st, [head], B);
    RunText(st1, B);
    assert [] + RStripAll(B) == RStripAll(B);
  }

  /** A heading line closes the open subheading, storing its body when there is one. */
  lemma SubheadingClose(st: ParseState, next: string)
    requires StartsWith(Strip(next), "## ") || StartsWith(Strip(next), "### ")
    ensures Step(st, next).data == Flushed(st)
  {
    if StartsWith(Strip(next), "## ") {
      StepCategory(st, next);
    } else {
      StepSubheading(st, next);
    }
  }

  // ---------------------------------------------------------------- invariants of the result

  /** Every section has a link or an entry. */
  predicate NoEmptySection(d: Doc) {
    forall k :: k in Keys(d) ==> Sec(d, k).links != [] || Sec(d, k).entries != []
  }

  /** What every parse result satisfies. */
  predicate WellFormed(d: Doc) {
    Distinct(d) && NoEmptySection(d)
  }

  lemma FlushedInvariants(st: ParseState)
    requires WellFormed(st.data)
    ensures WellFormed(Flushed(st))
  {
    if Pending(st) {
      var d, k, h, b := st.data, st.category, st.subheading.value, Body(st.buffer);
      var r := StoreEntry(d, k, h, b);
      StoreEntrySection(d, k, h, b);
      StoreEntrySpec(d, k, h, b);
      StoreEntryDistinct(d, k, h, b);
      forall k' | k' in Keys(r) ensures Sec(r, k').links != [] || Sec(r, k').entries != [] {
        if k' != k {
          assert Find(r, k') == Find(d, k');
        } else {
          assert Entry(r, k, h).Some?;
        }
      }
    }
  }

  lemma AppendLinkInvariants(d: Doc, k: Option<string>, l: Link)
    requires WellFormed(d)
    ensures WellFormed(AppendLink(d, k, l))
  {
    var r := AppendLink(d, k, l);
    AppendLinkSpec(d, k, l);
    AppendLinkDistinct(d, k, l);
    forall k' | k' in Keys(r) ensures Sec(r, k').links != [] || Sec(r, k').entries != [] {
      if k' != k {
        assert Find(r, k') == Find(d, k');
      }
    }
  }

  lemma StepInvariants(st: ParseState, line: string)
    requires WellFormed(st.data)
    ensures WellFormed(Step(st, line).data)
  {
    var s := Strip(line);
    Kinds(s);
    if StartsWith(s, "## ") {
      StepCategory(st, line);
      FlushedInvariants(st);
    } else if StartsWith(s, "### ") {
      StepSubheading(st, line);
      FlushedInvariants(st);
    } else if IsLinkLine(s) {
      StepLink(st, line);
      AppendLinkInvariants(st.data, st.category, LinkMatch(s).value);
    } else {
      StepText(st, line);
    }
  }

  lemma {:induction false} RunInvariants(lines: seq<string>)
    ensures WellFormed(Run(Init, lines).data)
    decreases |lines|
  {
    if lines != [] {
      var pre := lines[..|lines| - 1];
      RunInvariants(pre);
      StepInvariants(Run(Init, pre), lines[|lines| - 1]);
    }
  }

  /**
   * A category exists in the result only if a link or a subheading body was
   * stored under it, so a "## X" with nothing under it vanishes; category
   * names and subheadings within a category are distinct.
   */
  lemma ParseInvariants(lines: seq<string>)
    ensures WellFormed(Parse(lines))
  {
    RunInvariants(lines);
    FlushedInvariants(Run(Init, lines));
  }

  // ---------------------------------------------------------------- no category at all

  /** No "## " line in `lines`. */
  predicate NoCategoryLine(lines: seq<string>) {
    forall i :: 0 <= i < |lines| ==> !StartsWith(Strip(lines[i]), "## ")
  }

  /** Everything kept is filed under None. */
  predicate AllUnderNone(d: Doc) {
    forall k :: k in Keys(d) ==> k == None
  }

  lemma StepNoCategory(st: ParseState, line: string)
    requires !StartsWith(Strip(line), "## ")
    requires st.category == None && AllUnderNone(st.data)
    ensures Step(st, line).category == None && AllUnderNone(Step(st, line).data)
  {
    var s := Strip(line);
    Kinds(s);
    if StartsWith(s, "### ") {
      StepSubheading(st, line);
      if Pending(st) {
        StoreEntrySection(st.data, None, st.subheading.value, Body(st.buffer));
      }
      KeysUnderNone(st.data, Step(st, line).data);
    } else if IsLinkLine(s) {
      StepLink(st, line);
      AppendLinkSpec(st.data, None, LinkMatch(s).value);
      KeysUnderNone(st.data, Step(st, line).data);
    } else {
      StepText(st, line);
    }
  }

  /** Adding at most the key None keeps everything filed under None. */
  lemma KeysUnderNone(d: Doc, r: Doc)
    requires AllUnderNone(d)
    requires Keys(r) == Keys(d) || Keys(r) == Keys(d) + [None]
    ensures AllUnderNone(r)
  {
  }

  lemma {:induction false} NoCategoryRun(lines: seq<string>)
    requires NoCategoryLine(lines)
    ensures Run(Init, lines).category == None && AllUnderNone(Run(Init, lines).data)
    decreases |lines|
  {
    if lines != [] {
      var pre := lines[..|lines| - 1];
      assert NoCategoryLine(pre) by {
        forall i | 0 <= i < |pre| ensures !StartsWith(Strip(pre[i]), "## ") {
          assert pre[i] == lines[i];
        }
      }
      NoCategoryRun(pre);
      StepNoCategory(Run(Init, pre), lines[|lines| - 1]);
    }
  }

  /**
   * Without any "## " line the end-of-input flush never happens: the last
   * subheading's body is lost, and everything kept is filed under None.
   */
  lemma NoCategoryNoFinalFlush(lines: seq<string>)
    requires NoCategoryLine(lines)
    ensures Parse(lines) == Run(Init, lines).data
    ensures AllUnderNone(Parse(lines))
  {
    NoCategoryRun(lines);
  }
}
