/**
 * The string operations both scripts rely on, with Python's meaning:
 * str.strip / rstrip / lstrip, str.startswith, "\n".join, str.split("\n"),
 * and the line splitting done by reading a file opened in text mode.
 */
module Text {
  import opened Wrappers

  /** Python truthiness of a variable holding None or a string. */
  predicate Truthy(o: Option<string>) {
    o.Some? && o.value != ""
  }

  /** The ASCII characters for which Python's str.isspace() holds; strip() removes exactly these. */
  predicate IsSpace(c: char) {
    c == ' ' || c == '\t' || c == '\n' || c == '\r' || c == '\U{b}' || c == '\U{c}'
    || ('\U{1c}' <= c <= '\U{1f}')
  }

  /** Where s[..i] ends once its trailing whitespace is dropped. */
  function TrimEnd(s: string, i: nat): (j: nat)
    requires i <= |s|
    ensures j <= i
    ensures j == 0 || !IsSpace(s[j - 1])
    decreases i
  {
    if i > 0 && IsSpace(s[i - 1]) then TrimEnd(s, i - 1) else i
  }

  /** Where s[i..] starts once its leading whitespace is dropped. */
  function TrimStart(s: string, i: nat): (j: nat)
    requires i <= |s|
    ensures i <= j <= |s|
    ensures j == |s| || !IsSpace(s[j])
    decreases |s| - i
  {
    if i < |s| && IsSpace(s[i]) then TrimStart(s, i + 1) else i
  }

  /** Python's s.rstrip(): drop trailing whitespace. */
  function RStrip(s: string): (r: string)
    ensures |r| <= |s|
    ensures r == [] || !IsSpace(r[|r| - 1])
  {
    s[..TrimEnd(s, |s|)]
  }

  /** Python's s.lstrip(): drop leading whitespace. */
  function LStrip(s: string): (r: string)
    ensures |r| <= |s|
    ensures r == [] || !IsSpace(r[0])
  {
    s[TrimStart(s, 0)..]
  }

  /** Python's s.strip(). */
  function Strip(s: string): string {
    LStrip(RStrip(s))
  }

  predicate StartsWith(s: string, prefix: string) {
    |prefix| <= |s| && s[..|prefix|] == prefix
  }

  /** The first index at or after `from` holding `c`, or |s| when there is none. */
  function IndexOf(s: string, c: char, from: nat): (i: nat)
    requires from <= |s|
    ensures from <= i <= |s|
    ensures i < |s| ==> s[i] == c
    decreases |s| - from
  {
    if from == |s| || s[from] == c then from else IndexOf(s, c, from + 1)
  }

  /** No occurrence of c lies between `from` and the index found. */
  lemma {:induction false} IndexOfNone(s: string, c: char, from: nat)
    requires from <= |s|
    ensures forall k :: from <= k < IndexOf(s, c, from) ==> s[k] != c
    decreases |s| - from
  {
    if from < |s| && s[from] != c {
      IndexOfNone(s, c, from + 1);
    }
  }

  /** The first occurrence of c at or after `from` is the index found. */
  lemma {:induction false} IndexOfFirst(s: string, c: char, from: nat, i: nat)
    requires from <= i < |s| && s[i] == c
    requires forall k :: from <= k < i ==> s[k] != c
    ensures IndexOf(s, c, from) == i
    decreases i - from
  {
    if from < i {
      IndexOfFirst(s, c, from + 1, i);
    }
  }

  /** The first index at or after i whose element satisfies p, or |s| when there is none. */
  function FirstWhere<T>(s: seq<T>, p: T -> bool, i: nat): (n: nat)
    requires i <= |s|
    ensures i <= n <= |s|
    decreases |s| - i
  {
    if i == |s| || p(s[i]) then i else FirstWhere(s, p, i + 1)
  }

  /** An index n from i on whose element is the first to satisfy p (or |s|, when none does) is what FirstWhere finds. */
  lemma {:induction false} FirstWhereIs<T>(s: seq<T>, p: T -> bool, i: nat, n: nat)
    requires i <= n <= |s|
    requires n < |s| ==> p(s[n])
    requires forall j :: i <= j < n ==> !p(s[j])
    ensures FirstWhere(s, p, i) == n
    decreases n - i
  {
    if i < n {
      FirstWhereIs(s, p, i + 1, n);
    }
  }

  /** The part of s before its first "\n": what a regular expression's `.` can range over. */
  function UpToNewline(s: string): (r: string)
    ensures |r| <= |s|
  {
    s[..IndexOf(s, '\n', 0)]
  }

  /** The part before the first newline holds none, and is all of s when s holds none. */
  lemma UpToNewlineSpec(s: string)
    ensures '\n' !in UpToNewline(s)
    ensures UpToNewline(s) == s[..|UpToNewline(s)|]
    ensures |UpToNewline(s)| < |s| ==> s[|UpToNewline(s)|] == '\n'
    ensures '\n' !in s ==> UpToNewline(s) == s
  {
    IndexOfNone(s, '\n', 0);
  }

  /** Python's "\n".join(parts). */
  function JoinNl(parts: seq<string>): string {
    if parts == [] then ""
    else if |parts| == 1 then parts[0]
    else parts[0] + "\n" + JoinNl(parts[1..])
  }

  /** Python's s.split("\n"): the pieces between newlines, at least one. */
  function SplitNl(s: string): (r: seq<string>)
    ensures |r| >= 1
    ensures forall i :: 0 <= i < |r| ==> '\n' !in r[i]
    ensures JoinNl(r) == s
    decreases |s|
  {
    var i := IndexOf(s, '\n', 0);
    IndexOfNone(s, '\n', 0);
    if i == |s| then [s]
    else
      var rest := SplitNl(s[i + 1..]);
      assert s == s[..i] + "\n" + s[i + 1..];
      assert ([s[..i]] + rest)[1..] == rest;
      [s[..i]] + rest
  }

  /** Each piece followed by its "\n". */
  function AddNl(parts: seq<string>): (r: seq<string>)
    ensures |r| == |parts|
  {
    seq(|parts|, i requires 0 <= i < |parts| => parts[i] + "\n")
  }

  /**
   * The newline translation of a file opened in text mode with the default
   * newline=None: "\r\n" and a lone "\r" both read as "\n".
   */
  function Normalize(s: string): (r: string)
    ensures '\r' !in r
    ensures '\r' !in s ==> r == s
    decreases |s|
  {
    if s == [] then []
    else if s[0] == '\r' then "\n" + Normalize(if |s| > 1 && s[1] == '\n' then s[2..] else s[1..])
    else
      assert s == [s[0]] + s[1..];
      [s[0]] + Normalize(s[1..])
  }

  /** The lines of s, each keeping its "\n"; only the last may lack one. */
  function SplitLines(s: string): (r: seq<string>)
    ensures forall i :: 0 <= i < |r| ==> r[i] != []
    decreases |s|
  {
    if s == [] then []
    else
      var i := IndexOf(s, '\n', 0);
      if i == |s| then [s] else [s[..i + 1]] + SplitLines(s[i + 1..])
  }

  /** Python's f.readlines() on a file whose text is `text`. */
  function ReadLines(text: string): seq<string> {
    SplitLines(Normalize(text))
  }

  /** All lines concatenated. */
  function Concat(lines: seq<string>): string {
    if lines == [] then "" else lines[0] + Concat(lines[1..])
  }

  /** A text that is empty or ends with a newline: it can be followed by another line. */
  predicate Terminated(s: string) {
    s == [] || s[|s| - 1] == '\n'
  }

  // ---------------------------------------------------------------- lemmas

  lemma SplitLast<T>(s: seq<T>)
    requires s != []
    ensures s[..|s| - 1] + [s[|s| - 1]] == s
  {
  }

  lemma AppendAssoc<T>(a: seq<T>, b: seq<T>, c: seq<T>)
    ensures (a + b) + c == a + (b + c)
  {
  }

  /** Reading lines loses nothing: the lines concatenate back to the text. */
  lemma {:induction false} SplitLinesConcat(s: string)
    ensures Concat(SplitLines(s)) == s
    decreases |s|
  {
    if s != [] {
      var i := IndexOf(s, '\n', 0);
      if i < |s| {
        var tail := s[i + 1..];
        SplitLinesConcat(tail);
        var r := SplitLines(s);
        assert r[0] == s[..i + 1] && r[1..] == SplitLines(tail);
        assert s == s[..i + 1] + tail;
      }
    }
  }

  /** Reading lines cuts only after newlines: every line but the last ends with one, and none holds another. */
  lemma {:induction false} SplitLinesBreaks(s: string)
    ensures forall i :: 0 <= i < |SplitLines(s)| ==>
      var l := SplitLines(s)[i]; '\n' !in l[..|l| - 1]
    ensures forall i :: 0 <= i < |SplitLines(s)| - 1 ==>
      var l := SplitLines(s)[i]; l[|l| - 1] == '\n'
    decreases |s|
  {
    if s != [] {
      var i := IndexOf(s, '\n', 0);
      IndexOfNone(s, '\n', 0);
      if i < |s| {
        var tail := s[i + 1..];
        SplitLinesBreaks(tail);
        var r := SplitLines(s);
        assert r[0] == s[..i + 1] && r[1..] == SplitLines(tail);
        assert r[0][..|r[0]| - 1] == s[..i];
        forall j | 1 <= j < |r| ensures r[j] == SplitLines(tail)[j - 1] {
        }
      } else {
        assert SplitLines(s) == [s];
      }
    }
  }

  /** Splitting a text at a line boundary splits its lines there too. */
  lemma {:induction false} SplitLinesAppend(a: string, b: string)
    requires Terminated(a)
    ensures SplitLines(a + b) == SplitLines(a) + SplitLines(b)
    decreases |a|
  {
    if a != [] {
      var i := IndexOf(a, '\n', 0);
      assert i < |a| by {
        IndexOfNone(a, '\n', 0);
      }
      assert IndexOf(a + b, '\n', 0) == i by {
        IndexOfPrefix(a, b, '\n', 0);
      }
      assert (a + b)[..i + 1] == a[..i + 1];
      assert (a + b)[i + 1..] == a[i + 1..] + b;
      assert Terminated(a[i + 1..]);
      SplitLinesAppend(a[i + 1..], b);
      calc {
        SplitLines(a + b);
        [a[..i + 1]] + SplitLines(a[i + 1..] + b);
        [a[..i + 1]] + SplitLines(a[i + 1..]) + SplitLines(b);
        SplitLines(a) + SplitLines(b);
      }
    } else {
      assert a + b == b;
    }
  }

  lemma {:induction false} IndexOfPrefix(a: string, b: string, c: char, from: nat)
    requires from <= |a|
    requires IndexOf(a, c, from) < |a|
    ensures IndexOf(a + b, c, from) == IndexOf(a, c, from)
    decreases |a| - from
  {
    if a[from] != c {
      IndexOfPrefix(a, b, c, from + 1);
    }
  }

  /** One newline-free line followed by "\n" reads as exactly that line. */
  lemma SplitLinesOne(l: string)
    requires '\n' !in l
    ensures SplitLines(l + "\n") == [l + "\n"]
  {
    var s := l + "\n";
    forall k | 0 <= k < |l| ensures s[k] != '\n' {
      assert s[k] == l[k];
    }
    IndexOfFirst(s, '\n', 0, |l|);
    var i := IndexOf(s, '\n', 0);
    assert s[..i + 1] == s;
    assert s[i + 1..] == [];
  }

  /** A text followed by "\n" reads as its "\n"-separated pieces, each with its newline. */
  lemma {:induction false} SplitLinesPieces(s: string)
    ensures SplitLines(s + "\n") == AddNl(SplitNl(s))
    decreases |s|
  {
    var i := IndexOf(s, '\n', 0);
    IndexOfNone(s, '\n', 0);
    if i == |s| {
      SplitLinesOne(s);
    } else {
      var head, tail := s[..i], s[i + 1..];
      SplitLinesPiecesStep(s, head, tail);
      SplitLinesPieces(tail);
      AddNlCons(head, SplitNl(tail));
    }
  }

  lemma SplitLinesPiecesStep(s: string, head: string, tail: string)
    requires IndexOf(s, '\n', 0) < |s|
    requires head == s[..IndexOf(s, '\n', 0)] && tail == s[IndexOf(s, '\n', 0) + 1..]
    ensures SplitLines(s + "\n") == [head + "\n"] + SplitLines(tail + "\n")
    ensures SplitNl(s) == [head] + SplitNl(tail)
  {
    var i := IndexOf(s, '\n', 0);
    IndexOfNone(s, '\n', 0);
    assert '\n' !in head;
    assert s == head + "\n" + tail;
    assert s + "\n" == (head + "\n") + (tail + "\n");
    SplitLinesAppend(head + "\n", tail + "\n");
    SplitLinesOne(head);
  }

  lemma AddNlCons(head: string, rest: seq<string>)
    ensures AddNl([head] + rest) == [head + "\n"] + AddNl(rest)
  {
  }

  lemma {:induction false} JoinNlBlank(parts: seq<string>)
    requires parts != []
    ensures JoinNl(parts + [""]) == JoinNl(parts) + "\n"
    decreases |parts|
  {
    if |parts| > 1 {
      assert (parts + [""])[1..] == parts[1..] + [""];
      JoinNlBlank(parts[1..]);
    }
  }

  lemma RStripSpace(s: string, c: char)
    requires IsSpace(c)
    ensures RStrip(s + [c]) == RStrip(s)
  {
    var t := s + [c];
    TrimEndPrefix(s, t, |s|);
    assert TrimEnd(t, |t|) == TrimEnd(t, |s|);
    assert t[..TrimEnd(s, |s|)] == s[..TrimEnd(s, |s|)];
  }

  /** Trimming the end of s[..i] looks only at s[..i]. */
  lemma {:induction false} TrimEndPrefix(s: string, t: string, i: nat)
    requires i <= |s| <= |t| && s == t[..|s|]
    ensures TrimEnd(t, i) == TrimEnd(s, i)
    decreases i
  {
    if i > 0 {
      assert t[i - 1] == s[i - 1];
      TrimEndPrefix(s, t, i - 1);
    }
  }

  /** A trailing newline never changes a stripped line. */
  lemma StripNewline(s: string)
    ensures Strip(s + "\n") == Strip(s)
    ensures RStrip(s + "\n") == RStrip(s)
  {
    RStripSpace(s, '\n');
  }

  /** A line that starts and ends with non-whitespace, read with its newline, strips to itself. */
  lemma StripLine(line: string)
    requires line != [] && !IsSpace(line[0]) && !IsSpace(line[|line| - 1])
    ensures Strip(line + "\n") == line
  {
    StripNewline(line);
    StripTight(line);
  }

  /** A stripped string is empty or starts and ends with non-whitespace. */
  lemma StripEnds(s: string)
    ensures var t := Strip(s); t == [] || (!IsSpace(t[0]) && !IsSpace(t[|t| - 1]))
  {
    var r := RStrip(s);
    var t := LStrip(r);
    if t != [] {
      assert t == r[|r| - |t|..];
      assert t[|t| - 1] == r[|r| - 1];
    }
  }

  /** A non-empty string that is its own strip starts and ends with non-whitespace. */
  lemma StrippedEnds(s: string)
    requires s != [] && Strip(s) == s
    ensures !IsSpace(s[0]) && !IsSpace(s[|s| - 1])
  {
    StripEnds(s);
  }

  /** A string that starts and ends with non-whitespace is its own strip. */
  lemma StripTight(s: string)
    requires s != [] && !IsSpace(s[0]) && !IsSpace(s[|s| - 1])
    ensures Strip(s) == s
  {
  }

  /** rstrip drops only whitespace. */
  lemma RStripDropped(s: string)
    ensures forall i :: |RStrip(s)| <= i < |s| ==> IsSpace(s[i])
  {
    TrimEndDropped(s, |s|);
  }

  lemma {:induction false} TrimEndDropped(s: string, i: nat)
    requires i <= |s|
    ensures forall k :: TrimEnd(s, i) <= k < i ==> IsSpace(s[k])
    decreases i
  {
    if i > 0 && IsSpace(s[i - 1]) {
      TrimEndDropped(s, i - 1);
    }
  }

  /** lstrip drops only whitespace. */
  lemma LStripDropped(s: string)
    ensures forall i :: 0 <= i < |s| - |LStrip(s)| ==> IsSpace(s[i])
  {
    TrimStartDropped(s, 0);
  }

  lemma {:induction false} TrimStartDropped(s: string, i: nat)
    requires i <= |s|
    ensures forall k :: i <= k < TrimStart(s, i) ==> IsSpace(s[k])
    decreases |s| - i
  {
    if i < |s| && IsSpace(s[i]) {
      TrimStartDropped(s, i + 1);
    }
  }

  /** Stripping a string that holds a non-whitespace character leaves it non-empty. */
  lemma StripNonEmpty(s: string, k: nat)
    requires k < |s| && !IsSpace(s[k])
    ensures Strip(s) != []
  {
    var r := RStrip(s);
    RStripDropped(s);
    LStripDropped(r);
    assert k < |r|;
    var l := LStrip(r);
    assert |r| - |l| <= k;
  }

  /** rstrip keeps a prefix of s. */
  lemma RStripPrefix(s: string)
    ensures RStrip(s) == s[..|RStrip(s)|]
  {
  }

  /** lstrip keeps a suffix of s. */
  lemma LStripSuffix(s: string)
    ensures LStrip(s) == s[|s| - |LStrip(s)|..]
  {
  }

  /** Whitespace from i up to a non-whitespace character at n (or the end): lstrip starts at n. */
  lemma {:induction false} TrimStartAt(s: string, i: nat, n: nat)
    requires i <= n <= |s|
    requires forall k :: i <= k < n ==> IsSpace(s[k])
    requires n == |s| || !IsSpace(s[n])
    ensures TrimStart(s, i) == n
    decreases n - i
  {
    if i < n {
      TrimStartAt(s, i + 1, n);
    }
  }

  /** Whitespace back from i down to a non-whitespace character before n (or the start): rstrip ends at n. */
  lemma {:induction false} TrimEndAt(s: string, i: nat, n: nat)
    requires n <= i <= |s|
    requires forall k :: n <= k < i ==> IsSpace(s[k])
    requires n == 0 || !IsSpace(s[n - 1])
    ensures TrimEnd(s, i) == n
    decreases i - n
  {
    if n < i {
      TrimEndAt(s, i - 1, n);
    }
  }

  /** Whitespace on either side of a name that starts and ends with non-whitespace is what strip removes. */
  lemma StripPadded(pre: string, name: string, post: string)
    requires forall k :: 0 <= k < |pre| ==> IsSpace(pre[k])
    requires forall k :: 0 <= k < |post| ==> IsSpace(post[k])
    requires name == [] || (!IsSpace(name[0]) && !IsSpace(name[|name| - 1]))
    ensures Strip(pre + name + post) == name
  {
    var s := pre + name + post;
    if name == [] {
      TrimEndAt(s, |s|, 0);
      assert RStrip(s) == [];
    } else {
      var m := pre + name;
      TrimEndAt(s, |s|, |m|);
      assert RStrip(s) == m;
      TrimStartAt(m, 0, |pre|);
      assert LStrip(m) == name;
    }
  }

  /** Text-mode reading turns "\r\n" into "\n". */
  lemma NormalizeCRLF(s: string)
    ensures Normalize("\r\n" + s) == "\n" + Normalize(s)
  {
    assert ("\r\n" + s)[2..] == s;
  }

  /** Text-mode reading turns a "\r" not followed by "\n" into "\n". */
  lemma NormalizeCR(s: string)
    requires s == [] || s[0] != '\n'
    ensures Normalize("\r" + s) == "\n" + Normalize(s)
  {
    assert ("\r" + s)[1..] == s;
  }

  /** Text-mode reading keeps every other character. */
  lemma NormalizeOther(c: char, s: string)
    requires c != '\r'
    ensures Normalize([c] + s) == [c] + Normalize(s)
  {
    assert ([c] + s)[1..] == s;
  }
}
