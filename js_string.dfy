/** The few JavaScript string operations the widget relies on, as ECMA-262
    defines them: `trim`, `startsWith`, and `split` on a one-character
    separator. Characters stand for Unicode code points, where JavaScript
    counts UTF-16 code units. The results are the same, because every
    character these operations look for lies in the Basic Multilingual Plane
    and none is a surrogate. */
module JsString {

  /** LineTerminator: LF, CR, LINE SEPARATOR, PARAGRAPH SEPARATOR. These are
      also the characters the regular-expression `.` does not match. */
  predicate IsLineTerminator(c: char) {
    c == '\n' || c == '\r' || c == '\U{2028}' || c == '\U{2029}'
  }

  /** WhiteSpace or LineTerminator: what `trim` removes. */
  predicate IsJsWhitespace(c: char) {
    || IsLineTerminator(c)
    || c == '\t' || c == '\U{000B}' || c == '\U{000C}' || c == ' '
    || c == '\U{00A0}' || c == '\U{1680}' || ('\U{2000}' <= c <= '\U{200A}')
    || c == '\U{202F}' || c == '\U{205F}' || c == '\U{3000}' || c == '\U{FEFF}'
  }

  /** Drops the longest whitespace prefix. */
  function TrimStart(s: string): (r: string)
    ensures |r| <= |s| && r == s[|s| - |r|..]
    ensures forall k | 0 <= k < |s| - |r| :: IsJsWhitespace(s[k])
    ensures r != [] ==> !IsJsWhitespace(r[0])
    decreases |s|
  {
    if s != [] && IsJsWhitespace(s[0]) then TrimStart(s[1..]) else s
  }

  /** `TrimStart` stops at the first non-whitespace character. */
  lemma {:induction false} TrimStartStopsAt(s: string, a: nat)
    requires a <= |s| && (a == |s| || !IsJsWhitespace(s[a]))
    requires forall k | 0 <= k < a :: IsJsWhitespace(s[k])
    ensures TrimStart(s) == s[a..]
    decreases a
  {
    if a > 0 {
      assert forall k | 0 <= k < a - 1 :: s[1..][k] == s[k + 1];
      TrimStartStopsAt(s[1..], a - 1);
      assert s[1..][a - 1..] == s[a..];
    }
  }

  /** Drops the longest whitespace suffix. */
  function TrimEnd(s: string): (r: string)
    ensures |r| <= |s| && r == s[..|r|]
    ensures forall k | |r| <= k < |s| :: IsJsWhitespace(s[k])
    ensures r != [] ==> !IsJsWhitespace(r[|r| - 1])
    decreases |s|
  {
    if s != [] && IsJsWhitespace(s[|s| - 1]) then TrimEnd(s[..|s| - 1]) else s
  }

  /** `s.trim()`: the slice of `s` between its leading and its trailing
      whitespace. */
  function Trim(s: string): (r: string)
    ensures TrimmedSlice(s, |s| - |TrimStart(s)|, r)
  {
    SuffixThenPrefix(s, TrimStart(s), TrimEnd(TrimStart(s)));
    TrimEnd(TrimStart(s))
  }

  /** `s.startsWith(prefix)`. */
  predicate StartsWith(s: string, prefix: string) {
    |prefix| <= |s| && s[..|prefix|] == prefix
  }

  /** `!s.trim()`: the trimmed string is empty, hence falsy. */
  predicate IsBlank(s: string) {
    Trim(s) == []
  }

  /** `u` is `s` with the whitespace before index `a` and after `u` dropped,
      and neither end of `u` is whitespace. */
  ghost predicate TrimmedSlice(s: string, a: nat, u: string) {
    && a + |u| <= |s| && u == s[a..a + |u|]
    && (forall j | 0 <= j < a :: IsJsWhitespace(s[j]))
    && (forall j | a + |u| <= j < |s| :: IsJsWhitespace(s[j]))
    && (u != [] ==> !IsJsWhitespace(s[a]) && !IsJsWhitespace(s[a + |u| - 1]))
  }

  lemma SuffixThenPrefix(s: string, t: string, u: string)
    requires |t| <= |s| && t == s[|s| - |t|..]
    requires forall k | 0 <= k < |s| - |t| :: IsJsWhitespace(s[k])
    requires t != [] ==> !IsJsWhitespace(t[0])
    requires |u| <= |t| && u == t[..|u|]
    requires forall k | |u| <= k < |t| :: IsJsWhitespace(t[k])
    requires u != [] ==> !IsJsWhitespace(u[|u| - 1])
    ensures TrimmedSlice(s, |s| - |t|, u)
  {
    var a := |s| - |t|;
    forall j | a + |u| <= j < |s| ensures IsJsWhitespace(s[j]) {
      assert s[j] == t[j - a];
    }
    if u != [] {
      assert s[a] == t[0] && s[a + |u| - 1] == u[|u| - 1];
    }
  }

  lemma BlankIffAllWhitespace(s: string)
    ensures IsBlank(s) <==> forall k | 0 <= k < |s| :: IsJsWhitespace(s[k])
  {
    var t := TrimStart(s);
    if t != [] {
      assert !IsJsWhitespace(s[|s| - |t|]);
      assert !IsJsWhitespace(t[0]);
    }
  }

  /** The number of occurrences of `c` in `s`. */
  function Count(s: string, c: char): nat
    decreases |s|
  {
    if s == [] then 0 else (if s[0] == c then 1 else 0) + Count(s[1..], c)
  }

  /** `s.split(sep)` for a one-character separator: the maximal separator-free
      pieces, in order; the empty string gives one empty piece. */
  function Split(s: string, sep: char): (r: seq<string>)
    ensures |r| == Count(s, sep) + 1
    ensures forall i | 0 <= i < |r| :: sep !in r[i]
    decreases |s|
  {
    if s == [] then [""]
    else if s[0] == sep then [""] + Split(s[1..], sep)
    else
      var rest := Split(s[1..], sep);
      [[s[0]] + rest[0]] + rest[1..]
  }

  /** `parts.join(sep)`. */
  function Join(parts: seq<string>, sep: char): string
    requires |parts| >= 1
    decreases |parts|
  {
    if |parts| == 1 then parts[0] else parts[0] + [sep] + Join(parts[1..], sep)
  }

  /** Joining the pieces back with the separator gives the original string. */
  lemma {:induction false} JoinSplit(s: string, sep: char)
    ensures Join(Split(s, sep), sep) == s
    decreases |s|
  {
    if s == [] {
    } else if s[0] == sep {
      JoinSplit(s[1..], sep);
      assert s == [sep] + s[1..];
    } else {
      JoinSplit(s[1..], sep);
      var rest := Split(s[1..], sep);
      if |rest| == 1 {
        assert s == [s[0]] + rest[0];
      } else {
        assert Join(rest, sep) == rest[0] + [sep] + Join(rest[1..], sep);
        assert s == [s[0]] + s[1..];
      }
    }
  }

  lemma {:induction false} SplitNoSeparator(x: string, sep: char)
    requires sep !in x
    ensures Split(x, sep) == [x]
    decreases |x|
  {
    if x != [] {
      assert sep !in x[1..] by { assert forall k | 0 <= k < |x[1..]| :: x[1..][k] == x[k + 1]; }
      SplitNoSeparator(x[1..], sep);
      assert x == [x[0]] + x[1..];
    }
  }

  lemma {:induction false} SplitAtFirstSeparator(x: string, y: string, sep: char)
    requires sep !in x
    ensures Split(x + [sep] + y, sep) == [x] + Split(y, sep)
    decreases |x|
  {
    var s := x + [sep] + y;
    if x == [] {
      assert s[1..] == y;
    } else {
      assert sep !in x[1..] by { assert forall k | 0 <= k < |x[1..]| :: x[1..][k] == x[k + 1]; }
      SplitAtFirstSeparator(x[1..], y, sep);
      assert s[1..] == x[1..] + [sep] + y;
      assert x == [x[0]] + x[1..];
    }
  }

  /** Splitting a join of separator-free pieces gives the pieces back. */
  lemma {:induction false} SplitJoin(parts: seq<string>, sep: char)
    requires |parts| >= 1
    requires forall i | 0 <= i < |parts| :: sep !in parts[i]
    ensures Split(Join(parts, sep), sep) == parts
    decreases |parts|
  {
    if |parts| == 1 {
      SplitNoSeparator(parts[0], sep);
    } else {
      SplitJoin(parts[1..], sep);
      SplitAtFirstSeparator(parts[0], Join(parts[1..], sep), sep);
    }
  }
}
