/** The `MarkdownLite` renderer of ChatMessages.tsx: the text is cut into lines
    on '\n'; each line becomes one row whose content is cut into plain and bold
    parts by the global regular expression `\*\*(.*?)\*\*`, which is marked as a
    bullet when its trimmed form starts with "* " or "- ", and which is
    followed by a line break unless it is a bullet or the last line. */
module MarkdownLite {
  import opened Types
  import opened JsString

  /** One piece of a rendered line: plain text, or the inside of a `**…**` pair. */
  datatype Part = Part(bold: bool, text: string)

  /** One rendered line. */
  datatype Row = Row(isBullet: bool, parts: seq<Part>, trailingBreak: bool)

  // ---------------------------------------------------------------------------
  // The bold regular expression

  /** `line[k..k + 2] == "**"`. */
  predicate StarPairAt(line: string, k: int) {
    0 <= k && k + 1 < |line| && line[k] == '*' && line[k + 1] == '*'
  }

  /** `c` is where the lazy tail `(.*?)\*\*`, started at `from`, stops: the
      first star pair at or after `from`, with no line terminator (which `.`
      refuses) before it. */
  ghost predicate IsLazyClose(line: string, from: nat, c: nat) {
    && from <= c
    && StarPairAt(line, c)
    && forall k | from <= k < c :: !IsLineTerminator(line[k]) && !StarPairAt(line, k)
  }

  /** The lazy tail started at `from` cannot close. */
  ghost predicate NeverCloses(line: string, from: nat) {
    forall c :: !IsLazyClose(line, from, c)
  }

  /** The backtracking search of `(.*?)\*\*` from `from`: try to close, else
      let `.` take one more character. */
  function FindClose(line: string, from: nat): (r: Option<nat>)
    requires from <= |line|
    ensures r.Some? ==> from <= r.value && StarPairAt(line, r.value)
    decreases |line| - from
  {
    if StarPairAt(line, from) then Some(from)
    else if from < |line| && !IsLineTerminator(line[from]) then FindClose(line, from + 1)
    else None
  }

  /** The search finds the lazy close exactly: the first `**` before any line
      terminator, and nothing when there is none. */
  lemma {:induction false} FindCloseIsLazy(line: string, from: nat)
    requires from <= |line|
    ensures FindClose(line, from).Some? ==> IsLazyClose(line, from, FindClose(line, from).value)
    ensures FindClose(line, from).None? ==> NeverCloses(line, from)
    decreases |line| - from
  {
    if !StarPairAt(line, from) && from < |line| && !IsLineTerminator(line[from]) {
      FindCloseIsLazy(line, from + 1);
      assert forall c :: IsLazyClose(line, from, c) ==> IsLazyClose(line, from + 1, c);
    }
  }

  /** One attempt of the regular expression anchored at `q` (the sticky
      attempt `split` makes): `Some(c)` when it matches `line[q..c + 2]` and
      captures `line[q + 2..c]`. */
  function MatchAt(line: string, q: nat): (r: Option<nat>)
    ensures r.Some? ==> StarPairAt(line, q) && q + 2 <= r.value && StarPairAt(line, r.value)
  {
    if StarPairAt(line, q) then FindClose(line, q + 2) else None
  }

  /** A match at `q` is a `**` at `q` followed by the lazy close; there is
      none when `q` holds no `**` or the close never comes. */
  lemma MatchAtIsLazy(line: string, q: nat)
    ensures MatchAt(line, q).Some? ==> StarPairAt(line, q) && IsLazyClose(line, q + 2, MatchAt(line, q).value)
    ensures MatchAt(line, q).None? ==> !StarPairAt(line, q) || NeverCloses(line, q + 2)
  {
    if StarPairAt(line, q) {
      FindCloseIsLazy(line, q + 2);
    }
  }

  /** No match of the regular expression starts at a position in `[from, to)`. */
  ghost predicate NoMatchIn(line: string, from: nat, to: nat) {
    forall x | from <= x < to :: MatchAt(line, x).None?
  }

  /** The two parts a match at `q` contributes when the last match ended at `p`. */
  function MatchParts(line: string, p: nat, q: nat, c: nat): seq<Part>
    requires p <= q && q + 2 <= c <= |line|
  {
    [Part(false, line[p..q]), Part(true, line[q + 2..c])]
  }

  /** `line.split(boldRegex)`, following the `@@split` algorithm of ECMA-262:
      `p` is the end of the last match, `q` the position being tried. Each
      match contributes the text before it and its one capture. */
  function SplitFrom(line: string, p: nat, q: nat): (r: seq<Part>)
    requires p <= q <= |line|
    ensures |r| % 2 == 1
    decreases |line| - q
  {
    if q == |line| then [Part(false, line[p..])]
    else match MatchAt(line, q)
      case None => SplitFrom(line, p, q + 1)
      case Some(c) =>
        MatchParts(line, p, q, c) + SplitFrom(line, c + 2, c + 2)
  }

  /** Parts alternate plain, bold, plain, …, and end with a plain part. */
  ghost predicate Alternates(parts: seq<Part>) {
    |parts| % 2 == 1 && forall i | 0 <= i < |parts| :: parts[i].bold <==> i % 2 == 1
  }

  lemma {:induction false} SplitFromAlternates(line: string, p: nat, q: nat)
    requires p <= q <= |line|
    ensures Alternates(SplitFrom(line, p, q))
    decreases |line| - q
  {
    if q < |line| {
      match MatchAt(line, q)
      case None =>
        SplitFromAlternates(line, p, q + 1);
      case Some(c) =>
        var rest := SplitFrom(line, c + 2, c + 2);
        SplitFromAlternates(line, c + 2, c + 2);
        var r := [Part(false, line[p..q]), Part(true, line[q + 2..c])] + rest;
        forall i | 0 <= i < |r| ensures r[i].bold <==> i % 2 == 1 {
          if i >= 2 {
            assert r[i] == rest[i - 2];
          }
        }
    }
  }

  /** `boldRegex.test(line)` on a regex created for this line (lastIndex 0). */
  predicate BoldRegexTest(line: string) {
    exists q | 0 <= q < |line| :: MatchAt(line, q).Some?
  }

  /** The content a line is rendered with: the line itself when the test fails,
      else the split, with the odd-indexed parts in bold. */
  function BoldSplit(line: string): (r: seq<Part>)
    ensures |r| % 2 == 1
    ensures Restore(r) == line
  {
    if BoldRegexTest(line) then
      SplitFromRestores(line, 0, 0);
      SplitFrom(line, 0, 0)
    else [Part(false, line)]
  }

  // ---------------------------------------------------------------------------
  // Putting the delimiters back

  function Wrap(part: Part): string {
    if part.bold then "**" + part.text + "**" else part.text
  }

  /** The parts written back with a `**` pair around every bold part. */
  function Restore(parts: seq<Part>): string
    decreases |parts|
  {
    if parts == [] then "" else Wrap(parts[0]) + Restore(parts[1..])
  }

  lemma {:induction false} RestoreAppend(a: seq<Part>, b: seq<Part>)
    ensures Restore(a + b) == Restore(a) + Restore(b)
    decreases |a|
  {
    if a != [] {
      assert (a + b)[0] == a[0];
      assert (a + b)[1..] == a[1..] + b;
      RestoreAppend(a[1..], b);
      calc {
        Restore(a + b);
        Wrap(a[0]) + Restore(a[1..] + b);
        Wrap(a[0]) + (Restore(a[1..]) + Restore(b));
        (Wrap(a[0]) + Restore(a[1..])) + Restore(b);
      }
    } else {
      assert a + b == b;
    }
  }

  lemma RestoreOne(part: Part)
    ensures Restore([part]) == Wrap(part)
  {
    assert [part][1..] == [];
  }

  /** The plain text before a match and the match's capture restore the line
      from `p` to the end of the match. */
  lemma RestoreMatch(line: string, p: nat, q: nat, c: nat)
    requires p <= q && StarPairAt(line, q) && q + 2 <= c && StarPairAt(line, c)
    ensures Restore([Part(false, line[p..q]), Part(true, line[q + 2..c])]) == line[p..c + 2]
    ensures |line[p..c + 2]| == c + 2 - p
  {
    var x, y := line[p..q], line[q + 2..c];
    var head := [Part(false, x), Part(true, y)];
    assert head[1..] == [Part(true, y)];
    RestoreOne(Part(true, y));
    assert Restore(head) == x + ("**" + y + "**");
    SliceAroundMatch(line, p, q, c);
  }

  lemma SliceAroundMatch(line: string, p: nat, q: nat, c: nat)
    requires p <= q && StarPairAt(line, q) && q + 2 <= c && StarPairAt(line, c)
    ensures line[p..c + 2] == line[p..q] + ("**" + line[q + 2..c] + "**")
  {
    var lhs, rhs := line[p..c + 2], line[p..q] + ("**" + line[q + 2..c] + "**");
    assert |lhs| == |rhs|;
    forall k | 0 <= k < |lhs| ensures lhs[k] == rhs[k] {
      if k < q - p {
      } else if k < q - p + 2 {
      } else if k < c - p {
      } else {
      }
    }
  }

  lemma RestoreAfterMatch(line: string, p: nat, q: nat, c: nat, rest: seq<Part>)
    requires p <= q && MatchAt(line, q) == Some(c)
    requires Restore(rest) == line[c + 2..]
    ensures Restore(MatchParts(line, p, q, c) + rest) == line[p..]
  {
    RestoreAppend(MatchParts(line, p, q, c), rest);
    RestoreMatch(line, p, q, c);
    assert line[p..] == line[p..c + 2] + line[c + 2..];
  }

  // ---------------------------------------------------------------------------
  // What the split promises

  /** The parts restore the rest of the line: nothing but the matched `**`
      pairs is dropped, and nothing is added. */
  lemma {:induction false} SplitFromRestores(line: string, p: nat, q: nat)
    requires p <= q <= |line|
    ensures Restore(SplitFrom(line, p, q)) == line[p..]
    decreases |line| - q
  {
    if q == |line| {
      RestoreOne(Part(false, line[p..]));
    } else {
      match MatchAt(line, q)
      case None =>
        SplitFromRestores(line, p, q + 1);
      case Some(c) =>
        SplitFromRestores(line, c + 2, c + 2);
        RestoreAfterMatch(line, p, q, c, SplitFrom(line, c + 2, c + 2));
    }
  }

  /** Laid out on `line` from `pos` as plain/bold pairs (each bold part
      between its `**` pair), no match of the regular expression starts inside
      a plain part. */
  ghost predicate PlainPartsUnmatched(line: string, pos: nat, parts: seq<Part>)
    decreases |parts|
  {
    parts != [] ==>
      && NoMatchIn(line, pos, pos + |parts[0].text|)
      && (|parts| >= 2 ==>
            PlainPartsUnmatched(line, pos + |parts[0].text| + 4 + |parts[1].text|, parts[2..]))
  }

  /** Laid out the same way, every bold part is the capture of the match that
      starts at its opening `**`. */
  ghost predicate BoldPartsMatched(line: string, pos: nat, parts: seq<Part>)
    decreases |parts|
  {
    |parts| >= 2 ==>
      var q := pos + |parts[0].text|;
      && MatchAt(line, q) == Some(q + 2 + |parts[1].text|)
      && BoldPartsMatched(line, q + 4 + |parts[1].text|, parts[2..])
  }

  lemma MatchPartsThen(line: string, p: nat, q: nat, c: nat, rest: seq<Part>)
    requires p <= q && q + 2 <= c <= |line|
    ensures var r := MatchParts(line, p, q, c) + rest;
      && |r[0].text| == q - p && |r[1].text| == c - q - 2 && r[2..] == rest
  {
  }

  /** Leftmost: no match of the regular expression starts inside a plain part. */
  lemma {:induction false} SplitFromPlainHasNoMatch(line: string, p: nat, q: nat)
    requires p <= q <= |line|
    requires NoMatchIn(line, p, q)
    ensures PlainPartsUnmatched(line, p, SplitFrom(line, p, q))
    decreases |line| - q
  {
    if q < |line| {
      match MatchAt(line, q)
      case None =>
        SplitFromPlainHasNoMatch(line, p, q + 1);
      case Some(c) =>
        SplitFromPlainHasNoMatch(line, c + 2, c + 2);
        MatchPartsThen(line, p, q, c, SplitFrom(line, c + 2, c + 2));
    }
  }

  /** Lazy: each bold part is exactly the capture of the match that starts
      where the part's opening `**` stands. */
  lemma {:induction false} SplitFromBoldIsMatch(line: string, p: nat, q: nat)
    requires p <= q <= |line|
    ensures BoldPartsMatched(line, p, SplitFrom(line, p, q))
    decreases |line| - q
  {
    if q < |line| {
      match MatchAt(line, q)
      case None =>
        SplitFromBoldIsMatch(line, p, q + 1);
      case Some(c) =>
        SplitFromBoldIsMatch(line, c + 2, c + 2);
        MatchPartsThen(line, p, q, c, SplitFrom(line, c + 2, c + 2));
    }
  }

  /** With no match left from `q` on, the split is the rest of the line. */
  lemma {:induction false} SplitFromWithoutMatch(line: string, p: nat, q: nat)
    requires p <= q <= |line|
    requires NoMatchIn(line, q, |line|)
    ensures SplitFrom(line, p, q) == [Part(false, line[p..])]
    decreases |line| - q
  {
    if q < |line| {
      assert MatchAt(line, q).None?;
      SplitFromWithoutMatch(line, p, q + 1);
    }
  }

  /** The `test` guard changes nothing: the rendered parts are the split. */
  lemma BoldSplitIsSplit(line: string)
    ensures BoldSplit(line) == SplitFrom(line, 0, 0)
  {
    if !BoldRegexTest(line) {
      SplitFromWithoutMatch(line, 0, 0);
    }
  }

  /** What the lazy `(.*?)` can capture before `**`: no line terminator, no
      `**` pair, and no `*` at the end (else the match would have closed one
      character earlier). */
  ghost predicate LazyCapture(t: string) {
    && (forall k | 0 <= k < |t| :: !IsLineTerminator(t[k]))
    && (forall k | 0 <= k < |t| - 1 :: !StarPairAt(t, k))
    && (t != [] ==> t[|t| - 1] != '*')
  }

  /** Every bold part is a lazy capture. */
  ghost predicate BoldPartsLazy(parts: seq<Part>) {
    forall i | 0 <= i < |parts| && parts[i].bold :: LazyCapture(parts[i].text)
  }

  /** The capture of a match is a lazy capture. */
  lemma CaptureIsLazy(line: string, q: nat, c: nat)
    requires MatchAt(line, q) == Some(c)
    ensures LazyCapture(line[q + 2..c])
  {
    MatchAtIsLazy(line, q);
    var t := line[q + 2..c];
    forall k | 0 <= k < |t|
      ensures !IsLineTerminator(t[k])
      ensures k < |t| - 1 ==> !StarPairAt(t, k)
      ensures k == |t| - 1 ==> t[k] != '*'
    {
      assert t[k] == line[q + 2 + k] && !StarPairAt(line, q + 2 + k);
      if k < |t| - 1 {
        assert t[k + 1] == line[q + 2 + k + 1];
      }
    }
  }

  /** Every bold part of the split is a lazy capture. */
  lemma {:induction false} SplitFromIsLazy(line: string, p: nat, q: nat)
    requires p <= q <= |line|
    ensures BoldPartsLazy(SplitFrom(line, p, q))
    decreases |line| - q
  {
    if q < |line| {
      match MatchAt(line, q)
      case None =>
        assert SplitFrom(line, p, q) == SplitFrom(line, p, q + 1);
        SplitFromIsLazy(line, p, q + 1);
      case Some(c) =>
        var rest := SplitFrom(line, c + 2, c + 2);
        SplitFromIsLazy(line, c + 2, c + 2);
        CaptureIsLazy(line, q, c);
        var r := MatchParts(line, p, q, c) + rest;
        assert SplitFrom(line, p, q) == r;
        forall i | 0 <= i < |r| && r[i].bold ensures LazyCapture(r[i].text) {
          if i == 1 {
            assert r[1].text == line[q + 2..c];
          } else if i >= 2 {
            assert r[i] == rest[i - 2];
            assert LazyCapture(rest[i - 2].text);
          }
        }
    }
  }

  /** The rendered parts of a line: 2k + 1 of them alternating plain and bold,
      which put back together with their `**` pairs give the line; no match
      starts inside a plain part, every bold part is the capture of the match
      at its position, and that capture is lazy. */
  lemma BoldSplitSound(line: string)
    ensures var r := BoldSplit(line);
      && Alternates(r)
      && Restore(r) == line
      && PlainPartsUnmatched(line, 0, r)
      && BoldPartsMatched(line, 0, r)
      && BoldPartsLazy(r)
  {
    BoldSplitIsSplit(line);
    SplitFromAlternates(line, 0, 0);
    SplitFromRestores(line, 0, 0);
    SplitFromPlainHasNoMatch(line, 0, 0);
    SplitFromBoldIsMatch(line, 0, 0);
    SplitFromIsLazy(line, 0, 0);
  }

  /** A line in which no `**` is followed by a lazy close is rendered as
      itself. */
  lemma NoMatchRendersLine(line: string)
    requires forall q: nat | q < |line| :: !StarPairAt(line, q) || NeverCloses(line, q + 2)
    ensures BoldSplit(line) == [Part(false, line)]
  {
    forall q: nat | q < |line| ensures MatchAt(line, q).None? {
      MatchAtIsLazy(line, q);
    }
  }

  // ---------------------------------------------------------------------------
  // Bullets

  /** `line.trim().startsWith('* ') || line.trim().startsWith('- ')`. */
  predicate IsBullet(line: string): (b: bool)
    ensures b ==> |Trim(line)| > 2 && !IsBlank(line)
  {
    StartsWith(Trim(line), "* ") || StartsWith(Trim(line), "- ")
  }

  /** The bullet rule without `trim`: only whitespace before index `a`,
      `*` or `-` at `a`, a space at `a + 1`, and a non-whitespace character
      at some `e` after them. */
  ghost predicate BulletMarkerAt(line: string, a: nat, e: nat) {
    && a + 2 <= e < |line|
    && (forall k | 0 <= k < a :: IsJsWhitespace(line[k]))
    && (line[a] == '*' || line[a] == '-')
    && line[a + 1] == ' '
    && !IsJsWhitespace(line[e])
  }

  lemma MarkerPrefix(u: string)
    requires StartsWith(u, "* ") || StartsWith(u, "- ")
    ensures |u| >= 2 && (u[0] == '*' || u[0] == '-') && u[1] == ' '
  {
    assert u[..2] == "* " || u[..2] == "- ";
  }

  lemma PrefixMarker(u: string)
    requires |u| >= 2 && (u[0] == '*' || u[0] == '-') && u[1] == ' '
    ensures StartsWith(u, "* ") || StartsWith(u, "- ")
  {
    assert u[..2] == [u[0], u[1]];
  }

  /** A bullet's marker is its first non-whitespace character, and its last
      non-whitespace character comes after the space. */
  lemma BulletHasMarker(line: string)
    requires IsBullet(line)
    ensures var a := |line| - |TrimStart(line)|;
      BulletMarkerAt(line, a, a + |Trim(line)| - 1)
  {
    var u := Trim(line);
    MarkerPrefix(u);
  }

  lemma MarkerMakesBullet(line: string, a: nat, e: nat)
    requires BulletMarkerAt(line, a, e)
    ensures IsBullet(line)
  {
    TrimStartStopsAt(line, a);
    var t := line[a..];
    var u := TrimEnd(t);
    assert t[e - a] == line[e];
    assert e - a < |u|;
    assert u[0] == line[a] && u[1] == line[a + 1];
    PrefixMarker(u);
  }

  /** The bullet rule, stated without `trim`. */
  lemma BulletIffMarker(line: string)
    ensures IsBullet(line) <==> exists a: nat, e: nat :: BulletMarkerAt(line, a, e)
  {
    if IsBullet(line) {
      BulletHasMarker(line);
    }
    if a: nat, e: nat :| BulletMarkerAt(line, a, e) {
      MarkerMakesBullet(line, a, e);
    }
  }

  /** Any other first non-whitespace character, such as `+`, does not make a
      bullet. */
  lemma OtherMarkerIsNotBullet(line: string, a: nat)
    requires a < |line|
    requires forall k | 0 <= k < a :: IsJsWhitespace(line[k])
    requires !IsJsWhitespace(line[a]) && line[a] != '*' && line[a] != '-'
    ensures !IsBullet(line)
  {
    TrimStartStopsAt(line, a);
    if IsBullet(line) {
      BulletHasMarker(line);
    }
  }

  // ---------------------------------------------------------------------------
  // Rows

  /** Row `idx` of `lineCount`: the line's parts, whether it is a bullet, and
      whether a break follows it. */
  function RenderLine(line: string, idx: nat, lineCount: nat): (r: Row)
    ensures r.isBullet == IsBullet(line)
    ensures |r.parts| % 2 == 1 && Restore(r.parts) == line
    ensures r.trailingBreak <==> !r.isBullet && idx + 1 < lineCount
  {
    var bullet := IsBullet(line);
    Row(bullet, BoldSplit(line), idx < lineCount - 1 && !bullet)
  }

  /** `<MarkdownLite text={text} />`: one row per line, in order. */
  function Render(text: string): (rows: seq<Row>)
    ensures |rows| == Count(text, '\n') + 1
    ensures forall i | 0 <= i < |rows| ::
      rows[i].trailingBreak <==> !rows[i].isBullet && i < |rows| - 1
  {
    var lines := Split(text, '\n');
    seq(|lines|, i requires 0 <= i < |lines| => RenderLine(lines[i], i, |lines|))
  }

  /** The text each row displays once its bold parts get their `**` back. */
  function RestoredLines(rows: seq<Row>): seq<string> {
    seq(|rows|, i requires 0 <= i < |rows| => Restore(rows[i].parts))
  }

  /** Row `i` stands for line `i`: it is a bullet exactly when that line is,
      and its parts restore that line, marker included. */
  lemma RowsFollowLines(text: string)
    ensures var lines := Split(text, '\n');
      var rows := Render(text);
      && |rows| == |lines|
      && RestoredLines(rows) == lines
      && forall i | 0 <= i < |rows| :: rows[i].isBullet == IsBullet(lines[i])
  {
    var lines := Split(text, '\n');
    var rows := Render(text);
    forall i | 0 <= i < |rows|
      ensures Restore(rows[i].parts) == lines[i]
    {
      BoldSplitSound(lines[i]);
    }
  }

  /** Nothing of the text is lost: joining the restored rows with '\n' gives
      the text back. */
  lemma RenderRestoresText(text: string)
    ensures Join(RestoredLines(Render(text)), '\n') == text
  {
    RowsFollowLines(text);
    JoinSplit(text, '\n');
  }
}
