/** String operations the two tools take from Python and Go: `str.find`-style search,
    `str.split`, `str.join`, `str.replace`, `str.strip`, decimal formatting of unsigned
    integers (`strconv.FormatUint(n, 10)`, `%d`) and Python's string ordering. */
module Text {
  import opened Wrappers

  /** `pat` occurs in `s` starting at index `i`. */
  predicate OccursAt(s: string, pat: string, i: nat)
  {
    i + |pat| <= |s| && s[i..i + |pat|] == pat
  }

  predicate Contains(s: string, pat: string)
  {
    exists i :: 0 <= i <= |s| && OccursAt(s, pat, i)
  }

  /** The first index at or after `from` where `pat` occurs in `s`. */
  function Find(s: string, pat: string, from: nat): (r: Option<nat>)
    requires from <= |s|
    ensures r.Some? ==> from <= r.value <= |s| && OccursAt(s, pat, r.value)
    ensures forall j :: from <= j <= |s| && (r.None? || j < r.value) ==> !OccursAt(s, pat, j)
    decreases |s| - from
  {
    if OccursAt(s, pat, from) then Some(from)
    else if from == |s| then None
    else Find(s, pat, from + 1)
  }

  /** `sep.join(parts)`. */
  function JoinWith(parts: seq<string>, sep: string): string
  {
    if |parts| == 0 then ""
    else if |parts| == 1 then parts[0]
    else parts[0] + sep + JoinWith(parts[1..], sep)
  }

  /** No occurrence of `pat` starts before `i` in `s`, so `s[..i]` does not contain it. */
  lemma NoneBefore(s: string, pat: string, i: nat)
    requires i <= |s|
    requires forall j :: 0 <= j < i ==> !OccursAt(s, pat, j)
    requires |pat| > 0
    ensures !Contains(s[..i], pat)
  {
    forall j | 0 <= j <= i ensures !OccursAt(s[..i], pat, j) {
      if OccursAt(s[..i], pat, j) {
        assert s[..i][j..j + |pat|] == s[j..j + |pat|];
        assert OccursAt(s, pat, j);
      }
    }
  }

  /** Joining a piece in front of a non-empty list of pieces. */
  lemma JoinWithCons(p: string, rest: seq<string>, sep: string)
    requires |rest| >= 1
    ensures JoinWith([p] + rest, sep) == p + sep + JoinWith(rest, sep)
  {
    assert ([p] + rest)[1..] == rest;
  }

  /** Python's `s.split(sep)` for a non-empty separator: the pieces between the
      occurrences of `sep` found left to right without overlap. Joining the pieces
      back with `sep` gives `s` again, and no piece contains `sep`. */
  function Split(s: string, sep: string): (parts: seq<string>)
    requires |sep| > 0
    ensures |parts| >= 1
    ensures JoinWith(parts, sep) == s
    ensures forall k :: 0 <= k < |parts| ==> !Contains(parts[k], sep)
    decreases |s|
  {
    match Find(s, sep, 0)
    case None =>
      NoneBefore(s, sep, |s|);
      assert s[..|s|] == s;
      [s]
    case Some(i) =>
      var rest := Split(s[i + |sep|..], sep);
      JoinWithCons(s[..i], rest, sep);
      assert s == s[..i] + sep + s[i + |sep|..];
      NoneBefore(s, sep, i);
      [s[..i]] + rest
  }

  /** When `sep` first occurs at `i`, the first piece is everything before it. */
  lemma SplitAtFirst(s: string, sep: string, i: nat)
    requires |sep| > 0 && OccursAt(s, sep, i)
    requires forall j :: 0 <= j < i ==> !OccursAt(s, sep, j)
    ensures Split(s, sep) == [s[..i]] + Split(s[i + |sep|..], sep)
  {
    assert Find(s, sep, 0) == Some(i);
  }

  /** A string without `sep` splits into itself alone. */
  lemma SplitAbsent(s: string, sep: string)
    requires |sep| > 0 && !Contains(s, sep)
    ensures Split(s, sep) == [s]
  {
  }

  /** The first piece of a split is the text before the first occurrence of `sep`,
      or all of `s` when `sep` does not occur. */
  lemma SplitFirstPiece(s: string, sep: string, i: nat)
    requires |sep| > 0 && i <= |s|
    requires forall j :: 0 <= j < i ==> !OccursAt(s, sep, j)
    requires OccursAt(s, sep, i) || (i == |s| && !Contains(s, sep))
    ensures Split(s, sep)[0] == s[..i]
  {
    if OccursAt(s, sep, i) {
      SplitAtFirst(s, sep, i);
    } else {
      SplitAbsent(s, sep);
    }
  }

  /** The total length of the pieces. */
  function TotalLength(parts: seq<string>): nat
  {
    if parts == [] then 0 else |parts[0]| + TotalLength(parts[1..])
  }

  /** Joining `n` pieces puts `n - 1` separators between them. */
  lemma {:induction false} JoinWithLength(parts: seq<string>, sep: string)
    requires |parts| >= 1
    ensures |JoinWith(parts, sep)| == TotalLength(parts) + (|parts| - 1) * |sep|
  {
    if |parts| > 1 {
      JoinWithLength(parts[1..], sep);
      assert (|parts| - 1) * |sep| == |sep| + (|parts| - 2) * |sep|;
    }
  }

  /** Python's `s.replace(old, new)` for a non-empty `target`: every occurrence, found left
      to right without overlap, replaced. A text without `target` is left as it is, and
      each of the `|Split(s, target)| - 1` occurrences changes the length by the
      difference of the two lengths. */
  function Replace(s: string, target: string, replacement: string): (r: string)
    requires |target| > 0
    ensures !Contains(s, target) ==> r == s
    ensures |r| == |s| + (|Split(s, target)| - 1) * (|replacement| - |target|)
  {
    var parts := Split(s, target);
    JoinWithLength(parts, replacement);
    JoinWithLength(parts, target);
    var n := |parts| - 1;
    assert n * |replacement| - n * |target| == n * (|replacement| - |target|);
    if Contains(s, target) then JoinWith(parts, replacement)
    else
      SplitAbsent(s, target);
      JoinWith(parts, replacement)
  }

  /** Replacing in a text whose first occurrence of `target` follows `a`: `a` is kept,
      that occurrence becomes `replacement`, and the replacing goes on in the rest. */
  lemma ReplaceAtFirst(a: string, target: string, b: string, replacement: string)
    requires |target| > 0
    requires forall j :: 0 <= j < |a| ==> !OccursAt(a + target + b, target, j)
    ensures Replace(a + target + b, target, replacement) == a + replacement + Replace(b, target, replacement)
  {
    var s := a + target + b;
    assert s[|a|..|a| + |target|] == target;
    SplitAtFirst(s, target, |a|);
    assert s[..|a|] == a && s[|a| + |target|..] == b;
    JoinWithCons(a, Split(b, target), replacement);
  }

  /** A line break for a file read in text mode: Python's universal newlines end a
      line at "\n", at "\r" and at "\r\n". */
  predicate IsBreak(c: char)
  {
    c == '\n' || c == '\r'
  }

  /** `s` holds no line break. */
  predicate OneLine(s: string)
  {
    forall k :: 0 <= k < |s| ==> !IsBreak(s[k])
  }

  /** Two texts put together hold a line break exactly when one of them does. */
  lemma OneLineConcat(a: string, b: string)
    ensures OneLine(a + b) <==> OneLine(a) && OneLine(b)
  {
    var s := a + b;
    if OneLine(s) {
      forall k | 0 <= k < |a| ensures !IsBreak(a[k]) {
        assert s[k] == a[k];
      }
      forall k | 0 <= k < |b| ensures !IsBreak(b[k]) {
        assert s[|a| + k] == b[k];
      }
    }
    if OneLine(a) && OneLine(b) {
      forall k | 0 <= k < |s| ensures !IsBreak(s[k]) {
        if k < |a| { assert s[k] == a[k]; } else { assert s[k] == b[k - |a|]; }
      }
    }
  }

  /** The characters Python's `str.isspace` accepts. */
  predicate IsSpace(c: char)
  {
    || c == ' ' || '\U{9}' <= c <= '\U{D}' || '\U{1C}' <= c <= '\U{1F}'
    || c == '\U{85}' || c == '\U{A0}' || c == '\U{1680}' || '\U{2000}' <= c <= '\U{200A}'
    || c == '\U{2028}' || c == '\U{2029}' || c == '\U{202F}' || c == '\U{205F}' || c == '\U{3000}'
  }

  /** The index of the first visible character of `s` at or after `i`, or `|s|`
      when there is none. */
  function SpaceEnd(s: string, i: nat): (j: nat)
    requires i <= |s|
    ensures i <= j <= |s|
    ensures forall k :: i <= k < j ==> IsSpace(s[k])
    ensures j == |s| || !IsSpace(s[j])
    decreases |s| - i
  {
    if i < |s| && IsSpace(s[i]) then SpaceEnd(s, i + 1) else i
  }

  /** The index just past the last visible character of `s[lo..j]`, or `lo` when
      there is none. */
  function SpaceStart(s: string, lo: nat, j: nat): (i: nat)
    requires lo <= j <= |s|
    ensures lo <= i <= j
    ensures forall k :: i <= k < j ==> IsSpace(s[k])
    ensures i == lo || !IsSpace(s[i - 1])
  {
    if lo < j && IsSpace(s[j - 1]) then SpaceStart(s, lo, j - 1) else j
  }

  /** Python's `s.strip()`: the slice of `s` that starts and ends with a visible
      character, with only white space before and after it. */
  function Strip(s: string): (r: string)
    ensures r == [] || (!IsSpace(r[0]) && !IsSpace(r[|r| - 1]))
    ensures SpaceEnd(s, 0) + |r| <= |s| && r == s[SpaceEnd(s, 0)..SpaceEnd(s, 0) + |r|]
    ensures forall k :: 0 <= k < SpaceEnd(s, 0) ==> IsSpace(s[k])
    ensures forall k :: SpaceEnd(s, 0) + |r| <= k < |s| ==> IsSpace(s[k])
  {
    var a := SpaceEnd(s, 0);
    s[a..SpaceStart(s, a, |s|)]
  }

  /** Stripping a line that starts and ends with visible characters, followed by
      trailing white space, gives the line back. */
  lemma StripTrailing(t: string, ws: string)
    requires t != [] && !IsSpace(t[0]) && !IsSpace(t[|t| - 1])
    requires forall k :: 0 <= k < |ws| ==> IsSpace(ws[k])
    ensures Strip(t + ws) == t
  {
    var s := t + ws;
    assert s[0] == t[0];
    var i := SpaceStart(s, 0, |s|);
    assert s[|t| - 1] == t[|t| - 1];
    if i > |t| {
      assert s[i - 1] == ws[i - 1 - |t|];
    }
    assert s[..|t|] == t;
  }

  /** The decimal digit for `d < 10`. */
  function DigitChar(d: nat): (c: char)
    requires d < 10
    ensures '0' <= c <= '9' && c as int - '0' as int == d
  {
    (48 + d) as char
  }

  predicate IsDigits(s: string)
  {
    forall i :: 0 <= i < |s| ==> '0' <= s[i] <= '9'
  }

  /** `strconv.FormatUint(n, 10)` and `fmt`'s `%d`: the shortest decimal numeral of `n`,
      which has no leading zero unless it is "0". */
  function Decimal(n: nat): (r: string)
    ensures |r| >= 1 && IsDigits(r)
    ensures r[0] != '0' || r == "0"
    decreases n
  {
    if n < 10 then [DigitChar(n)]
    else Decimal(n / 10) + [DigitChar(n % 10)]
  }

  /** The value of a string of decimal digits. */
  function ParseDecimal(s: string): nat
    requires IsDigits(s)
  {
    if s == [] then 0
    else 10 * ParseDecimal(s[..|s| - 1]) + (s[|s| - 1] as int - '0' as int)
  }

  /** Reading back a formatted number gives the number. */
  lemma {:induction false} DecimalRoundTrip(n: nat)
    ensures ParseDecimal(Decimal(n)) == n
    decreases n
  {
    if n >= 10 {
      DecimalRoundTrip(n / 10);
      var r := Decimal(n);
      assert r[..|r| - 1] == Decimal(n / 10);
    }
  }

  /** Python's `a <= b` on strings: lexicographic by code point. */
  predicate LexLe(a: string, b: string)
    decreases |a|
  {
    |a| == 0 || (|b| > 0 && (a[0] < b[0] || (a[0] == b[0] && LexLe(a[1..], b[1..]))))
  }

  lemma {:induction false} LexLeTotal(a: string, b: string)
    ensures LexLe(a, b) || LexLe(b, a)
    decreases |a|
  {
    if |a| > 0 && |b| > 0 && a[0] == b[0] {
      LexLeTotal(a[1..], b[1..]);
    }
  }

  lemma {:induction false} LexLeAntisymmetric(a: string, b: string)
    requires LexLe(a, b) && LexLe(b, a)
    ensures a == b
    decreases |a|
  {
    if |a| > 0 {
      LexLeAntisymmetric(a[1..], b[1..]);
      assert a == [a[0]] + a[1..] && b == [b[0]] + b[1..];
    }
  }

  lemma {:induction false} LexLeTransitive(a: string, b: string, c: string)
    requires LexLe(a, b) && LexLe(b, c)
    ensures LexLe(a, c)
    decreases |a|
  {
    if |a| > 0 && a[0] == b[0] && b[0] == c[0] {
      LexLeTransitive(a[1..], b[1..], c[1..]);
    }
  }
}
