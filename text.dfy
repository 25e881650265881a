/**
  The Python string operations the annotator is built from, on `seq<char>`:
  the whitespace class shared by `str.isspace`, `str.strip` and the `\s` of a
  `str` pattern, `str.startswith`, `str.split(sep)`, `sep.join(parts)`,
  `int(digits)` and `str(n)`.
 */
module Text {
  import opened Wrappers

  /** Python's whitespace: `str.isspace`, which is also what `\s` matches in a `str` pattern. */
  predicate IsSpace(c: char) {
    || ('\t' <= c <= '\r')
    || ('\U{1C}' <= c <= ' ')
    || c == '\U{85}' || c == '\U{A0}' || c == '\U{1680}'
    || ('\U{2000}' <= c <= '\U{200A}')
    || c == '\U{2028}' || c == '\U{2029}' || c == '\U{202F}' || c == '\U{205F}' || c == '\U{3000}'
  }

  /** `\d`, restricted to the ASCII digits. */
  predicate IsDigit(c: char) {
    '0' <= c <= '9'
  }

  /** `\w`, restricted to the ASCII letters, digits and the underscore. */
  predicate IsWordChar(c: char) {
    ('a' <= c <= 'z') || ('A' <= c <= 'Z') || IsDigit(c) || c == '_'
  }

  predicate AllDigits(s: string) {
    forall i :: 0 <= i < |s| ==> IsDigit(s[i])
  }

  predicate StartsWith(s: string, prefix: string) {
    |prefix| <= |s| && s[..|prefix|] == prefix
  }

  /** The character classes the source's patterns use. */
  datatype CharClass = Digits | Spaces | NonSpaces | NotCloseParen | WordChars

  predicate InClass(k: CharClass, c: char) {
    match k
    case Digits => IsDigit(c)
    case Spaces => IsSpace(c)
    case NonSpaces => !IsSpace(c)
    case NotCloseParen => c != ')'
    case WordChars => IsWordChar(c)
  }

  predicate AllIn(t: string, a: nat, b: nat, k: CharClass)
    requires a <= b <= |t|
  {
    forall i :: a <= i < b ==> InClass(k, t[i])
  }

  /**
    The end of the longest run of class `k` starting at `a`: what a greedy
    `[...]+`, `\d+` or `\s+` consumes before the pattern goes on.
   */
  function RunEnd(t: string, a: nat, k: CharClass): (e: nat)
    requires a <= |t|
    ensures a <= e <= |t|
    ensures AllIn(t, a, e, k)
    ensures e == |t| || !InClass(k, t[e])
    decreases |t| - a
  {
    if a < |t| && InClass(k, t[a]) then RunEnd(t, a + 1, k) else a
  }

  /** A run that stops where the class stops is the greedy run. */
  lemma RunEndUnique(t: string, a: nat, b: nat, k: CharClass)
    requires a <= b <= |t|
    requires AllIn(t, a, b, k)
    requires b == |t| || !InClass(k, t[b])
    ensures RunEnd(t, a, k) == b
  {
  }

  // ---------------------------------------------------------------------------
  // str.strip()

  function LStrip(s: string): (r: string)
    ensures |r| <= |s| && r == s[|s| - |r|..]
    ensures forall i :: 0 <= i < |s| - |r| ==> IsSpace(s[i])
    ensures r == [] || !IsSpace(r[0])
  {
    if |s| > 0 && IsSpace(s[0]) then LStrip(s[1..]) else s
  }

  function RStrip(s: string): (r: string)
    ensures |r| <= |s| && r == s[..|r|]
    ensures forall i :: |r| <= i < |s| ==> IsSpace(s[i])
    ensures r == [] || !IsSpace(r[|r| - 1])
  {
    if |s| > 0 && IsSpace(s[|s| - 1]) then RStrip(s[..|s| - 1]) else s
  }

  /** `r` stands in `s` at `i`, with only whitespace before and after it. */
  predicate StrippedAt(s: string, i: nat, r: string) {
    && i + |r| <= |s| && s[i..i + |r|] == r
    && (forall k :: 0 <= k < i ==> IsSpace(s[k]))
    && (forall k :: i + |r| <= k < |s| ==> IsSpace(s[k]))
  }

  /** Python's `s.strip()`: drops the whitespace at both ends and nothing else. */
  function Strip(s: string): (r: string)
    ensures r == [] || (!IsSpace(r[0]) && !IsSpace(r[|r| - 1]))
    ensures exists i :: StrippedAt(s, i, r)
  {
    var l := LStrip(s);
    var r := RStrip(l);
    assert StrippedAt(s, |s| - |l|, r);
    r
  }

  // ---------------------------------------------------------------------------
  // str.split(sep) and sep.join(parts)

  predicate OccursAt(s: string, sep: string, i: nat) {
    i + |sep| <= |s| && s[i..i + |sep|] == sep
  }

  /** Python's `s.find(sep, i)`: the leftmost occurrence of `sep` at or after `i`. */
  function FindFrom(s: string, sep: string, i: nat): (r: Option<nat>)
    requires |sep| > 0
    ensures r.Some? ==> i <= r.value && OccursAt(s, sep, r.value)
    ensures r.Some? ==> forall k :: i <= k < r.value ==> !OccursAt(s, sep, k)
    ensures r.None? ==> forall k :: i <= k ==> !OccursAt(s, sep, k)
    decreases |s| - i
  {
    if i + |sep| > |s| then None
    else if OccursAt(s, sep, i) then Some(i)
    else FindFrom(s, sep, i + 1)
  }

  /** Python's `s.split(sep)` for a non-empty separator: cut at every leftmost, non-overlapping occurrence. */
  function Split(s: string, sep: string): (parts: seq<string>)
    requires |sep| > 0
    ensures |parts| >= 1
    decreases |s|
  {
    match FindFrom(s, sep, 0)
    case None => [s]
    case Some(i) => [s[..i]] + Split(s[i + |sep|..], sep)
  }

  /** Python's `sep.join(parts)`. */
  function Join(sep: string, parts: seq<string>): string {
    if |parts| == 0 then ""
    else if |parts| == 1 then parts[0]
    else parts[0] + sep + Join(sep, parts[1..])
  }

  /** Joining the pieces of a split with the same separator gives back the string. */
  lemma {:induction false} JoinSplit(s: string, sep: string)
    requires |sep| > 0
    ensures Join(sep, Split(s, sep)) == s
    decreases |s|
  {
    match FindFrom(s, sep, 0)
    case None =>
    case Some(i) =>
      var rest := s[i + |sep|..];
      var tail := Split(rest, sep);
      assert Split(s, sep) == [s[..i]] + tail;
      JoinSplit(rest, sep);
      JoinCons(sep, s[..i], tail);
      Reassemble(s, i, i + |sep|);
  }

  /** A string is its three slices at `i` and `j` put back together. */
  lemma Reassemble(s: string, i: nat, j: nat)
    requires i <= j <= |s|
    ensures s == s[..i] + s[i..j] + s[j..]
  {
  }

  /** Joining a part in front of at least one more puts the separator between them. */
  lemma JoinCons(sep: string, a: string, tail: seq<string>)
    requires |tail| >= 1
    ensures Join(sep, [a] + tail) == a + sep + Join(sep, tail)
  {
    assert ([a] + tail)[1..] == tail;
  }

  /** No piece of a split on a one-character separator holds that character. */
  lemma {:induction false} SplitPartsAvoidSep(s: string, sep: string)
    requires |sep| == 1
    ensures forall k, j :: 0 <= k < |Split(s, sep)| && 0 <= j < |Split(s, sep)[k]| ==> Split(s, sep)[k][j] != sep[0]
    decreases |s|
  {
    match FindFrom(s, sep, 0)
    case None =>
      forall j | 0 <= j < |s| ensures s[j] != sep[0] {
        assert !OccursAt(s, sep, j);
        assert s[j..j + 1] == [s[j]];
      }
    case Some(i) =>
      var rest := s[i + |sep|..];
      SplitPartsAvoidSep(rest, sep);
      forall j | 0 <= j < i ensures s[j] != sep[0] {
        assert !OccursAt(s, sep, j);
        assert s[j..j + 1] == [s[j]];
      }
  }

  /** `c` does not occur in `s`. */
  predicate Lacks(s: string, c: char) {
    forall i :: 0 <= i < |s| ==> s[i] != c
  }

  /** The pieces of a split only hold characters of the string split. */
  lemma {:induction false} SplitPartsLack(s: string, sep: string, c: char)
    requires |sep| > 0 && Lacks(s, c)
    ensures forall k :: 0 <= k < |Split(s, sep)| ==> Lacks(Split(s, sep)[k], c)
    decreases |s|
  {
    match FindFrom(s, sep, 0)
    case None =>
    case Some(i) =>
      var rest := s[i + |sep|..];
      var tail := Split(rest, sep);
      assert Split(s, sep) == [s[..i]] + tail;
      SliceLacks(s, i + |sep|, |s|, c);
      SplitPartsLack(rest, sep, c);
      SliceLacks(s, 0, i, c);
      forall k | 0 <= k < |[s[..i]] + tail| ensures Lacks(([s[..i]] + tail)[k], c) {
        if k > 0 {
          assert ([s[..i]] + tail)[k] == tail[k - 1];
        }
      }
  }

  /** A slice of a string lacking `c` lacks it too. */
  lemma SliceLacks(s: string, i: nat, j: nat, c: char)
    requires i <= j <= |s| && Lacks(s, c)
    ensures Lacks(s[i..j], c)
  {
    assert forall k :: 0 <= k < j - i ==> s[i..j][k] == s[i + k];
  }

  /** A join only holds characters of the separator and of the parts. */
  lemma {:induction false} JoinLacks(sep: string, parts: seq<string>, c: char)
    requires Lacks(sep, c) && forall k :: 0 <= k < |parts| ==> Lacks(parts[k], c)
    ensures Lacks(Join(sep, parts), c)
    decreases |parts|
  {
    if |parts| >= 2 {
      JoinLacks(sep, parts[1..], c);
      var rest := Join(sep, parts[1..]);
      var s := parts[0] + sep + rest;
      assert Join(sep, parts) == s;
      forall i | 0 <= i < |s| ensures s[i] != c {
        if i < |parts[0]| {
        } else if i < |parts[0]| + |sep| {
          assert s[i] == sep[i - |parts[0]|];
        } else {
          assert s[i] == rest[i - |parts[0]| - |sep|];
        }
      }
    }
  }

  /** A separator one character longer makes a join one character longer per cut. */
  lemma {:induction false} JoinWiderSeparator(sep: string, wider: string, parts: seq<string>)
    requires |wider| == |sep| + 1 && |parts| >= 1
    ensures |Join(wider, parts)| == |Join(sep, parts)| + |parts| - 1
    decreases |parts|
  {
    if |parts| >= 2 {
      JoinWiderSeparator(sep, wider, parts[1..]);
    }
  }

  /** Whatever starts the first part starts the join. */
  lemma {:induction false} JoinPrefixFirst(sep: string, x: string, a: string, rest: seq<string>)
    ensures Join(sep, [x + a] + rest) == x + Join(sep, [a] + rest)
  {
    assert ([x + a] + rest)[1..] == rest && ([a] + rest)[1..] == rest;
  }

  /** Splitting a join on a one-character separator that no part holds gives back the parts. */
  lemma {:induction false} SplitJoin(parts: seq<string>, sep: string)
    requires |sep| == 1 && |parts| >= 1
    requires forall k, j :: 0 <= k < |parts| && 0 <= j < |parts[k]| ==> parts[k][j] != sep[0]
    ensures Split(Join(sep, parts), sep) == parts
  {
    var s := Join(sep, parts);
    var p := parts[0];
    forall k | 0 <= k < |p| ensures !OccursAt(s, sep, k) {
      assert s[k] == p[k];
      assert k + 1 <= |s| ==> s[k..k + |sep|][0] == s[k];
    }
    if |parts| == 1 {
      assert s == p;
      assert FindFrom(s, sep, 0).None?;
    } else {
      var rest := Join(sep, parts[1..]);
      assert s == p + sep + rest;
      assert OccursAt(s, sep, |p|);
      assert FindFrom(s, sep, 0) == Some(|p|);
      assert s[..|p|] == p;
      assert s[|p| + 1..] == rest;
      assert Split(s, sep) == [p] + Split(rest, sep);
      SplitJoin(parts[1..], sep);
      assert parts == [p] + parts[1..];
    }
  }

  // ---------------------------------------------------------------------------
  // int(digits) and str(n)

  /** Python's `int(s)` on a string of decimal digits. */
  function DigitsValue(s: string): nat
    requires AllDigits(s)
  {
    if s == [] then 0 else 10 * DigitsValue(s[..|s| - 1]) + (s[|s| - 1] as int - '0' as int)
  }

  function DigitChar(d: nat): (c: char)
    requires d < 10
    ensures IsDigit(c) && c as int - '0' as int == d
  {
    ('0' as int + d) as char
  }

  /** Python's `str(n)`: the canonical decimal form, without leading zeros, that `int` reads back as `n`. */
  function NatToString(n: nat): (r: string)
    ensures |r| >= 1 && AllDigits(r)
    ensures DigitsValue(r) == n
    ensures |r| > 1 ==> r[0] != '0'
  {
    if n < 10 then [DigitChar(n)]
    else
      var r := NatToString(n / 10) + [DigitChar(n % 10)];
      assert r[..|r| - 1] == NatToString(n / 10);
      r
  }

  /** A digit string is `str(int(s))` exactly when it is non-empty and has no leading zero. */
  lemma {:induction false} NatToStringOfDigits(s: string)
    requires AllDigits(s) && |s| >= 1 && (|s| > 1 ==> s[0] != '0')
    ensures NatToString(DigitsValue(s)) == s
    decreases |s|
  {
    var n := DigitsValue(s);
    var init := s[..|s| - 1];
    var d := s[|s| - 1] as int - '0' as int;
    if |s| == 1 {
      assert init == [];
      assert n == 10 * DigitsValue(init) + d;
      assert n == d;
      assert [DigitChar(d)] == s;
    } else {
      assert init[0] == s[0];
      NatToStringOfDigits(init);
      LeadingDigitPositive(init);
      assert n == 10 * DigitsValue(init) + d;
      assert n / 10 == DigitsValue(init) && n % 10 == d;
      assert s == init + [s[|s| - 1]];
    }
  }

  lemma {:induction false} LeadingDigitPositive(s: string)
    requires AllDigits(s) && |s| >= 1 && s[0] != '0'
    ensures DigitsValue(s) >= 1
    decreases |s|
  {
    if |s| > 1 {
      assert s[..|s| - 1][0] == s[0];
      LeadingDigitPositive(s[..|s| - 1]);
    }
  }
}
