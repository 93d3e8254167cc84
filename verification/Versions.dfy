/** Version strings, as the `version_*` operators compare them. */
module Versions {
  import opened Strings

  const MAX_INT64 := 0x7FFF_FFFF_FFFF_FFFF
  const MAX_UINT64 := 0xFFFF_FFFF_FFFF_FFFF

  datatype Scan = Number(n: int) | SyntaxError | RangeError

  function ScanDigits(s: string, n: int): Scan {
    if s == "" then Number(n)
    else if !('0' <= s[0] <= '9') then SyntaxError
    else
      var n' := 10 * n + Digit(s[0]);
      if n' > MAX_UINT64 then RangeError else ScanDigits(s[1..], n')
  }

  /** `strconv.ParseInt(s, 10, 64)` with its error dropped: 0 on a syntax error, clamped when out of range. */
  function ParseInt(s: string): int {
    var negative := s != "" && s[0] == '-';
    var digits := if s != "" && (s[0] == '-' || s[0] == '+') then s[1..] else s;
    if digits == "" then 0 else
    match ScanDigits(digits, 0)
    case SyntaxError => 0
    case RangeError => if negative then -MAX_INT64 - 1 else MAX_INT64
    case Number(n) =>
      if negative then (if n > MAX_INT64 + 1 then -MAX_INT64 - 1 else -n)
      else if n > MAX_INT64 then MAX_INT64 else n
  }

  predicate IsDigit(c: char) { '0' <= c <= '9' }

  function Digit(c: char): int { c as int - '0' as int }

  /** The number a decimal numeral denotes. */
  function Decimal(s: string): (n: int)
    requires forall c <- s :: IsDigit(c)
    ensures n >= 0
  {
    if s == "" then 0
    else
      assert IsDigit(s[|s| - 1]);
      10 * Decimal(s[..|s| - 1]) + Digit(s[|s| - 1])
  }

  lemma {:induction false} ScanOneMore(s: string, c: char, n: int)
    requires IsDigit(c)
    ensures ScanDigits(s + [c], n) ==
            match ScanDigits(s, n)
            case Number(m) => (var m' := 10 * m + Digit(c); if m' > MAX_UINT64 then RangeError else Number(m'))
            case other => other
  {
    if s == "" {
      assert s + [c] == [c] && [c][1..] == "";
    } else {
      assert (s + [c])[1..] == s[1..] + [c];
      if IsDigit(s[0]) {
        ScanOneMore(s[1..], c, 10 * n + Digit(s[0]));
      }
    }
  }

  lemma {:induction false} ScansDecimal(s: string)
    requires forall c <- s :: IsDigit(c)
    ensures ScanDigits(s, 0) == if Decimal(s) > MAX_UINT64 then RangeError else Number(Decimal(s))
  {
    if s != "" {
      var init, last := s[..|s| - 1], s[|s| - 1];
      assert s == init + [last];
      ScansDecimal(init);
      ScanOneMore(init, last, 0);
    }
  }

  /** A numeral, with or without a sign, parses to the number it denotes, clamped to 64 bits. */
  lemma ParsesNumerals(s: string)
    requires s != "" && forall c <- s :: IsDigit(c)
    ensures ParseInt(s) == ParseInt("+" + s) == if Decimal(s) > MAX_INT64 then MAX_INT64 else Decimal(s)
    ensures ParseInt("-" + s) == if Decimal(s) > MAX_INT64 + 1 then -MAX_INT64 - 1 else -Decimal(s)
  {
    ScansDecimal(s);
    assert IsDigit(s[0]);
    assert ("+" + s)[1..] == s && ("-" + s)[1..] == s;
  }

  /** Whatever else follows the sign, if there is one, parses to 0: nothing, or anything with a character that is no
      digit, unless the digits before that are too large for 64 bits. */
  lemma {:induction false} OtherTextIsZero(s: string, digits: string, rest: string)
    requires s == digits + rest && (forall c <- digits :: IsDigit(c)) && Decimal(digits) <= MAX_UINT64
    requires rest == "" ==> digits == ""
    requires rest != "" ==> !IsDigit(rest[0]) && (digits == "" ==> rest[0] !in {'+', '-'})
    ensures ParseInt(s) == ParseInt("+" + s) == ParseInt("-" + s) == 0
  {
    assert ("+" + s)[1..] == s && ("-" + s)[1..] == s;
    if s != "" {
      ScansDecimal(digits);
      ScanStops(digits, rest, 0);
      if digits != "" {
        assert s[0] == digits[0] && IsDigit(digits[0]);
      }
    }
  }

  lemma {:induction false} ScanStops(digits: string, rest: string, n: int)
    requires (forall c <- digits :: IsDigit(c)) && rest != "" && !IsDigit(rest[0])
    ensures ScanDigits(digits, n).Number? ==> ScanDigits(digits + rest, n) == SyntaxError
  {
    if digits == "" {
      assert digits + rest == rest;
    } else {
      assert (digits + rest)[1..] == digits[1..] + rest && IsDigit(digits[0]);
      ScanStops(digits[1..], rest, 10 * n + Digit(digits[0]));
    }
  }

  /** The numeric value of part `i`; every part past the last one counts as zero. */
  function PartAt(parts: seq<string>, i: nat): int {
    if i < |parts| then ParseInt(parts[i]) else 0
  }

  function Part(v: string, i: nat): int {
    PartAt(Split(v, '.'), i)
  }

  ghost predicate Agree(u: string, v: string, n: nat) {
    forall i: nat :: i < n ==> Part(u, i) == Part(v, i)
  }

  ghost predicate SameVersion(u: string, v: string) {
    forall i: nat :: Part(u, i) == Part(v, i)
  }

  /** `u` precedes `v` lexicographically, both read as infinite sequences of numbers. */
  ghost predicate Precedes(u: string, v: string) {
    exists i: nat :: Agree(u, v, i) && Part(u, i) < Part(v, i)
  }

  function CompareFrom(p: seq<string>, q: seq<string>, i: nat): int
    decreases |p| + |q| - i
  {
    if i >= |p| && i >= |q| then 0
    else if PartAt(p, i) < PartAt(q, i) then -1
    else if PartAt(p, i) > PartAt(q, i) then 1
    else CompareFrom(p, q, i + 1)
  }

  function Compare(u: string, v: string): int {
    CompareFrom(Split(u, '.'), Split(v, '.'), 0)
  }

  method CompareVersionsHelper(v1: string, v2: string) returns (r: int)
    ensures r == Compare(v1, v2)
  {
    var i := 0;
    var v1Parts := Split(v1, '.');
    var v2Parts := Split(v2, '.');
    while i < if |v1Parts| > |v2Parts| then |v1Parts| else |v2Parts|
      invariant 0 <= i
      invariant CompareFrom(v1Parts, v2Parts, i) == Compare(v1, v2)
    {
      var p1 := if i >= |v1Parts| then "0" else v1Parts[i];
      var p2 := if i >= |v2Parts| then "0" else v2Parts[i];
      var n1 := ParseInt(p1);
      var n2 := ParseInt(p2);
      assert ParseInt("0") == 0 by { assert ScanDigits("0", 0) == Number(0); }
      if n1 < n2 {
        return -1;
      }
      if n1 > n2 {
        return 1;
      }
      i := i + 1;
    }
    return 0;
  }

  lemma {:induction false} CompareFromMeans(u: string, v: string, i: nat)
    requires Agree(u, v, i)
    ensures var c := CompareFrom(Split(u, '.'), Split(v, '.'), i);
            (c == -1 && Precedes(u, v)) || (c == 1 && Precedes(v, u)) || (c == 0 && SameVersion(u, v))
    decreases |Split(u, '.')| + |Split(v, '.')| - i
  {
    var p, q := Split(u, '.'), Split(v, '.');
    assert Part(u, i) == PartAt(p, i) && Part(v, i) == PartAt(q, i);
    if i >= |p| && i >= |q| {
      assert forall k: nat :: k >= i ==> Part(u, k) == 0 && Part(v, k) == 0;
    } else if Part(u, i) > Part(v, i) {
      assert Agree(v, u, i);
    } else if Part(u, i) == Part(v, i) {
      CompareFromMeans(u, v, i + 1);
    }
  }

  /** The loop's three answers are exactly "precedes", "follows" and "same version". */
  lemma CompareMeans(u: string, v: string)
    ensures Compare(u, v) == -1 <==> Precedes(u, v)
    ensures Compare(u, v) == 1 <==> Precedes(v, u)
    ensures Compare(u, v) == 0 <==> SameVersion(u, v)
  {
    CompareFromMeans(u, v, 0);
    if Precedes(u, v) {
      var i: nat :| Agree(u, v, i) && Part(u, i) < Part(v, i);
      NotBoth(u, v, i);
    }
    if Precedes(v, u) {
      var i: nat :| Agree(v, u, i) && Part(v, i) < Part(u, i);
      NotBoth(v, u, i);
    }
  }

  lemma NotBoth(u: string, v: string, i: nat)
    requires Agree(u, v, i) && Part(u, i) < Part(v, i)
    ensures !Precedes(v, u) && !SameVersion(u, v)
  {
    forall j: nat | Agree(v, u, j)
      ensures Part(v, j) >= Part(u, j)
    {
      if j > i {
        assert false;
      }
    }
  }

  lemma PrecedesTransitive(u: string, v: string, w: string)
    requires Precedes(u, v) && (Precedes(v, w) || SameVersion(v, w))
    ensures Precedes(u, w)
  {
    var i: nat :| Agree(u, v, i) && Part(u, i) < Part(v, i);
    if SameVersion(v, w) {
      assert Agree(u, w, i) && Part(u, i) < Part(w, i);
    } else {
      var j: nat :| Agree(v, w, j) && Part(v, j) < Part(w, j);
      var k := if i < j then i else j;
      assert Agree(u, w, k) && Part(u, k) < Part(w, k);
    }
  }

  /** A total preorder: antisymmetric in sign, total and transitive. */
  lemma TotalPreorder(u: string, v: string, w: string)
    ensures Compare(u, v) == -Compare(v, u)
    ensures Compare(u, v) in {-1, 0, 1}
    ensures Compare(u, v) <= 0 && Compare(v, w) <= 0 ==> Compare(u, w) <= 0
    ensures Compare(u, v) == 0 ==> Compare(u, w) == Compare(v, w)
  {
    CompareFromMeans(u, v, 0);
    CompareMeans(u, v);
    CompareMeans(v, u);
    CompareMeans(v, w);
    CompareMeans(w, v);
    CompareMeans(u, w);
    CompareFromMeans(u, w, 0);
    CompareFromMeans(v, w, 0);
    if Precedes(u, v) && (Precedes(v, w) || SameVersion(v, w)) {
      PrecedesTransitive(u, v, w);
    }
    if SameVersion(u, v) {
      if Precedes(v, w) {
        var i: nat :| Agree(v, w, i) && Part(v, i) < Part(w, i);
        assert Agree(u, w, i) && Part(u, i) < Part(w, i);
      } else if Precedes(w, v) {
        PrecedesTransitive(w, v, u);
      }
    }
  }

  /** A trailing ".0" never changes a comparison. */
  lemma TrailingZero(v: string, w: string)
    ensures Compare(v + ".0", w) == Compare(v, w)
  {
    SplitAtSeparator(v, '.', "0");
    assert v + ['.'] + "0" == v + ".0";
    var zero := "0";
    assert Split(zero, '.') == [zero] by {
      assert zero[1..] == "" && [zero[0]] + "" == zero;
      assert Split(zero, '.') == Prepend(zero[0], [""]);
    }
    assert ParseInt("0") == 0 by { assert ScanDigits("0", 0) == Number(0); }
    assert SameVersion(v + ".0", v);
    CompareMeans(v + ".0", v);
    TotalPreorder(v + ".0", v, w);
  }
}
