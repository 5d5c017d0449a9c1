/**
 * The string primitives the star field relies on: formatting an integer the
 * way a template literal `${n}` does, `Array.prototype.join`, and (as the
 * inverse used to state properties) `String.prototype.split` and decimal
 * parsing.
 */
module Text {

  datatype Option<+T> = None | Some(value: T)

  predicate IsDigit(c: char) {
    '0' <= c <= '9'
  }

  predicate AllDigits(s: string) {
    forall i :: 0 <= i < |s| ==> IsDigit(s[i])
  }

  /** A numeral as `${n}` prints an integer: an optional minus sign, then digits. */
  predicate IsNumeral(s: string) {
    && |s| > 0
    && (s[0] == '-' ==> |s| > 1 && AllDigits(s[1..]))
    && (s[0] != '-' ==> AllDigits(s))
  }

  function DigitValue(c: char): (d: nat)
    requires IsDigit(c)
    ensures d < 10
  {
    (c as int) - ('0' as int)
  }

  function DigitChar(d: nat): (c: char)
    requires d < 10
    ensures IsDigit(c) && DigitValue(c) == d
  {
    "0123456789"[d]
  }

  /** Decimal digits of `n`, most significant first, without leading zeros. */
  function NatToString(n: nat): (s: string)
    ensures |s| > 0 && AllDigits(s)
    ensures s[0] == '0' ==> n == 0
    decreases n
  {
    if n < 10 then [DigitChar(n)] else NatToString(n / 10) + [DigitChar(n % 10)]
  }

  /** Reference reading of a digit string, least significant digit last. */
  function ParseNat(s: string): (n: nat)
    requires AllDigits(s)
    decreases |s|
  {
    if s == [] then 0 else 10 * ParseNat(s[..|s| - 1]) + DigitValue(s[|s| - 1])
  }

  lemma {:induction false} ParseNatToString(n: nat)
    ensures ParseNat(NatToString(n)) == n
  {
    if n >= 10 {
      var s := NatToString(n);
      assert s[..|s| - 1] == NatToString(n / 10);
      ParseNatToString(n / 10);
    }
  }

  /**
   * The text `${n}` produces for an integer-valued number `n` with
   * |n| < 10^21 (from there on JavaScript switches to exponent form).
   */
  function IntToString(n: int): (s: string)
    ensures |s| > 0 && IsNumeral(s)
    ensures s[0] == '-' <==> n < 0
  {
    if n < 0 then "-" + NatToString(-n) else NatToString(n)
  }

  function ParseInt(s: string): (r: Option<int>)
  {
    if |s| > 0 && s[0] == '-' then
      if |s| > 1 && AllDigits(s[1..]) then Some(-(ParseNat(s[1..]) as int)) else None
    else if |s| > 0 && AllDigits(s) then Some(ParseNat(s))
    else None
  }

  lemma ParseIntToString(n: int)
    ensures ParseInt(IntToString(n)) == Some(n)
  {
    if n < 0 {
      var m: nat := -n;
      assert IntToString(n) == "-" + NatToString(m);
      ParseNegativeToString(m);
    } else {
      assert IntToString(n) == NatToString(n);
      ParseNonNegativeToString(n);
    }
  }

  lemma ParseNegativeToString(m: nat)
    requires m > 0
    ensures ParseInt("-" + NatToString(m)) == Some(-(m as int))
  {
    var t := NatToString(m);
    assert ("-" + t)[1..] == t;
    ParseNatToString(m);
  }

  lemma ParseNonNegativeToString(n: nat)
    ensures ParseInt(NatToString(n)) == Some(n)
  {
    var t := NatToString(n);
    assert t[0] != '-';
    ParseNatToString(n);
  }

  /** `xs.join(sep)`: the elements in order with `sep` between neighbours only. */
  function Join(xs: seq<string>, sep: string): (s: string)
    ensures |xs| > 0 ==> xs[0] <= s
    decreases |xs|
  {
    if |xs| == 0 then ""
    else if |xs| == 1 then xs[0]
    else xs[0] + sep + Join(xs[1..], sep)
  }

  /** `s.split(sep)` for a non-empty separator, scanning left to right. */
  function Split(s: string, sep: string): (parts: seq<string>)
    requires |sep| > 0
    ensures |parts| >= 1
    decreases |s|
  {
    if |s| >= |sep| && s[..|sep|] == sep then [""] + Split(s[|sep|..], sep)
    else if |s| == 0 then [""]
    else
      var rest := Split(s[1..], sep);
      [[s[0]] + rest[0]] + rest[1..]
  }

  /** Text free of the separator's first character joins onto the first piece. */
  lemma {:induction false} SplitPrefix(a: string, t: string, sep: string)
    requires |sep| > 0 && sep[0] !in a
    ensures Split(a + t, sep) == [a + Split(t, sep)[0]] + Split(t, sep)[1..]
    decreases |a|
  {
    if a == [] {
      var parts := Split(t, sep);
      assert a + t == t;
      assert a + parts[0] == parts[0];
      assert [parts[0]] + parts[1..] == parts;
    } else {
      var s := a + t;
      assert s[0] == a[0];
      assert |s| >= |sep| ==> s[..|sep|][0] != sep[0];
      assert s[1..] == a[1..] + t;
      SplitPrefix(a[1..], t, sep);
      assert [s[0]] + (a[1..] + Split(t, sep)[0]) == a + Split(t, sep)[0];
    }
  }

  lemma SplitAfterSeparator(t: string, sep: string)
    requires |sep| > 0
    ensures Split(sep + t, sep) == [""] + Split(t, sep)
  {
    var s := sep + t;
    assert s[..|sep|] == sep;
    assert s[|sep|..] == t;
  }

  /** Splitting a join recovers the pieces when no piece can start a separator. */
  lemma {:induction false} SplitJoin(xs: seq<string>, sep: string)
    requires |sep| > 0 && |xs| >= 1
    requires forall i :: 0 <= i < |xs| ==> sep[0] !in xs[i]
    ensures Split(Join(xs, sep), sep) == xs
    decreases |xs|
  {
    if |xs| == 1 {
      SplitPrefix(xs[0], "", sep);
      assert xs[0] + "" == xs[0];
    } else {
      var rest := Join(xs[1..], sep);
      assert Join(xs, sep) == xs[0] + (sep + rest);
      SplitPrefix(xs[0], sep + rest, sep);
      SplitAfterSeparator(rest, sep);
      SplitJoin(xs[1..], sep);
      assert Split(sep + rest, sep)[0] == "";
      assert Split(sep + rest, sep)[1..] == xs[1..];
      assert xs[0] + "" == xs[0];
      assert xs == [xs[0]] + xs[1..];
    }
  }

  /** Joining the pieces of a split gives back the original text. */
  lemma {:induction false} JoinSplit(s: string, sep: string)
    requires |sep| > 0
    ensures Join(Split(s, sep), sep) == s
    decreases |s|
  {
    if |s| >= |sep| && s[..|sep|] == sep {
      var t := s[|sep|..];
      assert Split(s, sep) == [""] + Split(t, sep);
      JoinSplit(t, sep);
      JoinPrepend(Split(t, sep), sep);
      assert Join([""] + Split(t, sep), sep) == sep + t;
      assert s == s[..|sep|] + t;
    } else if |s| == 0 {
    } else {
      var rest := Split(s[1..], sep);
      assert Split(s, sep) == [[s[0]] + rest[0]] + rest[1..];
      JoinSplit(s[1..], sep);
      JoinGlue([s[0]], rest, sep);
      assert s == [s[0]] + s[1..];
    }
  }

  lemma JoinCons(x: string, xs: seq<string>, sep: string)
    requires xs != []
    ensures Join([x] + xs, sep) == x + sep + Join(xs, sep)
  {
    assert ([x] + xs)[1..] == xs;
  }

  lemma JoinThree(a: string, b: string, c: string, sep: string)
    ensures Join([a, b, c], sep) == a + sep + b + sep + c
  {
    assert [a, b, c] == [a] + ([b] + [c]);
    JoinCons(b, [c], sep);
    JoinCons(a, [b] + [c], sep);
  }

  lemma JoinFour(a: string, b: string, c: string, d: string, sep: string)
    ensures Join([a, b, c, d], sep) == a + sep + b + sep + c + sep + d
  {
    assert [a, b, c, d] == [a] + ([b] + ([c] + [d]));
    JoinCons(c, [d], sep);
    JoinCons(b, [c] + [d], sep);
    JoinCons(a, [b] + ([c] + [d]), sep);
  }

  /** Gluing text onto the first piece glues it onto the whole join. */
  lemma JoinGlue(c: string, xs: seq<string>, sep: string)
    requires |xs| >= 1
    ensures Join([c + xs[0]] + xs[1..], sep) == c + Join(xs, sep)
  {
    var ys := [c + xs[0]] + xs[1..];
    assert ys[1..] == xs[1..];
    if |xs| > 1 {
      assert (c + xs[0]) + sep + Join(xs[1..], sep) == c + (xs[0] + sep + Join(xs[1..], sep));
    }
  }

  /** An empty first piece leaves the join starting with a separator. */
  lemma JoinPrepend(xs: seq<string>, sep: string)
    requires |xs| >= 1
    ensures Join([""] + xs, sep) == sep + Join(xs, sep)
  {
    var ys := [""] + xs;
    assert ys[1..] == xs;
    assert "" + sep + Join(xs, sep) == sep + Join(xs, sep);
  }
}
