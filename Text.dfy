/** The pieces of Go's `strconv` and `strings` packages the core relies on:
    decimal conversion of 64-bit integers, splitting and joining on a comma,
    and removal of a suffix. */
module Text {
  import opened Base

  const MinInt64: int := -0x8000_0000_0000_0000
  const MaxInt64: int := 0x7FFF_FFFF_FFFF_FFFF

  predicate InInt64(n: int) {
    MinInt64 <= n <= MaxInt64
  }

  /** Two's-complement wrap-around of a 64-bit Go `int`. */
  function Wrap64(x: int): (r: int)
    ensures InInt64(r)
    ensures InInt64(x) ==> r == x
    ensures (r - x) % 0x1_0000_0000_0000_0000 == 0
  {
    (x - MinInt64) % 0x1_0000_0000_0000_0000 + MinInt64
  }

  predicate IsDigit(c: char) {
    '0' <= c <= '9'
  }

  predicate AllDigits(s: string) {
    forall i :: 0 <= i < |s| ==> IsDigit(s[i])
  }

  function DigitChar(d: nat): (c: char)
    requires d < 10
    ensures IsDigit(c)
  {
    ('0' as int + d) as char
  }

  /** The value of a string of decimal digits, most significant first. */
  function DigitsValue(s: string): nat
    requires AllDigits(s)
  {
    if |s| == 0 then 0 else DigitsValue(s[..|s| - 1]) * 10 + (s[|s| - 1] as int - '0' as int)
  }

  /** The shortest decimal representation of a natural number. */
  function NatToDigits(n: nat): (s: string)
    ensures 0 < |s| && AllDigits(s)
  {
    if n < 10 then [DigitChar(n)] else NatToDigits(n / 10) + [DigitChar(n % 10)]
  }

  lemma {:induction false} DigitsValueOfNat(n: nat)
    ensures DigitsValue(NatToDigits(n)) == n
  {
    if n >= 10 {
      var s := NatToDigits(n);
      assert s[..|s| - 1] == NatToDigits(n / 10);
      DigitsValueOfNat(n / 10);
    }
  }

  /** strconv.Itoa: decimal, with a leading '-' for negative numbers. */
  function Itoa(n: int): (s: string)
    ensures 0 < |s|
    ensures n >= 0 <==> IsDigit(s[0])
  {
    if n < 0 then "-" + NatToDigits(-n) else NatToDigits(n)
  }

  /** The digits after an optional leading sign. */
  function Unsigned(s: string): string {
    if 0 < |s| && (s[0] == '-' || s[0] == '+') then s[1..] else s
  }

  /** Exactly the strings strconv.Atoi accepts on a 64-bit platform:
      an optional sign followed by at least one decimal digit. */
  predicate IsDecimal(s: string) {
    0 < |Unsigned(s)| && AllDigits(Unsigned(s))
  }

  /** The value of a decimal string, before the range check. */
  function DecimalValue(s: string): int
    requires IsDecimal(s)
  {
    if s[0] == '-' then -(DigitsValue(Unsigned(s)) as int) else DigitsValue(Unsigned(s))
  }

  /** strconv.Atoi on a 64-bit platform. */
  function Atoi(s: string): (r: Result<int>)
    ensures r.Ok? <==> IsDecimal(s) && InInt64(DecimalValue(s))
    ensures r.Ok? ==> r.value == DecimalValue(s)
    ensures r.Err? ==> r.error.NumError? && r.error.num == s
    ensures !IsDecimal(s) ==> r == Err(NumError(s, InvalidSyntax))
  {
    if !IsDecimal(s) then Err(NumError(s, InvalidSyntax))
    else if !InInt64(DecimalValue(s)) then Err(NumError(s, OutOfRange))
    else Ok(DecimalValue(s))
  }

  /** Parsing what Itoa printed gives the number back. */
  lemma AtoiItoa(n: int)
    requires InInt64(n)
    ensures Atoi(Itoa(n)) == Ok(n)
  {
    var s := Itoa(n);
    if n < 0 {
      assert s[0] == '-' && s[1..] == NatToDigits(-n);
      DigitsValueOfNat(-n);
    } else {
      assert Unsigned(s) == NatToDigits(n);
      DigitsValueOfNat(n);
    }
  }

  /** Distinct numbers print differently. */
  lemma ItoaInjective(a: int, b: int)
    requires Itoa(a) == Itoa(b)
    ensures a == b
  {
    if a < 0 {
      assert b < 0;
      assert NatToDigits(-a) == Itoa(a)[1..] == Itoa(b)[1..] == NatToDigits(-b);
      DigitsValueOfNat(-a);
      DigitsValueOfNat(-b);
    } else {
      assert b >= 0;
      DigitsValueOfNat(a);
      DigitsValueOfNat(b);
    }
  }

  /** The elements joined by ",", with no separator after the last one;
      the empty list gives "". */
  function Join(xs: seq<string>): string {
    if |xs| == 0 then ""
    else if |xs| == 1 then xs[0]
    else xs[0] + "," + Join(xs[1..])
  }

  /** strings.Split(s, ","): the pieces between commas; always at least one. */
  function Split(s: string): (r: seq<string>)
    ensures 0 < |r|
  {
    if |s| == 0 then [""]
    else
      var rest := Split(s[1..]);
      if s[0] == ',' then [""] + rest
      else [[s[0]] + rest[0]] + rest[1..]
  }

  /** strings.TrimSuffix. */
  function TrimSuffix(s: string, suffix: string): (r: string)
    ensures |suffix| <= |s| && s[|s| - |suffix|..] == suffix ==> r + suffix == s
    ensures !(|suffix| <= |s| && s[|s| - |suffix|..] == suffix) ==> r == s
  {
    if |suffix| <= |s| && s[|s| - |suffix|..] == suffix then s[..|s| - |suffix|] else s
  }

  predicate CommaFree(x: string) {
    ',' !in x
  }

  lemma {:induction false} JoinCons(c: string, xs: seq<string>)
    requires 0 < |xs|
    ensures Join([c + xs[0]] + xs[1..]) == c + Join(xs)
  {
    var ys := [c + xs[0]] + xs[1..];
    assert ys[1..] == xs[1..];
  }

  /** Joining the pieces of a split gives back the original string. */
  lemma {:induction false} JoinSplit(s: string)
    ensures Join(Split(s)) == s
  {
    if |s| > 0 {
      var rest := Split(s[1..]);
      JoinSplit(s[1..]);
      if s[0] == ',' {
        var r := [""] + rest;
        assert r[1..] == rest;
      } else {
        JoinCons([s[0]], rest);
      }
      assert s == [s[0]] + s[1..];
    }
  }

  lemma {:induction false} SplitPrefix(a: string, t: string)
    requires CommaFree(a)
    ensures Split(a + t) == [a + Split(t)[0]] + Split(t)[1..]
  {
    if |a| > 0 {
      SplitPrefix(a[1..], t);
      assert (a + t)[0] == a[0];
      assert (a + t)[1..] == a[1..] + t;
      assert [a[0]] + (a[1..] + Split(t)[0]) == a + Split(t)[0];
    } else {
      assert a + t == t;
      var r := Split(t);
      assert a + r[0] == r[0];
      assert r == [r[0]] + r[1..];
    }
  }

  /** Splitting a join of comma-free strings gives back the list, provided
      the list is not empty (Split("") is [""], not []). */
  lemma {:induction false} SplitJoin(xs: seq<string>)
    requires 0 < |xs|
    requires forall i :: 0 <= i < |xs| ==> CommaFree(xs[i])
    ensures Split(Join(xs)) == xs
  {
    if |xs| == 1 {
      SplitPrefix(xs[0], "");
      assert xs[0] + "" == xs[0];
    } else {
      var tail := Join(xs[1..]);
      SplitJoin(xs[1..]);
      assert xs[0] + "," + tail == xs[0] + ("," + tail);
      SplitPrefix(xs[0], "," + tail);
      assert ("," + tail)[1..] == tail;
      assert Split("," + tail) == [""] + Split(tail);
      assert xs[0] + "" == xs[0];
      assert Split(Join(xs)) == [xs[0]] + Split(tail);
      assert xs == [xs[0]] + xs[1..];
    }
  }

  /** Each element followed by ",", as the accumulating loop of
      setBackendIPsAsString builds it. */
  function Terminated(xs: seq<string>): string {
    if |xs| == 0 then "" else Terminated(xs[..|xs| - 1]) + xs[|xs| - 1] + ","
  }

  lemma {:induction false} JoinSnoc(xs: seq<string>, x: string)
    requires 0 < |xs|
    ensures Join(xs + [x]) == Join(xs) + "," + x
  {
    if |xs| > 1 {
      assert (xs + [x])[1..] == xs[1..] + [x];
      JoinSnoc(xs[1..], x);
    } else {
      assert (xs + [x])[1..] == [x];
    }
  }

  lemma {:induction false} TerminatedIsJoin(xs: seq<string>)
    requires 0 < |xs|
    ensures Terminated(xs) == Join(xs) + ","
  {
    if |xs| > 1 {
      var init := xs[..|xs| - 1];
      TerminatedIsJoin(init);
      JoinSnoc(init, xs[|xs| - 1]);
      assert init + [xs[|xs| - 1]] == xs;
    }
  }

  /** Dropping the final comma of the accumulated string yields the join. */
  lemma TrimTerminated(xs: seq<string>)
    ensures TrimSuffix(Terminated(xs), ",") == Join(xs)
  {
    if |xs| > 0 {
      TerminatedIsJoin(xs);
      var j := Join(xs);
      assert (j + ",")[|j + ","| - 1..] == ",";
      assert (j + ",")[..|j|] == j;
    }
  }
}
