/** Response keys: `valentine_response_<Date.now()>_<suffix>`, where the clock
    reading is written in decimal and the suffix is the random base-36 tail. */
module Keys {
  import opened Kv

  const PREFIX: string := "valentine_response_"

  predicate IsDigit(c: char) {
    '0' <= c <= '9'
  }

  function DigitValue(c: char): (d: nat)
    requires IsDigit(c)
    ensures d < 10
  {
    c as int - '0' as int
  }

  function DigitChar(d: nat): (c: char)
    requires d < 10
    ensures IsDigit(c) && c as int - '0' as int == d
  {
    ('0' as int + d) as char
  }

  /** How JavaScript writes a clock reading in a template literal: plain
      decimal, with no leading zero except in "0" itself. */
  function Decimal(n: nat): (s: string)
    ensures |s| > 0
    ensures forall i :: 0 <= i < |s| ==> IsDigit(s[i])
    ensures s[0] == '0' <==> n == 0
    ensures s[0] == '0' ==> s == "0"
    decreases n
  {
    if n < 10 then [DigitChar(n)] else Decimal(n / 10) + [DigitChar(n % 10)]
  }

  /** Reads a string of decimal digits back into the number it denotes. */
  function DecimalValue(s: string): nat
    requires forall i :: 0 <= i < |s| ==> IsDigit(s[i])
  {
    if s == [] then 0
    else DecimalValue(s[..|s| - 1]) * 10 + DigitValue(s[|s| - 1])
  }

  lemma {:induction false} DecimalRoundTrip(n: nat)
    ensures DecimalValue(Decimal(n)) == n
    decreases n
  {
    if n >= 10 {
      var s := Decimal(n);
      assert s[..|s| - 1] == Decimal(n / 10);
      DecimalRoundTrip(n / 10);
    }
  }

  /** The key the submit handler mints from the clock and the random suffix. */
  function MintKey(now: nat, suffix: string): (key: string)
    ensures HasPrefix(key, PREFIX)
  {
    PREFIX + Decimal(now) + "_" + suffix
  }

  lemma SeparatorAt(d: string, s: string)
    ensures (d + "_" + s)[|d|] == '_'
    ensures forall i :: 0 <= i < |d| ==> (d + "_" + s)[i] == d[i]
  {
  }

  /** Two digit strings followed by `_` can only produce the same string when
      the digit strings and the tails agree: the first `_` ends the digits. */
  lemma SplitAtSeparator(d1: string, s1: string, d2: string, s2: string)
    requires forall i :: 0 <= i < |d1| ==> IsDigit(d1[i])
    requires forall i :: 0 <= i < |d2| ==> IsDigit(d2[i])
    requires d1 + "_" + s1 == d2 + "_" + s2
    ensures d1 == d2 && s1 == s2
  {
    var w := d1 + "_" + s1;
    SeparatorAt(d1, s1);
    SeparatorAt(d2, s2);
    if |d1| < |d2| {
      assert false;
    } else if |d2| < |d1| {
      assert false;
    }
    assert d1 == w[..|d1|] == d2;
    assert s1 == w[|d1| + 1..] == s2;
  }

  /** Keys are unique per (clock, suffix) pair: two submissions in the same
      millisecond get distinct keys whenever their suffixes differ, and two
      distinct clock readings never collide whatever the suffixes. */
  lemma MintKeyInjective(now1: nat, suffix1: string, now2: nat, suffix2: string)
    requires MintKey(now1, suffix1) == MintKey(now2, suffix2)
    ensures now1 == now2 && suffix1 == suffix2
  {
    var k := MintKey(now1, suffix1);
    assert k == PREFIX + (Decimal(now1) + "_" + suffix1);
    assert k == PREFIX + (Decimal(now2) + "_" + suffix2);
    assert Decimal(now1) + "_" + suffix1 == k[|PREFIX|..] == Decimal(now2) + "_" + suffix2;
    SplitAtSeparator(Decimal(now1), suffix1, Decimal(now2), suffix2);
    DecimalRoundTrip(now1);
    DecimalRoundTrip(now2);
  }
}
