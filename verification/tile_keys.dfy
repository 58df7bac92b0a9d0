/** The roster key of a hex: `getUnitKey` renders `q`, a comma and `r`, each
    as a JavaScript template literal renders an integer (decimal digits, a
    leading `-` for negatives). */
module TileKeys {
  import opened Results
  import opened Hex

  predicate IsDigit(c: char) {
    '0' <= c <= '9'
  }

  predicate AllDigits(s: string) {
    forall i :: 0 <= i < |s| ==> IsDigit(s[i])
  }

  function DigitChar(d: int): (c: char)
    requires 0 <= d < 10
    ensures IsDigit(c)
  {
    (48 + d) as char
  }

  function DigitValue(c: char): (d: nat)
    requires IsDigit(c)
    ensures d < 10
  {
    c as int - 48
  }

  /** Decimal rendering of a natural number, most significant digit first. */
  function NatToDecimal(n: nat): (s: string)
    ensures |s| > 0 && AllDigits(s)
    decreases n
  {
    if n < 10 then [DigitChar(n)] else NatToDecimal(n / 10) + [DigitChar(n % 10)]
  }

  /** Decimal rendering of an integer, with a leading minus sign when negative. */
  function IntToDecimal(i: int): (s: string)
    ensures |s| > 0 && ',' !in s
  {
    if i < 0 then "-" + NatToDecimal(-i) else NatToDecimal(i)
  }

  /** `getUnitKey`: the key under which the roster stores the unit at `c`.
      Only the two axial coordinates take part, so any other field of the
      object passed in (a tile's occupant, terrain or gold) cannot change it. */
  function Key(c: Coord): string {
    IntToDecimal(c.q) + "," + IntToDecimal(c.r)
  }

  /** The value of a string of decimal digits (the empty string reads as 0). */
  function ParseNat(s: string): nat
    requires AllDigits(s)
  {
    if |s| == 0 then 0 else ParseNat(s[..|s| - 1]) * 10 + DigitValue(s[|s| - 1])
  }

  /** Reads back what `IntToDecimal` writes; `None` for anything else that
      is not an optional minus sign followed by at least one digit. */
  function ParseInt(s: string): Option<int> {
    if |s| > 1 && s[0] == '-' && AllDigits(s[1..]) then Some(0 - ParseNat(s[1..]) as int)
    else if |s| > 0 && AllDigits(s) then Some(ParseNat(s))
    else None
  }

  /** The index of the first comma of `s`, or `|s|` when it has none. */
  function CommaIndex(s: string): (i: nat)
    ensures i <= |s|
    ensures forall j :: 0 <= j < i ==> s[j] != ','
    ensures i < |s| ==> s[i] == ','
  {
    if |s| == 0 then 0 else if s[0] == ',' then 0 else 1 + CommaIndex(s[1..])
  }

  /** Splits a key at its first comma and reads both halves back. */
  function ParseKey(k: string): Option<Coord> {
    var i := CommaIndex(k);
    if i == |k| then None
    else match (ParseInt(k[..i]), ParseInt(k[i + 1..])) {
      case (Some(q), Some(r)) => Some(Coord(q, r))
      case _ => None
    }
  }

  function CountCommas(s: string): nat {
    if |s| == 0 then 0 else (if s[0] == ',' then 1 else 0) + CountCommas(s[1..])
  }

  lemma {:induction false} NatRoundTrip(n: nat)
    ensures ParseNat(NatToDecimal(n)) == n
    decreases n
  {
    if n >= 10 {
      var s := NatToDecimal(n);
      assert s[..|s| - 1] == NatToDecimal(n / 10);
      NatRoundTrip(n / 10);
    }
  }

  lemma IntRoundTrip(i: int)
    ensures ParseInt(IntToDecimal(i)) == Some(i)
  {
    var s := IntToDecimal(i);
    if i < 0 {
      assert s[0] == '-' && s[1..] == NatToDecimal(-i);
      NatRoundTrip(-i);
    } else {
      assert s[0] != '-';
      NatRoundTrip(i);
    }
  }

  /** Splitting a key at its comma recovers the coordinate it was made from. */
  lemma KeyRoundTrip(c: Coord)
    ensures ParseKey(Key(c)) == Some(c)
  {
    var a, b := IntToDecimal(c.q), IntToDecimal(c.r);
    var k := Key(c);
    assert k[|a|] == ',';
    assert forall j :: 0 <= j < |a| ==> k[j] == a[j];
    assert CommaIndex(k) == |a|;
    assert k[..|a|] == a;
    assert k[|a| + 1..] == b;
    IntRoundTrip(c.q);
    IntRoundTrip(c.r);
  }

  /** Distinct coordinates never share a roster key. */
  lemma KeyInjective(a: Coord, b: Coord)
    ensures Key(a) == Key(b) <==> a == b
  {
    if Key(a) == Key(b) {
      KeyRoundTrip(a);
      KeyRoundTrip(b);
    }
  }

  lemma {:induction false} CountCommasAppend(s: string, t: string)
    ensures CountCommas(s + t) == CountCommas(s) + CountCommas(t)
    decreases |s|
  {
    if |s| > 0 {
      assert (s + t)[0] == s[0] && (s + t)[1..] == s[1..] + t;
      CountCommasAppend(s[1..], t);
    } else {
      assert s + t == t;
    }
  }

  lemma {:induction false} NoCommaCountsZero(s: string)
    requires ',' !in s
    ensures CountCommas(s) == 0
    decreases |s|
  {
    if |s| > 0 {
      assert s[0] in s;
      assert forall x :: x in s[1..] ==> x in s;
      NoCommaCountsZero(s[1..]);
    }
  }

  /** Every key holds exactly one comma, which sits right after the decimal
      rendering of `q`. */
  lemma KeyHasOneComma(c: Coord)
    ensures CountCommas(Key(c)) == 1
    ensures Key(c)[|IntToDecimal(c.q)|] == ','
  {
    var a, b := IntToDecimal(c.q), IntToDecimal(c.r);
    CountCommasAppend(a + ",", b);
    CountCommasAppend(a, ",");
    NoCommaCountsZero(a);
    NoCommaCountsZero(b);
  }
}
