/**
 The string primitives the filters rely on: `String.prototype.includes`,
 the decimal rendering of an integer id (`Number.prototype.toString`), and
 the helper that turns a filter value back into a boolean.
 */
module Text {

  /**
   The normalisation `s => removeAccents(s.toLowerCase())`. Its body is not
   part of this model, so every filter takes it as a parameter and nothing
   here depends on what it does.
   */
  type Normalizer = string -> string

  /** `needle` occurs in `hay` starting at position `i`. */
  predicate OccursAt(hay: string, needle: string, i: int) {
    0 <= i <= |hay| - |needle| && hay[i..i + |needle|] == needle
  }

  /** `needle` is a contiguous substring of `hay`. */
  ghost predicate Occurs(hay: string, needle: string) {
    exists i :: OccursAt(hay, needle, i)
  }

  /** `hay.includes(needle)`: tries each start position from the left. */
  function Includes(hay: string, needle: string): (r: bool)
    ensures |needle| == 0 ==> r
    ensures r ==> |needle| <= |hay|
    decreases |hay|
  {
    if |needle| <= |hay| && hay[..|needle|] == needle then true
    else if |hay| == 0 then false
    else Includes(hay[1..], needle)
  }

  /** An occurrence at position 0 is a matching prefix. */
  lemma OccursAtStart(hay: string, needle: string)
    ensures OccursAt(hay, needle, 0) <==> |needle| <= |hay| && hay[..|needle|] == needle
  {
    if |needle| <= |hay| {
      assert hay[0..|needle|] == hay[..|needle|];
    }
  }

  /** An occurrence in the tail is an occurrence one position later in the whole. */
  lemma OccursInTail(hay: string, needle: string, i: int)
    requires |hay| > 0 && 0 <= i
    ensures OccursAt(hay[1..], needle, i) <==> OccursAt(hay, needle, i + 1)
  {
    if 0 <= i <= |hay| - 1 - |needle| {
      assert hay[1..][i..i + |needle|] == hay[i + 1..i + 1 + |needle|];
    }
  }

  /** `Includes` decides exactly the substring relation. */
  lemma {:induction false} IncludesIsSubstring(hay: string, needle: string)
    ensures Includes(hay, needle) <==> Occurs(hay, needle)
    decreases |hay|
  {
    OccursAtStart(hay, needle);
    if |needle| <= |hay| && hay[..|needle|] == needle {
      assert OccursAt(hay, needle, 0);
    } else if |hay| == 0 {
    } else {
      IncludesIsSubstring(hay[1..], needle);
      if Occurs(hay[1..], needle) {
        var i :| OccursAt(hay[1..], needle, i);
        OccursInTail(hay, needle, i);
      }
      if Occurs(hay, needle) {
        var j :| OccursAt(hay, needle, j);
        OccursInTail(hay, needle, j - 1);
        assert OccursAt(hay[1..], needle, j - 1);
      }
    }
  }

  /** The decimal digit character for `d`. */
  function DigitChar(d: nat): char
    requires d < 10
  {
    "0123456789"[d]
  }

  predicate IsDigit(c: char) {
    '0' <= c <= '9'
  }

  /** The value of a decimal digit character. */
  function DigitValue(c: char): (d: nat)
    requires IsDigit(c)
    ensures d < 10 && DigitChar(d) == c
  {
    (c as int - '0' as int)
  }

  /** Decimal digits of `n`, most significant first, without leading zeros. */
  function NatToString(n: nat): (r: string)
    ensures 1 <= |r|
    ensures forall i :: 0 <= i < |r| ==> IsDigit(r[i])
    ensures |r| > 1 ==> r[0] != '0'
    decreases n
  {
    if n < 10 then [DigitChar(n)] else NatToString(n / 10) + [DigitChar(n % 10)]
  }

  /**
   `n.toString()` for an integer-valued number: an optional minus sign
   followed by the digits of the magnitude.
   */
  function IntToString(n: int): (r: string)
    ensures 1 <= |r|
    ensures n < 0 <==> r[0] == '-'
  {
    if n < 0 then "-" + NatToString(-n) else NatToString(n)
  }

  /** Reads a non-empty string of decimal digits. */
  function ParseNat(s: string): nat
    requires forall i :: 0 <= i < |s| ==> IsDigit(s[i])
    decreases |s|
  {
    if |s| == 0 then 0 else ParseNat(s[..|s| - 1]) * 10 + DigitValue(s[|s| - 1])
  }

  /** An optional leading minus sign followed by decimal digits. */
  predicate IsNumeral(s: string) {
    1 <= |s| && forall i :: 0 <= i < |s| ==> IsDigit(s[i]) || (i == 0 && s[i] == '-')
  }

  /** Reads what `IntToString` writes. */
  function ParseInt(s: string): int
    requires IsNumeral(s)
  {
    if s[0] == '-' then -(ParseNat(s[1..]) as int) else ParseNat(s) as int
  }

  lemma {:induction false} ParseNatToString(n: nat)
    ensures ParseNat(NatToString(n)) == n
    decreases n
  {
    if n >= 10 {
      var r := NatToString(n);
      ParseNatToString(n / 10);
      assert r[..|r| - 1] == NatToString(n / 10);
      assert DigitValue(r[|r| - 1]) == n % 10;
    }
  }

  /** The rendering of a negative number is a minus sign followed by digits. */
  lemma NegativeIsNumeral(d: string)
    requires 1 <= |d| && forall i :: 0 <= i < |d| ==> IsDigit(d[i])
    ensures IsNumeral("-" + d) && ("-" + d)[1..] == d
  {
    var r := "-" + d;
    forall i | 0 <= i < |r|
      ensures IsDigit(r[i]) || (i == 0 && r[i] == '-')
    {
      if i > 0 {
        assert r[i] == d[i - 1];
      }
    }
  }

  /** The decimal rendering of an id loses nothing: reading it back gives the id. */
  lemma ParseIntToString(n: int)
    ensures IsNumeral(IntToString(n))
    ensures ParseInt(IntToString(n)) == n
  {
    if n < 0 {
      NegativeIsNumeral(NatToString(-n));
      ParseNatToString(-n);
    } else {
      ParseNatToString(n);
    }
  }

  /** `stringToBoolean`: `"true"` reads as true, `"false"` as false. */
  function StringToBoolean(s: string): (b: bool)
    ensures s == "true" ==> b
    ensures s == "false" ==> !b
  {
    s == "true"
  }
}
