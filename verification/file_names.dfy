/** The on-disk name of a stored event, `<position>.json`, and its inverse.
    A position is rendered as JavaScript renders an integer in a template
    string: optional minus sign, then decimal digits without leading zeros. */
module FileNames {
  import opened Types

  const JsonSuffix: string := ".json"

  predicate EndsWith(s: string, suffix: string) {
    |suffix| <= |s| && s[|s| - |suffix|..] == suffix
  }

  predicate IsDigit(c: char) {
    '0' <= c <= '9'
  }

  predicate AllDigits(s: string) {
    forall i :: 0 <= i < |s| ==> IsDigit(s[i])
  }

  function DigitChar(d: nat): (c: char)
    requires d < 10
    ensures IsDigit(c)
  {
    ('0' as int + d) as char
  }

  function DigitValue(c: char): nat
    requires IsDigit(c)
  {
    c as int - '0' as int
  }

  /** Decimal digits of `n`, most significant first. */
  function NatToString(n: nat): (s: string)
    ensures |s| > 0 && AllDigits(s)
  {
    if n < 10 then [DigitChar(n)] else NatToString(n / 10) + [DigitChar(n % 10)]
  }

  function IntToString(i: int): string {
    if i < 0 then "-" + NatToString(-i) else NatToString(i)
  }

  /** The file an event at `position` is written to. */
  function FileName(position: int): (name: string)
    ensures EndsWith(name, JsonSuffix)
  {
    var name := IntToString(position) + JsonSuffix;
    assert name[|name| - |JsonSuffix|..] == JsonSuffix;
    name
  }

  /** The value of a string of decimal digits. */
  function DigitsValue(s: string): nat
    requires AllDigits(s)
  {
    if |s| == 0 then 0 else DigitsValue(s[..|s| - 1]) * 10 + DigitValue(s[|s| - 1])
  }

  function ParseNat(s: string): Option<nat> {
    if |s| > 0 && AllDigits(s) then Some(DigitsValue(s)) else None
  }

  function ParseInt(s: string): Option<int> {
    if |s| > 0 && s[0] == '-' then
      match ParseNat(s[1..])
      case Some(n) => Some(-(n as int))
      case None => None
    else
      match ParseNat(s)
      case Some(n) => Some(n)
      case None => None
  }

  /** The position a file name stands for, if it is of the form `<integer>.json`. */
  function PositionOf(name: string): Option<int> {
    if EndsWith(name, JsonSuffix) then ParseInt(name[..|name| - |JsonSuffix|]) else None
  }

  lemma {:induction false} DigitsRoundTrip(n: nat)
    ensures DigitsValue(NatToString(n)) == n
  {
    if n >= 10 {
      DigitsRoundTrip(n / 10);
      var s := NatToString(n);
      assert s[..|s| - 1] == NatToString(n / 10);
    }
  }

  /** Reading the position back from the file name gives the position. */
  lemma FileNameRoundTrip(position: int)
    ensures PositionOf(FileName(position)) == Some(position)
  {
    var name := FileName(position);
    assert name[..|name| - |JsonSuffix|] == IntToString(position);
    if position < 0 {
      DigitsRoundTrip(-position);
      assert IntToString(position)[1..] == NatToString(-position);
    } else {
      DigitsRoundTrip(position);
      assert IsDigit(NatToString(position)[0]);
    }
  }

  /** Distinct positions are stored in distinct files, so a file collision is
      exactly a position collision. */
  lemma FileNameInjective(p: int, q: int)
    ensures FileName(p) == FileName(q) <==> p == q
  {
    FileNameRoundTrip(p);
    FileNameRoundTrip(q);
  }
}
