/** The `StrikeRange` argument converter of the moderation commands: a strike
    count given as text is accepted when Python's `int()` reads it as an
    integer from 0 to 16, and anything else is a `BadArgument`. */
module StrikeRange {
  import opened Options

  const MaxStrikes := 16

  datatype Converted = Accepted(strikes: int) | BadArgument

  predicate IsDigit(c: char) { '0' <= c <= '9' }

  /** The ASCII characters Python's `str.strip()` removes. */
  predicate IsSpace(c: char) {
    c == ' ' || (9 <= c as int <= 13) || (28 <= c as int <= 31)
  }

  function StripLeft(s: string): string {
    if s != [] && IsSpace(s[0]) then StripLeft(s[1..]) else s
  }

  function StripRight(s: string): string {
    if s != [] && IsSpace(s[|s| - 1]) then StripRight(s[..|s| - 1]) else s
  }

  /** The digit part of a base-10 literal: digits, with single underscores
      allowed between two digits. */
  predicate WellFormedDigits(s: string) {
    && s != []
    && IsDigit(s[0]) && IsDigit(s[|s| - 1])
    && (forall i :: 0 <= i < |s| ==> IsDigit(s[i]) || s[i] == '_')
    && (forall i :: 0 <= i < |s| - 1 ==> !(s[i] == '_' && s[i + 1] == '_'))
  }

  /** The value of a digit string, underscores ignored. */
  function DigitsValue(s: string): nat {
    if s == [] then 0
    else if IsDigit(s[|s| - 1]) then DigitsValue(s[..|s| - 1]) * 10 + (s[|s| - 1] as int - '0' as int)
    else DigitsValue(s[..|s| - 1])
  }

  /** `int(s)` for base 10: surrounding whitespace, an optional sign, then digits. */
  function ParseInt(s: string): Option<int> {
    var t := StripRight(StripLeft(s));
    if t == [] then None
    else
      var negative := t[0] == '-';
      var body := if t[0] == '-' || t[0] == '+' then t[1..] else t;
      if WellFormedDigits(body) then
        var magnitude: int := DigitsValue(body);
        Some(if negative then -magnitude else magnitude)
      else None
  }

  /** `StrikeRange.convert` */
  function Convert(argument: string): (r: Converted)
    ensures r.Accepted? ==> 0 <= r.strikes <= MaxStrikes
    ensures r.Accepted? ==> ParseInt(argument) == Some(r.strikes)
    ensures argument == [] ==> r == BadArgument
  {
    if argument == [] then BadArgument
    else match ParseInt(argument)
      case None => BadArgument
      case Some(n) => if 0 <= n <= MaxStrikes then Accepted(n) else BadArgument
  }

  /** Python's `str(n)` for an integer. */
  function Decimal(n: int): string {
    if n < 0 then "-" + NatDigits(-n) else NatDigits(n)
  }

  function NatDigits(n: nat): (r: string)
    ensures r != [] && IsDigit(r[0])
    decreases n
  {
    if n < 10 then [('0' as int + n) as char]
    else NatDigits(n / 10) + [('0' as int + n % 10) as char]
  }

  lemma {:induction false} NatDigitsRoundTrip(n: nat)
    ensures WellFormedDigits(NatDigits(n))
    ensures forall i :: 0 <= i < |NatDigits(n)| ==> IsDigit(NatDigits(n)[i])
    ensures DigitsValue(NatDigits(n)) == n
    decreases n
  {
    var d := NatDigits(n);
    if n >= 10 {
      NatDigitsRoundTrip(n / 10);
      assert d[..|d| - 1] == NatDigits(n / 10);
    }
  }

  /** Writing a count out in decimal and converting it back gives the count
      when it lies in 0..16, and `BadArgument` for every other integer. */
  lemma DecimalConverts(n: int)
    ensures Convert(Decimal(n)) == if 0 <= n <= MaxStrikes then Accepted(n) else BadArgument
  {
    var s := Decimal(n);
    var m: nat := if n < 0 then -n else n;
    NatDigitsRoundTrip(m);
    var t := NatDigits(m);
    assert StripLeft(s) == s;
    assert StripRight(s) == s by {
      assert s[|s| - 1] == t[|t| - 1];
    }
    if n < 0 {
      assert s[0] == '-' && s[1..] == t;
    } else {
      assert s == t;
    }
    assert ParseInt(s) == Some(n);
  }
}
