/** `strconv`: printing and parsing of integers. */
module Numbers {
  import opened Options
  import opened Text

  function DigitChar(d: nat): char
    requires d < 10
  {
    ('0' as int + d) as char
  }

  function Decimal(n: nat): (s: string)
    ensures |s| > 0 && forall c :: c in s ==> '0' <= c <= '9'
    ensures n > 0 ==> s[0] != '0'
  {
    if n < 10 then [DigitChar(n)] else Decimal(n / 10) + [DigitChar(n % 10)]
  }

  /** `strconv.Itoa`, and `%d`. */
  function Itoa(n: int): string { if n < 0 then "-" + Decimal(-n) else Decimal(n) }

  function DigitValue(c: char): Option<nat> {
    if '0' <= c <= '9' then Some(c as int - '0' as int)
    else if 'a' <= c <= 'z' then Some(c as int - 'a' as int + 10)
    else if 'A' <= c <= 'Z' then Some(c as int - 'A' as int + 10)
    else None
  }

  /** The value of digits in a base; `None` on a character that is not a digit of that base. */
  function Value(base: nat, s: string): Option<nat> {
    if s == [] then Some(0)
    else match (Value(base, s[..|s| - 1]), DigitValue(s[|s| - 1]))
      case (Some(v), Some(d)) => if d < base then Some(v * base + d) else None
      case _ => None
  }

  /** Only digits of the base have a value. */
  lemma {:induction false} ValueDigits(base: nat, s: string)
    requires Value(base, s).Some?
    ensures forall c :: c in s ==> DigitValue(c).Some? && DigitValue(c).value < base
  {
    if s != [] {
      ValueDigits(base, s[..|s| - 1]);
      assert forall c :: c in s <==> c in s[..|s| - 1] || c == s[|s| - 1];
    }
  }

  /** `strconv.ParseUint` with an explicit base: no prefix, no underscores. */
  function ParseUint(s: string, base: nat, limit: nat): Option<nat> {
    if s == [] then None
    else match Value(base, s)
      case Some(v) => if v < limit then Some(v) else None
      case None => None
  }

  function Lower(c: char): char { if 'A' <= c <= 'Z' then (c as int + 32) as char else c }

  /** The base a numeral of base zero announces, and the length of its prefix. */
  function BaseOf(s: string): (nat, nat) {
    if s == [] || s[0] != '0' then (10, 0)
    else if |s| >= 3 && Lower(s[1]) == 'b' then (2, 2)
    else if |s| >= 3 && Lower(s[1]) == 'o' then (8, 2)
    else if |s| >= 3 && Lower(s[1]) == 'x' then (16, 2)
    else (8, 1)
  }

  function WithoutUnderscores(s: string): string {
    if s == [] then [] else (if s[0] == '_' then [] else [s[0]]) + WithoutUnderscores(s[1..])
  }

  /** Underscores separate digits; the prefix counts as a digit. */
  predicate UnderscoresOk(s: string, afterDigit: bool) {
    if s == [] then true
    else if s[0] == '_' then afterDigit && |s| > 1 && s[1] != '_' && UnderscoresOk(s[1..], false)
    else UnderscoresOk(s[1..], true)
  }

  function ParseUintAnyBase(s: string): Option<nat> {
    var (base, prefix) := BaseOf(s);
    if s == [] || prefix > |s| then None
    else if !UnderscoresOk(s[if prefix == 2 then 2 else 0..], prefix == 2) then None
    else Value(base, WithoutUnderscores(s[prefix..]))
  }

  const INT_LIMIT := 0x8000_0000_0000_0000

  /** `strconv.ParseInt(s, 0, 64)`, the parser of integer flags. */
  function ParseInt(s: string): (n: Option<int>)
    ensures n.Some? ==> -INT_LIMIT <= n.value < INT_LIMIT
  {
    var negative := s != [] && s[0] == '-';
    var body := if s != [] && (s[0] == '-' || s[0] == '+') then s[1..] else s;
    match ParseUintAnyBase(body)
    case None => None
    case Some(v) =>
      var n: int := if negative then 0 - (v as int) else v as int;
      if -INT_LIMIT <= n < INT_LIMIT then Some(n) else None
  }

  lemma {:induction false} ValueOfDecimal(n: nat)
    ensures Value(10, Decimal(n)) == Some(n)
  {
    var s := Decimal(n);
    if n < 10 {
      assert s[..|s| - 1] == [];
    } else {
      ValueOfDecimal(n / 10);
      assert s[..|s| - 1] == Decimal(n / 10);
    }
  }

  lemma {:induction false} PlainDigits(s: string, afterDigit: bool)
    requires '_' !in s
    ensures WithoutUnderscores(s) == s && UnderscoresOk(s, afterDigit)
  {
    if s != [] {
      assert s[0] in s;
      PlainDigits(s[1..], true);
    }
  }

  lemma ParseIntOfItoa(n: nat)
    requires 0 < n < INT_LIMIT
    ensures ParseInt(Itoa(n)) == Some(n)
  {
    var s := Decimal(n);
    assert s[0] in s;
    ValueOfDecimal(n);
    PlainDigits(s, false);
    assert s[0..] == s;
  }

  lemma DecimalInjective(m: nat, n: nat)
    requires Decimal(m) == Decimal(n)
    ensures m == n
  {
    ValueOfDecimal(m);
    ValueOfDecimal(n);
  }

  lemma SignShows(n: int)
    ensures Itoa(n)[0] == '-' <==> n < 0
    ensures n < 0 ==> Itoa(n)[1..] == Decimal(-n)
  {
    if n >= 0 {
      assert Decimal(n)[0] in Decimal(n);
    }
  }

  /** Different numbers print differently. */
  lemma ItoaInjective(m: int, n: int)
    requires Itoa(m) == Itoa(n)
    ensures m == n
  {
    SignShows(m);
    SignShows(n);
    if m < 0 {
      DecimalInjective(-m, -n);
    } else {
      DecimalInjective(m, n);
    }
  }
}
