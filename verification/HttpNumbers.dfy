/** std::stoi, as the header handlers use it: the number at the front of a text, or an exception. */
module HttpNumbers {
  import opened HttpSpec

  const DIGITS := set c: char | '0' <= c <= '9'
  const SPACES := {' ', '\t', '\n', '\U{B}', '\U{C}', '\r'}
  const INT_MIN := -0x8000_0000
  const INT_MAX := 0x7fff_ffff

  predicate AllDigits(s: string) { forall i :: 0 <= i < |s| ==> '0' <= s[i] <= '9' }

  function Value(digits: string): (n: int)
    requires AllDigits(digits)
    ensures n >= 0
  {
    if digits == "" then 0
    else
      var n := |digits| - 1;
      10 * Value(digits[..n]) + (digits[n] as int - '0' as int)
  }

  /** The digits at the front of a text. */
  function Leading(s: string): (d: string)
    ensures AllDigits(d) && d <= s
    ensures |d| < |s| ==> !('0' <= s[|d|] <= '9')
  {
    Spans(s, DIGITS);
    s[..Span(s, DIGITS)]
  }

  /** What is left of a text after white space. */
  function Trimmed(s: string): string { s[Span(s, SPACES)..] }

  predicate Signed(t: string) { t != "" && (t[0] == '-' || t[0] == '+') }

  function Unsigned(t: string): string { if Signed(t) then t[1..] else t }

  predicate Negative(t: string) { t != "" && t[0] == '-' }

  /** None is an exception: std::invalid_argument or std::out_of_range. */
  function ToInt(s: string): Option<int> { FromDigits(Leading(Unsigned(Trimmed(s))), Negative(Trimmed(s))) }

  function FromDigits(d: string, negative: bool): Option<int>
    requires AllDigits(d)
  {
    if d == "" then None
    else
      var n := if negative then -Value(d) else Value(d);
      if INT_MIN <= n <= INT_MAX then Some(n) else None
  }

  /** A text from which std::stoi gets a number: white space, perhaps a sign, then a digit, and no more than an int. */
  predicate Numeric(s: string) {
    var u := Unsigned(Trimmed(s));
    && u != "" && '0' <= u[0] <= '9'
    && Value(Leading(u)) <= if Negative(Trimmed(s)) then -INT_MIN else INT_MAX
  }

  lemma NumericIff(s: string)
    ensures ToInt(s).Some? <==> Numeric(s)
  {}

  // ----- Printing a number and reading it back -----

  function Decimal(n: nat): (s: string)
    ensures s != "" && AllDigits(s)
  {
    if n < 10 then [('0' as int + n) as char]
    else Decimal(n / 10) + [('0' as int + n % 10) as char]
  }

  function DecimalInt(n: int): string { if n < 0 then "-" + Decimal(-n) else Decimal(n) }

  lemma {:induction false} ValueOfDecimal(n: nat)
    ensures Value(Decimal(n)) == n
  {
    if n < 10 {
      assert Value(Decimal(n)[..0]) == 0;
    } else {
      var s := Decimal(n);
      ValueOfDecimal(n / 10);
      assert s[..|s| - 1] == Decimal(n / 10);
    }
  }

  lemma LeadingDigits(d: string, rest: string)
    requires AllDigits(d) && (rest == "" || !('0' <= rest[0] <= '9'))
    ensures Leading(d + rest) == d
  {
    var s, got := d + rest, Leading(d + rest);
    assert forall i :: 0 <= i < |d| ==> s[i] == d[i];
    assert rest != "" ==> s[|d|] == rest[0];
    assert got == s[..|got|] && d == s[..|d|];
  }

  /** A text that begins with a digit or a sign. */
  lemma NoSpace(s: string)
    requires s != "" && ('0' <= s[0] <= '9' || Signed(s))
    ensures Trimmed(s) == s
  {
    Spans(s, SPACES);
  }

  /** The parts std::stoi sees in a printed number u, perhaps with a sign in front. */
  lemma PartsOf(s: string, u: string, negative: bool)
    requires u != "" && '0' <= u[0] <= '9' && s == if negative then ['-'] + u else u
    ensures Trimmed(s) == s && Unsigned(s) == u && Negative(s) == negative
  {
    NoSpace(s);
  }

  /** Every int printed in decimal, whatever follows it that is not a digit, is read back. */
  lemma ToIntRoundTrip(n: int, rest: string)
    requires INT_MIN <= n <= INT_MAX && (rest == "" || !('0' <= rest[0] <= '9'))
    ensures ToInt(DecimalInt(n) + rest) == Some(n)
  {
    var size := if n < 0 then -n else n;
    var d := Decimal(size);
    ValueOfDecimal(size);
    LeadingDigits(d, rest);
    Reassociate(n, d, rest);
    PartsOf(DecimalInt(n) + rest, d + rest, n < 0);
  }

  lemma Reassociate(n: int, d: string, rest: string)
    requires d == Decimal(if n < 0 then -n else n)
    ensures DecimalInt(n) + rest == if n < 0 then ['-'] + (d + rest) else d + rest
  {}

  // ----- Exactly what is read as a number -----

  /** A text taken apart: white space, perhaps a sign, digits, and a rest that does not begin with a digit. */
  datatype Numeral = Numeral(space: string, sign: string, digits: string, rest: string)

  predicate White(c: char) { c == ' ' || c == '\t' || c == '\n' || c == '\U{B}' || c == '\U{C}' || c == '\r' }

  predicate Reads(s: string, p: Numeral, n: int) {
    && s == p.space + (p.sign + (p.digits + p.rest)) && (forall i :: 0 <= i < |p.space| ==> White(p.space[i]))
    && (p.sign == "" || p.sign == "+" || p.sign == "-")
    && p.digits != "" && AllDigits(p.digits) && (p.rest == "" || !('0' <= p.rest[0] <= '9'))
    && n == (if p.sign == "-" then -Value(p.digits) else Value(p.digits))
    && -0x8000_0000 <= n <= 0x7fff_ffff
  }

  lemma TrimmedIs(space: string, t: string)
    requires (forall i :: 0 <= i < |space| ==> White(space[i])) && t != "" && !White(t[0])
    ensures Trimmed(space + t) == t
  {
    var s := space + t;
    Spans(s, SPACES);
    assert s[|space|] == t[0] && s[|space|..] == t;
  }

  /** A sign in front of a digit. */
  lemma SignTaken(sign: string, u: string, t: string)
    requires (sign == "" || sign == "+" || sign == "-") && t == sign + u && u != "" && '0' <= u[0] <= '9'
    ensures t != "" && !White(t[0]) && Unsigned(t) == u && Negative(t) == (sign == "-")
  {
    assert t[0] == (if sign == "" then u[0] else sign[0]);
    assert sign != "" ==> t[1..] == u;
    assert sign == "" ==> t == u;
  }

  lemma ReadAs(s: string, t: string, u: string, d: string, n: int)
    requires Trimmed(s) == t && Unsigned(t) == u && Leading(u) == d != "" && INT_MIN <= n <= INT_MAX
    requires n == if Negative(t) then -Value(d) else Value(d)
    ensures ToInt(s) == Some(n)
  {}

  /** Text of that form is read as that number. */
  lemma FormRead(s: string, p: Numeral, n: int)
    requires Reads(s, p, n)
    ensures ToInt(s) == Some(n)
  {
    var u := p.digits + p.rest;
    var t := p.sign + u;
    assert u[0] == p.digits[0];
    SignTaken(p.sign, u, t);
    TrimmedIs(p.space, t);
    LeadingDigits(p.digits, p.rest);
    ReadAs(s, t, u, p.digits, n);
  }

  lemma SpaceSplit(s: string) returns (space: string, t: string)
    ensures s == space + t && t == Trimmed(s) && forall i :: 0 <= i < |space| ==> White(space[i])
  {
    Spans(s, SPACES);
    var k := Span(s, SPACES);
    space, t := s[..k], s[k..];
  }

  lemma SignSplit(t: string) returns (sign: string)
    ensures t == sign + Unsigned(t) && (sign == "" || sign == "+" || sign == "-") && Negative(t) == (sign == "-")
  {
    sign := if Signed(t) then [t[0]] else "";
  }

  lemma ReadFrom(s: string, t: string, u: string, d: string, n: int)
    requires ToInt(s) == Some(n) && t == Trimmed(s) && u == Unsigned(t) && d == Leading(u)
    ensures d != "" && INT_MIN <= n <= INT_MAX && n == if Negative(t) then -Value(d) else Value(d)
  {}

  /** And whatever is read has that form. */
  lemma ReadForms(s: string, n: int) returns (p: Numeral)
    requires ToInt(s) == Some(n)
    ensures Reads(s, p, n)
  {
    var space, t := SpaceSplit(s);
    var sign := SignSplit(t);
    var u := Unsigned(t);
    var d := Leading(u);
    ReadFrom(s, t, u, d, n);
    var rest := DigitsSplit(u, d);
    p := Numeral(space, sign, d, rest);
    Assemble(s, p, t, u, n);
  }

  lemma DigitsSplit(u: string, d: string) returns (rest: string)
    requires d == Leading(u)
    ensures u == d + rest && AllDigits(d) && (rest == "" || !('0' <= rest[0] <= '9'))
  {
    rest := u[|d|..];
  }

  lemma Assemble(s: string, p: Numeral, t: string, u: string, n: int)
    requires s == p.space + t && t == p.sign + u && u == p.digits + p.rest
    requires (forall i :: 0 <= i < |p.space| ==> White(p.space[i])) && (p.sign == "" || p.sign == "+" || p.sign == "-")
    requires p.digits != "" && AllDigits(p.digits) && (p.rest == "" || !('0' <= p.rest[0] <= '9'))
    requires n == (if p.sign == "-" then -Value(p.digits) else Value(p.digits)) && INT_MIN <= n <= INT_MAX
    ensures Reads(s, p, n)
  {}

  /** std::stoi reads n from a text iff the text is white space, perhaps a sign, the digits of n, and something that is
      not a digit; and n is an int. */
  lemma ToIntIff(s: string, n: int)
    ensures ToInt(s) == Some(n) <==> exists p :: Reads(s, p, n)
  {
    if ToInt(s) == Some(n) {
      var p := ReadForms(s, n);
    }
    if exists p :: Reads(s, p, n) {
      var p :| Reads(s, p, n);
      FormRead(s, p, n);
    }
  }
}
