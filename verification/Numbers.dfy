/** Decimal numbers as `strconv.Itoa` writes them and `strconv.Atoi` reads them, for a 64-bit `int`. */
module Numbers {
  import opened Wrappers

  const MIN_INT: int := -0x8000_0000_0000_0000
  const MAX_INT: int := 0x7FFF_FFFF_FFFF_FFFF

  predicate Fits(n: int) { MIN_INT <= n <= MAX_INT }

  /** The source's `int`. */
  type Int = n: int | Fits(n)

  /** What a 64-bit register keeps of an arithmetic result. */
  function Wrap(n: int): (r: int)
    ensures Fits(r) && (r == n <==> Fits(n)) && (n - r) % 0x1_0000_0000_0000_0000 == 0
  {
    (n - MIN_INT) % 0x1_0000_0000_0000_0000 + MIN_INT
  }

  predicate IsDigit(c: char) { '0' <= c <= '9' }

  function DigitOf(d: nat): (c: char)
    requires d < 10
    ensures IsDigit(c) && c as int - '0' as int == d
  {
    ('0' as int + d) as char
  }

  /** The digits of `n`, and at least one. */
  function Digits(n: nat): (s: string)
    ensures s != "" && IsDigit(s[|s| - 1])
  {
    if n < 10 then [DigitOf(n)] else Digits(n / 10) + [DigitOf(n % 10)]
  }

  function Itoa(n: int): string {
    if n < 0 then "-" + Digits(-n) else Digits(n)
  }

  predicate AllDigits(s: string) {
    s == "" || (IsDigit(s[|s| - 1]) && AllDigits(s[..|s| - 1]))
  }

  function ValueOf(s: string): nat
    requires AllDigits(s)
  {
    if s == "" then 0 else 10 * ValueOf(s[..|s| - 1]) + (s[|s| - 1] as int - '0' as int)
  }

  function Magnitude(s: string): Option<nat> {
    if s != "" && AllDigits(s) then Some(ValueOf(s)) else None
  }

  function Signed(negative: bool, magnitude: nat): int {
    var m: int := magnitude;
    if negative then -m else m
  }

  function Ranged(n: int): Option<int> { if Fits(n) then Some(n) else None }

  /** One optional sign, then digits only; `None` for the source's syntax and range errors. */
  function Atoi(s: string): Option<int> {
    if s == "" then None
    else if s[0] == '-' || s[0] == '+' then
      var m := Magnitude(s[1..]);
      if m == None then None else Ranged(Signed(s[0] == '-', m.value))
    else
      var m := Magnitude(s);
      if m == None then None else Ranged(m.value)
  }

  lemma {:induction false} ReadDigits(n: nat)
    ensures AllDigits(Digits(n)) && ValueOf(Digits(n)) == n && IsDigit(Digits(n)[0])
  {
    if n < 10 {
      assert [DigitOf(n)][..0] == "";
    } else {
      ReadDigits(n / 10);
      var s := Digits(n);
      assert s[..|s| - 1] == Digits(n / 10);
    }
  }

  lemma {:induction false} DigitsAre(n: nat)
    ensures forall c :: c in Digits(n) ==> IsDigit(c)
  {
    if n >= 10 { DigitsAre(n / 10); }
  }

  /** What is read: a sign or none, and then digits and nothing else; a number that the integer type cannot hold is
      not read. */
  lemma AtoiMeans(s: string, n: nat)
    requires s != "" && AllDigits(s) && ValueOf(s) == n
    ensures Atoi("+" + s) == Ranged(n) && Atoi("-" + s) == Ranged(Signed(true, n)) && Atoi(s) == Ranged(n)
    ensures Ranged(n).Some? <==> n <= 0x7FFF_FFFF_FFFF_FFFF
    ensures Ranged(Signed(true, n)).Some? <==> n <= 0x8000_0000_0000_0000
    ensures Ranged(Signed(true, n)).Some? ==> Ranged(Signed(true, n)).value + n == 0
  {
    assert ("+" + s)[1..] == s && ("-" + s)[1..] == s;
    DigitFirst(s);
  }

  lemma {:induction false} DigitFirst(s: string)
    requires s != "" && AllDigits(s)
    ensures IsDigit(s[0])
  {
    if |s| > 1 { DigitFirst(s[..|s| - 1]); }
  }

  /** Reading undoes writing. */
  lemma AtoiInvertsItoa(n: int)
    requires Fits(n)
    ensures Atoi(Itoa(n)) == Some(n)
  {
    ReadDigits(if n < 0 then -n else n);
    if n < 0 { assert Itoa(n)[1..] == Digits(-n); }
  }

  /** Different numbers are written differently. */
  lemma DigitsInjective(m: nat, n: nat)
    requires Digits(m) == Digits(n)
    ensures m == n
  {
    ReadDigits(m);
    ReadDigits(n);
  }
}
