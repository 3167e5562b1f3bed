/** Decimal text as `fmt`'s %d writes it and `strconv` reads it. */
module Decimal {
  import opened Bytes

  const PLUS: byte := '+' as byte
  const MINUS: byte := '-' as byte
  const ZERO: byte := '0' as byte
  const NINE: byte := '9' as byte

  predicate IsDigit(b: byte) {
    ZERO <= b <= NINE
  }

  predicate AllDigits(s: bytes) {
    forall i | 0 <= i < |s| :: IsDigit(s[i])
  }

  /** Number spelled by a run of digits. */
  function DigitsValue(s: bytes): nat
    requires AllDigits(s)
  {
    if s == [] then 0 else 10 * DigitsValue(s[..|s| - 1]) + (s[|s| - 1] as int - ZERO as int)
  }

  /** The shortest decimal spelling of a natural number. */
  function Digits(n: nat): (s: bytes)
    ensures |s| > 0 && AllDigits(s)
  {
    var last := [(ZERO as int + n % 10) as byte];
    if n < 10 then last else Digits(n / 10) + last
  }

  function DecimalText(n: int): bytes {
    if n < 0 then [MINUS] + Digits(-n) else Digits(n)
  }

  /** strconv.ParseInt(s, 10, 64) and strconv.Atoi: optional sign, at least one
      digit, and the value must fit 64 bits.  Syntax and range errors are not
      told apart. */
  function ParseInt(s: bytes): (r: Option<int64>)
    ensures r.Some? && AllDigits(s) ==> r.value >= 0
  {
    var negative := |s| > 0 && s[0] == MINUS;
    var digits := if |s| > 0 && (s[0] == PLUS || s[0] == MINUS) then s[1..] else s;
    if digits == [] || !AllDigits(digits) then None
    else
      var n := if negative then 0 - DigitsValue(digits) else DigitsValue(digits);
      if -MAX_INT - 1 <= n <= MAX_INT then Some(n) else None
  }

  lemma {:induction false} DigitsValueOfDigits(n: nat)
    ensures DigitsValue(Digits(n)) == n
  {
    if n < 10 {
      assert Digits(n)[..0] == [];
    } else {
      DigitsValueOfDigits(n / 10);
      assert Digits(n)[..|Digits(n)| - 1] == Digits(n / 10);
    }
  }

  /** Every 64-bit integer survives being printed and parsed. */
  lemma ParseIntOfDecimal(n: int64)
    ensures ParseInt(DecimalText(n)) == Some(n)
  {
    var m: nat := if n < 0 then 0 - n else n;
    DigitsValueOfDigits(m);
    assert IsDigit(Digits(m)[0]);
    if n < 0 {
      assert DecimalText(n)[1..] == Digits(m);
    }
  }

  lemma ParseIntOfDigits(n: int64)
    requires n >= 0
    ensures ParseInt(Digits(n)) == Some(n)
  {
    ParseIntOfDecimal(n);
  }

  /** No run of digits is shorter than the canonical spelling of its value. */
  lemma {:induction false} DigitsShortest(s: bytes)
    requires |s| > 0 && AllDigits(s)
    ensures |Digits(DigitsValue(s))| <= |s|
  {
    var init := s[..|s| - 1];
    if init == [] {
      assert DigitsValue(s) < 10;
    } else {
      DigitsShortest(init);
      assert DigitsValue(s) / 10 == DigitsValue(init);
    }
  }

  /** Nor is any accepted integer text, whatever its sign and leading zeros. */
  lemma DecimalShortest(s: bytes)
    requires ParseInt(s).Some?
    ensures |DecimalText(ParseInt(s).value)| <= |s|
  {
    var digits := if s[0] == PLUS || s[0] == MINUS then s[1..] else s;
    DigitsShortest(digits);
  }

  /** The reader is more liberal than the writer: any number of leading zeros may come
      before the digits, and a plus sign before those. */
  lemma LiberalSpellings(n: int64, zeros: nat)
    ensures var padded := Zeros(zeros) + Digits(if n < 0 then 0 - n else n);
            && (n >= 0 ==> ParseInt(padded) == Some(n) && ParseInt([PLUS] + padded) == Some(n))
            && (n <= 0 ==> ParseInt([MINUS] + padded) == Some(n))
  {
    var m: nat := if n < 0 then 0 - n else n;
    hide Digits, DigitsValue, Zeros;
    var padded := Zeros(zeros) + Digits(m);
    PaddedValue(zeros, Digits(m));
    DigitsValueOfDigits(m);
    assert AllDigits(padded) && IsDigit(padded[0]);
    assert ([PLUS] + padded)[1..] == padded == ([MINUS] + padded)[1..];
  }

  function Zeros(n: nat): (s: bytes)
    ensures AllDigits(s)
  {
    seq(n, _ => ZERO)
  }

  lemma {:induction false} PaddedValue(zeros: nat, s: bytes)
    requires AllDigits(s)
    ensures DigitsValue(Zeros(zeros) + s) == DigitsValue(s)
    decreases |s| + zeros
  {
    var padded := Zeros(zeros) + s;
    if s != [] {
      assert padded[..|padded| - 1] == Zeros(zeros) + s[..|s| - 1];
      PaddedValue(zeros, s[..|s| - 1]);
    } else if zeros > 0 {
      assert padded[..|padded| - 1] == Zeros(zeros - 1) + s;
      PaddedValue(zeros - 1, s);
    }
  }

  /** A run of digits is the shortest spelling of its value behind zeros. */
  lemma {:induction false} DigitsPadded(s: bytes)
    requires |s| > 0 && AllDigits(s)
    ensures |Digits(DigitsValue(s))| <= |s|
    ensures s == Zeros(|s| - |Digits(DigitsValue(s))|) + Digits(DigitsValue(s))
  {
    DigitsShortest(s);
    var init, last := s[..|s| - 1], s[|s| - 1];
    var n := DigitsValue(s);
    assert s == init + [last];
    if init == [] {
      assert n < 10 && Digits(n) == [last];
      assert s == Zeros(0) + Digits(n);
    } else {
      DigitsPadded(init);
      assert n / 10 == DigitsValue(init) && n % 10 == last as int - ZERO as int;
      if n >= 10 {
        assert Digits(n) == Digits(n / 10) + [last];
      } else {
        assert DigitsValue(init) == 0 && Digits(0) == [ZERO];
        assert Digits(n) == [last];
        assert init == Zeros(|init| - 1) + [ZERO];
        assert init == Zeros(|init|);
      }
    }
  }

  /** The text of `n` with zeros in front of the digits, bare or behind a sign. */
  predicate SpellsNumber(s: bytes, n: int64, zeros: nat) {
    var padded := Zeros(zeros) + Digits(if n < 0 then 0 - n else n);
    || (n >= 0 && (s == padded || s == [PLUS] + padded))
    || (n <= 0 && s == [MINUS] + padded)
  }

  /** Exactly these texts are read as `n`. */
  lemma ParseIntIff(s: bytes, n: int64)
    ensures ParseInt(s) == Some(n) <==> exists zeros :: SpellsNumber(s, n, zeros)
  {
    hide Digits, DigitsValue, Zeros;
    if ParseInt(s) == Some(n) {
      var digits := if s[0] == PLUS || s[0] == MINUS then s[1..] else s;
      DigitsPadded(digits);
      assert s[0] == PLUS || s[0] == MINUS ==> s == [s[0]] + digits;
      assert SpellsNumber(s, n, |digits| - |Digits(DigitsValue(digits))|);
    }
    if zeros :| SpellsNumber(s, n, zeros) {
      LiberalSpellings(n, zeros);
    }
  }
}
