/** Exact stroop arithmetic: the decimal printer and parser, and the range-checked operations. */
module Money {
  import opened Wrappers

  const STROOPS_PER_XLM := 10_000_000
  const MAX_STROOPS := 1_000_000_000_000_000_000

  datatype MoneyError =
    | OutOfRange | Overflow | InvalidXlmString | DivideByZero

  function CheckRange(stroops: int): Result<int, MoneyError> {
    if stroops < 0 then Err(OutOfRange)
    else if stroops > MAX_STROOPS then Err(Overflow)
    else Ok(stroops)
  }

  // ----- decimal digits -----

  function Pow10(n: nat): nat {
    if n == 0 then 1 else 10 * Pow10(n - 1)
  }

  predicate IsDigit(c: char) {
    '0' <= c <= '9'
  }

  predicate AllDigits(s: string) {
    forall i :: 0 <= i < |s| ==> IsDigit(s[i])
  }

  function DigitChar(d: nat): char
    requires d < 10
  {
    '0' + d as char
  }

  function DigitValue(c: char): nat
    requires IsDigit(c)
  {
    (c - '0') as nat
  }

  /** BigInt.prototype.toString for a non-negative number. */
  function Decimal(n: nat): string {
    if n < 10 then [DigitChar(n)] else Decimal(n / 10) + [DigitChar(n % 10)]
  }

  /** BigInt(s) for a string of digits. */
  function Value(s: string): nat
    requires AllDigits(s)
  {
    if s == [] then 0 else 10 * Value(s[..|s| - 1]) + DigitValue(s[|s| - 1])
  }

  function Zeros(n: nat): string {
    seq(n, _ => '0')
  }

  function PadStart(s: string, n: nat): string {
    if |s| >= n then s else Zeros(n - |s|) + s
  }

  function PadEnd(s: string, n: nat): string {
    if |s| >= n then s else s + Zeros(n - |s|)
  }

  // ----- printing -----

  /** Seven decimals, as the Stellar SDK expects; rejects what is out of range. */
  function StroopsToXlmString(stroops: int): Result<string, MoneyError> {
    match CheckRange(stroops)
    case Err(e) => Err(e)
    case Ok(abs) =>
      Ok(Decimal(abs / STROOPS_PER_XLM) + "." + PadStart(Decimal(abs % STROOPS_PER_XLM), 7))
  }

  // ----- parsing -----

  /** White space and line terminators, as String.prototype.trim removes them. */
  predicate IsSpace(c: char) {
    || '\U{0009}' <= c <= '\U{000D}' || c == ' ' || c == '\U{00A0}' || c == '\U{1680}'
    || '\U{2000}' <= c <= '\U{200A}' || c == '\U{2028}' || c == '\U{2029}' || c == '\U{202F}'
    || c == '\U{205F}' || c == '\U{3000}' || c == '\U{FEFF}'
  }

  function TrimStart(s: string): string {
    if s != [] && IsSpace(s[0]) then TrimStart(s[1..]) else s
  }

  function TrimEnd(s: string): string {
    if s != [] && IsSpace(s[|s| - 1]) then TrimEnd(s[..|s| - 1]) else s
  }

  function Trim(s: string): string {
    TrimEnd(TrimStart(s))
  }

  /** The position of the first dot, or the length if there is none. */
  function DotIndex(s: string): (i: nat)
    ensures i <= |s|
    ensures i < |s| ==> s[i] == '.'
    ensures forall k :: 0 <= k < i ==> s[k] != '.'
  {
    if s == [] || s[0] == '.' then 0 else 1 + DotIndex(s[1..])
  }

  function Unsigned(t: string): string {
    if t != [] && t[0] == '-' then t[1..] else t
  }

  function WholePart(abs: string): string {
    abs[..DotIndex(abs)]
  }

  function FracPart(abs: string): string {
    if DotIndex(abs) == |abs| then "" else abs[DotIndex(abs) + 1..]
  }

  /** An optional sign, digits, and optionally a dot with at most seven more. */
  predicate WellFormed(t: string) {
    var abs := Unsigned(t);
    && WholePart(abs) != [] && AllDigits(WholePart(abs))
    && AllDigits(FracPart(abs)) && |FracPart(abs)| <= 7
  }

  function XlmStringToStroops(s: string): Result<int, MoneyError> {
    var trimmed := Trim(s);
    if !WellFormed(trimmed) then Err(InvalidXlmString)
    else
      var abs := Unsigned(trimmed);
      var padded := PadEnd(FracPart(abs), 7);
      PaddedDigits(FracPart(abs), 7);
      var result := Value(WholePart(abs)) * STROOPS_PER_XLM + Value(padded);
      CheckRange(if abs != trimmed then -result else result)
  }

  lemma PaddedDigits(s: string, n: nat)
    requires AllDigits(s)
    ensures AllDigits(PadEnd(s, n)) && AllDigits(PadStart(s, n))
  {
  }

  // ----- digits and numbers -----

  lemma {:induction false} DecimalDigits(n: nat)
    ensures AllDigits(Decimal(n)) && Decimal(n) != []
    ensures Value(Decimal(n)) == n
  {
    if n >= 10 {
      DecimalDigits(n / 10);
      assert Decimal(n)[..|Decimal(n)| - 1] == Decimal(n / 10);
    } else {
      assert Decimal(n)[..0] == [];
    }
  }

  predicate NoLeadingZero(s: string) {
    |s| >= 1 && (s[0] == '0' ==> |s| == 1)
  }

  lemma {:induction false} DecimalHasNoLeadingZero(n: nat)
    ensures NoLeadingZero(Decimal(n)) && (n > 0 ==> Decimal(n)[0] != '0')
  {
    if n >= 10 {
      DecimalHasNoLeadingZero(n / 10);
    }
  }

  lemma {:induction false} ValuePositive(s: string)
    requires AllDigits(s) && s != [] && s[0] != '0'
    ensures Value(s) > 0
  {
    if |s| > 1 {
      ValuePositive(s[..|s| - 1]);
    }
  }

  /** Printing a number read back from digits without leading zeros gives those digits. */
  lemma {:induction false} DecimalOfValue(s: string)
    requires AllDigits(s) && NoLeadingZero(s)
    ensures Decimal(Value(s)) == s
  {
    var front, last := s[..|s| - 1], s[|s| - 1];
    if |s| == 1 {
      assert front == [] && s == [last];
    } else {
      DecimalOfValue(front);
      ValuePositive(front);
      assert s == front + [last];
      assert Value(s) / 10 == Value(front) && Value(s) % 10 == DigitValue(last);
    }
  }

  lemma {:induction false} ValueBound(s: string)
    requires AllDigits(s)
    ensures Value(s) < Pow10(|s|)
  {
    if s != [] {
      ValueBound(s[..|s| - 1]);
    }
  }

  lemma {:induction false} DecimalLength(n: nat, k: nat)
    requires n < Pow10(k) && k >= 1
    ensures |Decimal(n)| <= k
    decreases k
  {
    assert Pow10(0) == 1 && Pow10(k) == 10 * Pow10(k - 1);
    if n >= 10 {
      DecimalLength(n / 10, k - 1);
    }
  }

  lemma {:induction false} ZerosInFront(n: nat, s: string)
    requires AllDigits(s)
    ensures AllDigits(Zeros(n) + s) && Value(Zeros(n) + s) == Value(s)
    decreases |s|, n
  {
    var t := Zeros(n) + s;
    if s != [] {
      ZerosInFront(n, s[..|s| - 1]);
      assert t[..|t| - 1] == Zeros(n) + s[..|s| - 1];
    } else if n > 0 {
      ZerosInFront(n - 1, s);
      assert t[..|t| - 1] == Zeros(n - 1) + s;
    }
  }

  lemma TenTimes(a: int, p: int)
    ensures a * (10 * p) == 10 * (a * p)
  {
  }

  lemma ZeroBehind(s: string)
    requires AllDigits(s)
    ensures AllDigits(s + Zeros(1)) && Value(s + Zeros(1)) == 10 * Value(s)
  {
    assert (s + Zeros(1))[..|s|] == s;
  }

  lemma {:induction false} ZerosBehind(s: string, n: nat)
    requires AllDigits(s)
    ensures AllDigits(s + Zeros(n)) && Value(s + Zeros(n)) == Value(s) * Pow10(n)
  {
    if n == 0 {
      assert s + Zeros(0) == s;
    } else {
      ZerosBehind(s, n - 1);
      assert s + Zeros(n) == s + Zeros(n - 1) + Zeros(1);
      hide Value, AllDigits, Zeros;
      ZeroBehind(s + Zeros(n - 1));
      TenTimes(Value(s), Pow10(n - 1));
    }
  }

  /** Digits are determined by their number and length. */
  lemma {:induction false} PaddedDecimalOfValue(s: string)
    requires AllDigits(s) && s != []
    ensures PadStart(Decimal(Value(s)), |s|) == s
  {
    if NoLeadingZero(s) {
      DecimalOfValue(s);
    } else {
      var rest := s[1..];
      PaddedDecimalOfValue(rest);
      assert s == Zeros(1) + rest;
      ZerosInFront(1, rest);
      ValueBound(rest);
      DecimalLength(Value(rest), |rest|);
      var d := Decimal(Value(rest));
      assert PadStart(d, |s|) == Zeros(1) + PadStart(d, |rest|);
    }
  }

  // ----- trimming -----

  lemma {:induction false} TrimStartDrops(blanks: string, t: string)
    requires (forall i :: 0 <= i < |blanks| ==> IsSpace(blanks[i])) && t != [] && !IsSpace(t[0])
    ensures TrimStart(blanks + t) == t
  {
    if blanks == [] {
      assert blanks + t == t;
    } else {
      assert (blanks + t)[1..] == blanks[1..] + t;
      TrimStartDrops(blanks[1..], t);
    }
  }

  lemma {:induction false} TrimEndDrops(t: string, blanks: string)
    requires (forall i :: 0 <= i < |blanks| ==> IsSpace(blanks[i])) && t != [] && !IsSpace(t[|t| - 1])
    ensures TrimEnd(t + blanks) == t
  {
    var s := t + blanks;
    if blanks == [] {
      assert s == t;
    } else {
      assert s[..|s| - 1] == t + blanks[..|blanks| - 1];
      TrimEndDrops(t, blanks[..|blanks| - 1]);
    }
  }

  lemma TrimDropsBlanks(before: string, t: string, after: string)
    requires forall i :: 0 <= i < |before| ==> IsSpace(before[i])
    requires forall i :: 0 <= i < |after| ==> IsSpace(after[i])
    requires t != [] && !IsSpace(t[0]) && !IsSpace(t[|t| - 1])
    ensures Trim(before + t + after) == t
  {
    assert before + t + after == before + (t + after);
    TrimStartDrops(before, t + after);
    TrimEndDrops(t, after);
  }

  // ----- what the parser accepts, and what it makes of it -----

  /** The grammar, stated as a decomposition: sign, whole digits, and perhaps a dot and a fraction. */
  predicate Spells(t: string, negative: bool, whole: string, frac: Option<string>) {
    && whole != [] && AllDigits(whole)
    && (frac.Some? ==> AllDigits(frac.value) && |frac.value| <= 7)
    && t == (if negative then "-" else "") + whole + FractionTail(frac)
  }

  function Fraction(frac: Option<string>): string {
    if frac.Some? then frac.value else ""
  }

  lemma DotIndexOf(whole: string, rest: string)
    requires AllDigits(whole) && (rest == [] || rest[0] == '.')
    ensures DotIndex(whole + rest) == |whole|
  {
    var s := whole + rest;
    assert forall k :: 0 <= k < |whole| ==> s[k] == whole[k];
    if rest != [] { assert s[|whole|] == '.'; }
  }

  function FractionTail(frac: Option<string>): string {
    if frac.Some? then "." + frac.value else ""
  }

  lemma NotBlank(c: char)
    requires IsDigit(c) || c == '.' || c == '-'
    ensures !IsSpace(c)
  {
  }

  lemma SpellingEnds(t: string, negative: bool, whole: string, frac: Option<string>)
    requires Spells(t, negative, whole, frac)
    ensures t != [] && !IsSpace(t[0]) && !IsSpace(t[|t| - 1])
    ensures t[0] == '-' <==> negative
  {
    hide IsSpace;
    var abs := whole + FractionTail(frac);
    assert t == (if negative then "-" else "") + abs;
    assert t[|t| - 1] == abs[|abs| - 1] && IsDigit(whole[0]) && abs[0] == whole[0];
    NotBlank(t[0]);
    NotBlank(t[|t| - 1]);
  }

  lemma UnsignedOf(negative: bool, abs: string)
    requires abs != "" && abs[0] != '-'
    ensures var t := (if negative then "-" else "") + abs;
      Unsigned(t) == abs && (Unsigned(t) != t <==> negative)
  {
    if negative { assert ("-" + abs)[1..] == abs; } else { assert "" + abs == abs; }
  }

  lemma UnsignedSpelling(t: string, negative: bool, whole: string, frac: Option<string>)
    requires Spells(t, negative, whole, frac)
    ensures Unsigned(t) == whole + FractionTail(frac) && (Unsigned(t) != t <==> negative)
  {
    hide Unsigned;
    var abs := whole + FractionTail(frac);
    assert t == (if negative then "-" else "") + abs && IsDigit(whole[0]) && abs[0] == whole[0];
    UnsignedOf(negative, abs);
  }

  lemma SpellingParts(t: string, negative: bool, whole: string, frac: Option<string>)
    requires Spells(t, negative, whole, frac)
    ensures WholePart(Unsigned(t)) == whole && FracPart(Unsigned(t)) == Fraction(frac)
    ensures WellFormed(t)
  {
    UnsignedSpelling(t, negative, whole, frac);
    DotIndexOf(whole, FractionTail(frac));
    var abs := Unsigned(t);
    assert abs[..|whole|] == whole;
    if frac.Some? { assert abs[|whole| + 1..] == frac.value; }
  }

  lemma WellFormedSpells(t: string)
    requires WellFormed(t)
    ensures exists negative, whole, frac :: Spells(t, negative, whole, frac)
  {
    var abs := Unsigned(t);
    var i := DotIndex(abs);
    var frac := if i == |abs| then None else Some(FracPart(abs));
    assert abs == abs[..i] + abs[i..];
    if i < |abs| { assert abs[i..] == "." + abs[i + 1..]; }
    assert Spells(t, abs != t, WholePart(abs), frac);
  }

  /** The scanner accepts exactly the strings that have such a decomposition. */
  lemma WellFormedIsGrammar(t: string)
    ensures WellFormed(t) <==> exists negative, whole, frac :: Spells(t, negative, whole, frac)
  {
    hide WellFormed, Spells, Unsigned;
    if WellFormed(t) { WellFormedSpells(t); }
    if negative, whole, frac :| Spells(t, negative, whole, frac) { SpellingParts(t, negative, whole, frac); }
  }

  /** The amount a spelling stands for: w * 10^7 + f * 10^(7 - |f|) stroops. */
  function Amount(whole: string, frac: Option<string>): int
    requires AllDigits(whole) && AllDigits(Fraction(frac)) && |Fraction(frac)| <= 7
  {
    Value(whole) * STROOPS_PER_XLM + Value(Fraction(frac)) * Pow10(7 - |Fraction(frac)|)
  }

  /** Parsing gives exactly the amount spelled, blanks around it ignored, unless that is out of range. */
  lemma ParseIsExact(
    before: string, t: string, after: string, negative: bool, whole: string, frac: Option<string>)
    requires Spells(t, negative, whole, frac)
    requires forall i :: 0 <= i < |before| ==> IsSpace(before[i])
    requires forall i :: 0 <= i < |after| ==> IsSpace(after[i])
    ensures XlmStringToStroops(before + t + after)
      == CheckRange(if negative then -Amount(whole, frac) else Amount(whole, frac))
  {
    hide Trim, IsSpace, Unsigned, WholePart, FracPart, Value, Pow10, AllDigits;
    UnsignedSpelling(t, negative, whole, frac);
    SpellingEnds(t, negative, whole, frac);
    SpellingParts(t, negative, whole, frac);
    TrimDropsBlanks(before, t, after);
    ZerosBehind(Fraction(frac), 7 - |Fraction(frac)|);
    assert PadEnd(Fraction(frac), 7) == Fraction(frac) + Zeros(7 - |Fraction(frac)|);
  }

  /** Everything else is rejected as malformed. */
  lemma ParseRejectsTheRest(s: string)
    ensures XlmStringToStroops(s) == Err(InvalidXlmString)
      <==> !exists negative, whole, frac :: Spells(Trim(s), negative, whole, frac)
  {
    WellFormedIsGrammar(Trim(s));
  }

  // ----- printer and parser undo each other -----

  /** No sign, no leading zero, exactly seven decimals, within the ceiling. */
  ghost predicate Canonical(t: string) {
    exists whole, frac :: IsCanonicalPair(t, whole, frac)
  }

  predicate IsCanonicalPair(t: string, whole: string, frac: string) {
    && AllDigits(whole) && NoLeadingZero(whole) && AllDigits(frac) && |frac| == 7
    && t == whole + "." + frac
    && Amount(whole, Some(frac)) <= MAX_STROOPS
  }

  lemma PrintedPair(stroops: nat) returns (whole: string, frac: string)
    requires stroops <= MAX_STROOPS
    ensures StroopsToXlmString(stroops) == Ok(whole + "." + frac)
    ensures IsCanonicalPair(whole + "." + frac, whole, frac) && Amount(whole, Some(frac)) == stroops
  {
    var w, f := stroops / STROOPS_PER_XLM, stroops % STROOPS_PER_XLM;
    whole, frac := Decimal(w), PadStart(Decimal(f), 7);
    DecimalDigits(w);
    DecimalHasNoLeadingZero(w);
    DecimalDigits(f);
    PowersOfTen();
    DecimalLength(f, 7);
    ZerosInFront(7 - |Decimal(f)|, Decimal(f));
    assert frac == Zeros(7 - |Decimal(f)|) + Decimal(f);
  }

  lemma PowersOfTen()
    ensures Pow10(0) == 1 && Pow10(7) == STROOPS_PER_XLM
  {
    assert Pow10(1) == 10 && Pow10(2) == 100 && Pow10(3) == 1000 && Pow10(4) == 10000;
    assert Pow10(5) == 100000 && Pow10(6) == 1000000;
  }

  lemma CanonicalSpells(t: string, whole: string, frac: string)
    requires IsCanonicalPair(t, whole, frac)
    ensures Spells(t, false, whole, Some(frac))
  {
    assert t == "" + whole + ("." + frac);
  }

  lemma ParsePlain(t: string, whole: string, frac: string)
    requires IsCanonicalPair(t, whole, frac)
    ensures XlmStringToStroops(t) == Ok(Amount(whole, Some(frac)))
  {
    hide XlmStringToStroops, Spells;
    CanonicalSpells(t, whole, frac);
    ParseIsExact("", t, "", false, whole, Some(frac));
    assert "" + t + "" == t;
  }

  /** Printing succeeds exactly in range, gives a canonical string, and parsing it gives the amount back. */
  lemma PrintThenParse(stroops: int)
    ensures StroopsToXlmString(stroops).Ok? <==> 0 <= stroops <= MAX_STROOPS
    ensures 0 <= stroops <= MAX_STROOPS ==>
      && Canonical(StroopsToXlmString(stroops).value)
      && XlmStringToStroops(StroopsToXlmString(stroops).value) == Ok(stroops)
  {
    if 0 <= stroops <= MAX_STROOPS {
      var whole, frac := PrintedPair(stroops);
      ParsePlain(whole + "." + frac, whole, frac);
    }
  }

  /** A canonical string survives parsing and printing unchanged. */
  lemma CanonicalRoundTrip(t: string)
    requires Canonical(t)
    ensures XlmStringToStroops(t).Ok? && StroopsToXlmString(XlmStringToStroops(t).value) == Ok(t)
  {
    var whole, frac :| IsCanonicalPair(t, whole, frac);
    ParsePlain(t, whole, frac);
    PowersOfTen();
    ValueBound(frac);
    var amount := Amount(whole, Some(frac));
    assert amount / STROOPS_PER_XLM == Value(whole) && amount % STROOPS_PER_XLM == Value(frac);
    DecimalOfValue(whole);
    PaddedDecimalOfValue(frac);
  }

  /** Whatever was parsed, printing it gives the one canonical spelling of the same amount. */
  lemma ParseThenPrint(s: string, t: string)
    requires XlmStringToStroops(s).Ok?
    ensures StroopsToXlmString(XlmStringToStroops(s).value) == Ok(t)
      <==> Canonical(t) && XlmStringToStroops(t) == XlmStringToStroops(s)
  {
    PrintThenParse(XlmStringToStroops(s).value);
    if Canonical(t) { CanonicalRoundTrip(t); }
  }

  // ----- checked operations -----

  function AddStroops(a: int, b: int): Result<int, MoneyError> {
    CheckRange(a + b)
  }

  /** BigInt division: the quotient is truncated toward zero. */
  function TruncatedQuotient(a: int, b: int): int
    requires b != 0
  {
    var magnitude := (if a < 0 then -a else a) / (if b < 0 then -b else b);
    if (a < 0) != (b < 0) then -magnitude else magnitude
  }

  function MultiplyStroops(stroops: int, numerator: int, denominator: int): Result<int, MoneyError> {
    if denominator == 0 then Err(DivideByZero)
    else CheckRange(TruncatedQuotient(stroops * numerator, denominator))
  }

  function ClampStroops(value: int, max: int): int {
    if value < 0 then 0 else if value > max then max else value
  }

  /** Amounts run from nothing to a hundred billion XLM of ten million stroops; the errors say on which side. */
  lemma RangeIs(stroops: int)
    ensures CheckRange(stroops) == if stroops < 0 then Err(OutOfRange)
                                   else if stroops > 100_000_000_000 * 10_000_000 then Err(Overflow)
                                   else Ok(stroops)
    ensures STROOPS_PER_XLM == 10_000_000
  {
  }

  /** The white space and line terminators of ECMA-262, sections 12.2 and 12.3, by code point. */
  lemma WhiteSpaceIs(c: char)
    ensures IsSpace(c) <==>
      c as int in {0x9, 0xa, 0xb, 0xc, 0xd, 0x20, 0xa0, 0x1680, 0x2000, 0x2001, 0x2002, 0x2003, 0x2004, 0x2005, 0x2006,
                   0x2007, 0x2008, 0x2009, 0x200a, 0x2028, 0x2029, 0x202f, 0x205f, 0x3000, 0xfeff}
  {
  }

  predicate IsRemainder(r: int, dividend: int, divisor: int) {
    && (if divisor < 0 then divisor < r < -divisor else -divisor < r < divisor)
    && (dividend >= 0 ==> r >= 0) && (dividend <= 0 ==> r <= 0)
  }

  lemma NatRemainder(m: nat, n: nat)
    requires n > 0
    ensures 0 <= m - (m / n) * n < n && (m / n) * n >= 0
  {
    assert m == (m / n) * n + m % n;
  }

  lemma SignedProducts(q: int, n: int)
    ensures (-q) * n == -(q * n) && q * (-n) == -(q * n) && (-q) * (-n) == q * n
  {
  }

  /** The quotient times the divisor is the product of the magnitudes, with the sign of the dividend. */
  lemma QuotientTimesDivisor(a: int, b: int)
    requires b != 0
    ensures var m, n := if a < 0 then -a else a, if b < 0 then -b else b;
      TruncatedQuotient(a, b) * b == if a < 0 then -((m / n) * n) else (m / n) * n
  {
    var m, n := if a < 0 then -a else a, if b < 0 then -b else b;
    SignedProducts(m / n, n);
  }

  lemma QuotientTruncates(a: int, b: int)
    requires b != 0
    ensures IsRemainder(a - TruncatedQuotient(a, b) * b, a, b)
  {
    var m, n := if a < 0 then -a else a, if b < 0 then -b else b;
    QuotientTimesDivisor(a, b);
    NatRemainder(m, n);
    hide TruncatedQuotient, IsRemainder;
    SignedRemainder(a, b, (m / n) * n, TruncatedQuotient(a, b) * b);
  }

  lemma SignedRemainder(a: int, b: int, magnitude: int, product: int)
    requires magnitude >= 0 && 0 <= (if a < 0 then -a else a) - magnitude < (if b < 0 then -b else b)
    requires product == if a < 0 then -magnitude else magnitude
    ensures IsRemainder(a - product, a, b)
  {
  }

  /**
   * A product is divided toward zero, leaving a remainder smaller than the divisor and with the sign
   * of the product; only a divisor of zero is answered with the error of its own.
   */
  lemma MultiplyTruncates(stroops: int, numerator: int, denominator: int)
    ensures var r := MultiplyStroops(stroops, numerator, denominator); var product := stroops * numerator;
      && (r == Err(DivideByZero) <==> denominator == 0)
      && (r.Ok? ==> IsRemainder(product - r.value * denominator, product, denominator))
  {
    if denominator != 0 {
      QuotientTruncates(stroops * numerator, denominator);
    }
    hide TruncatedQuotient, IsRemainder;
  }

  function Distance(a: int, b: int): nat {
    if a >= b then a - b else b - a
  }

  /** Clamping yields the nearest amount between zero and the maximum. */
  lemma ClampIsNearest(value: int, max: nat, other: int)
    requires 0 <= other <= max
    ensures var c := ClampStroops(value, max);
      0 <= c <= max && Distance(c, value) <= Distance(other, value)
  {
  }

  lemma QuotientOfNats(a: nat, b: nat)
    requires b > 0
    ensures TruncatedQuotient(a, b) == a / b
  {
  }

  /** For a non-negative product the quotient is rounded down, and rejected exactly above the ceiling. */
  lemma MultiplyRoundsDown(stroops: int, numerator: int, denominator: nat)
    requires denominator > 0 && stroops * numerator >= 0
    ensures MultiplyStroops(stroops, numerator, denominator) == CheckRange(stroops * numerator / denominator)
  {
    QuotientOfNats(stroops * numerator, denominator);
  }
}
