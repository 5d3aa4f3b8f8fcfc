/** Integers as text (src/strconv.cxx). */
module Integers {
  import opened Buffers
  import opened Wrappers

  /** An integral type, by its highest value: signed types reach down to one below
      its negation (two's complement), unsigned ones to zero. */
  datatype IntType = IntType(signed: bool, top: nat) {
    function Bottom(): int {
      if signed then 0 - top - 1 else 0
    }

    predicate Has(value: int) {
      Bottom() <= value <= top
    }
  }

  const SHORT := IntType(true, 0x7fff)
  const INT := IntType(true, 0x7fff_ffff)

  predicate IsDigit(c: char) {
    '0' <= c <= '9'
  }

  function NumberToDigit(i: int): (c: char)
    requires 0 <= i <= 9
    ensures IsDigit(c) && DigitToNumber(c) == i
  {
    ('0' as int + i) as char
  }

  function DigitToNumber(c: char): (i: int)
    requires IsDigit(c)
    ensures 0 <= i <= 9
  {
    c as int - '0' as int
  }

  predicate AllDigits(s: string) {
    forall i :: 0 <= i < |s| ==> IsDigit(s[i])
  }

  /** The number that a string of digits stands for. */
  function Value(s: string): nat
    requires AllDigits(s)
  {
    if s == "" then 0 else 10 * Value(s[..|s| - 1]) + DigitToNumber(s[|s| - 1])
  }

  /** The decimal digits of a number, without superfluous zeros. */
  function Dec(n: nat): (s: string)
    ensures s != "" && AllDigits(s)
  {
    if n < 10 then [NumberToDigit(n)] else Dec(n / 10) + [NumberToDigit(n % 10)]
  }

  /** The canonical text of an integer. */
  function Decimal(value: int): string {
    if value >= 0 then Dec(value) else "-" + Dec(-value)
  }

  lemma {:induction false} DecValue(n: nat)
    ensures Value(Dec(n)) == n
    ensures Dec(n)[0] == '0' ==> n == 0 && Dec(n) == "0"
  {
    if n >= 10 {
      DecValue(n / 10);
      var s := Dec(n);
      assert s[..|s| - 1] == Dec(n / 10);
    } else {
      assert Dec(n)[..0] == "";
    }
  }

  lemma OneDigit(n: nat)
    requires n <= 9
    ensures Dec(n) == [NumberToDigit(n)]
  {
  }

  lemma DecStep(n: nat, d: nat)
    requires n >= 1 && d <= 9
    ensures Dec(10 * n + d) == Dec(n) + [NumberToDigit(d)]
  {
  }

  /** The text of the lowest short, spelled out. */
  lemma LowestShort()
    ensures Dec(32768) == "32768" && Decimal(SHORT.Bottom()) == "-32768"
  {
    hide Dec;
    DecStep(3276, 8);
    DecStep(327, 6);
    DecStep(32, 7);
    DecStep(3, 2);
    assert Dec(3) == "3" by { OneDigit(3); }
  }

  function Pow10(k: nat): (p: nat)
    ensures p >= 1
  {
    if k == 0 then 1 else 10 * Pow10(k - 1)
  }

  /** A number has k digits exactly if it lies between two powers of ten. */
  lemma {:induction false} DecLength(n: nat)
    ensures n < Pow10(|Dec(n)|)
    ensures n >= 10 ==> Pow10(|Dec(n)| - 1) <= n
  {
    if n >= 10 {
      DecLength(n / 10);
      if n / 10 < 10 {
        assert Pow10(1) == 10 * Pow10(0);
      }
    } else {
      assert Pow10(1) == 10 * Pow10(0);
    }
  }

  lemma {:induction false} DecLengthGrows(m: nat, n: nat)
    requires m <= n
    ensures |Dec(m)| <= |Dec(n)|
  {
    if m >= 10 {
      DecLengthGrows(m / 10, n / 10);
    }
  }

  /** std::numeric_limits::digits10: how many decimal digits every number of that
      many digits needs at most. */
  function Digits10(t: IntType): nat {
    |Dec(t.top + 1)| - 1
  }

  /** ... and that is the largest d for which all numbers of d digits fit. */
  lemma Digits10IsLargest(t: IntType)
    requires t.top >= 9
    ensures Pow10(Digits10(t)) - 1 <= t.top < Pow10(Digits10(t) + 1) - 1
  {
    hide Dec;
    DecLength(t.top + 1);
  }

  /** size_buffer: a sign if needed, digits10, and one more digit. */
  function SizeBuffer(t: IntType): nat {
    (if t.signed then 1 else 0) + Digits10(t) + 1
  }

  function Pow2(k: nat): (p: nat)
    ensures p >= 1
  {
    if k == 0 then 1 else 2 * Pow2(k - 1)
  }

  /** Only a power of ten has more digits than the number before it. */
  lemma {:induction false} OneDigitMore(n: nat)
    requires |Dec(n)| < |Dec(n + 1)|
    ensures n + 1 == Pow10(|Dec(n + 1)| - 1) && n >= 9
  {
    if n > 9 {
      var m := n + 1;
      assert Dec(n) == Dec(n / 10) + [NumberToDigit(n % 10)] && Dec(m) == Dec(m / 10) + [NumberToDigit(m % 10)];
      assert m / 10 != n / 10;
      assert m / 10 == n / 10 + 1 && m == 10 * (m / 10);
      OneDigitMore(n / 10);
    } else if n == 9 {
      assert Dec(10) == Dec(1) + [NumberToDigit(0)];
      assert Pow10(1) == 10 * Pow10(0);
    }
  }

  lemma {:induction false} NoPowerOfBoth(k: nat, j: nat)
    ensures Pow2(k) % 5 != 0 && (j > 0 ==> Pow10(j) % 5 == 0)
  {
    if k > 0 {
      NoPowerOfBoth(k - 1, 0);
      var p := Pow2(k - 1);
      assert (2 * p) % 5 != 0 by {
        assert p % 5 in {1, 2, 3, 4};
      }
    }
    if j > 0 {
      assert Pow10(j) == 5 * (2 * Pow10(j - 1));
    }
  }

  /** The highest value of an unsigned type fills the buffer. */
  lemma HighestFillsBuffer(t: IntType, k: nat)
    requires !t.signed && t.top + 1 == Pow2(k)
    ensures |Decimal(t.top)| == SizeBuffer(t)
  {
    hide Dec;
    DecLengthGrows(t.top, t.top + 1);
    if |Dec(t.top)| < |Dec(t.top + 1)| {
      OneDigitMore(t.top);
      DecLength(t.top + 1);
      NoPowerOfBoth(k, |Dec(t.top + 1)| - 1);
    }
  }

  /** So does the lowest value of a signed one. */
  lemma LowestFillsBuffer(t: IntType)
    requires t.signed
    ensures |Decimal(t.Bottom())| == SizeBuffer(t)
  {
    hide Dec;
  }

  /** The buffer is large enough for every value of the type. */
  lemma DecimalFits(t: IntType, value: int)
    requires t.Has(value)
    ensures |Decimal(value)| <= SizeBuffer(t)
  {
    DecLengthGrows(if value >= 0 then value else -value, t.top + 1);
  }

  /** The digits in front of the last one. */
  function Front(n: nat): string {
    if n < 10 then "" else Dec(n / 10)
  }

  lemma DecFront(n: nat)
    ensures Dec(n) == Front(n) + [NumberToDigit(n % 10)]
  {
  }

  lemma AssocText(a: string, b: string, c: string)
    ensures a + b + c == a + (b + c)
  {
  }

  lemma LastDigit(n: nat, tail: string)
    ensures Dec(n) + tail == Front(n) + ([NumberToDigit(n % 10)] + tail)
    ensures |Dec(n)| == |Front(n)| + 1
  {
    hide Dec, Front, NumberToDigit;
    DecFront(n);
    AssocText(Front(n), [NumberToDigit(n % 10)], tail);
  }

  /** Writes the digits of a nonnegative number, backward from `end`. */
  method NonnegToBuf(buf: array<char>, end: nat, value: nat) returns (pos: nat)
    requires |Dec(value)| <= end <= buf.Length
    modifies buf
    ensures pos == end - |Dec(value)| && buf[pos..end] == Dec(value)
    ensures buf[..pos] == old(buf[..pos])
  {
    hide Dec, Front;
    pos := end;
    var v := value;
    var more := true;
    while more
      invariant pos <= end
      invariant more ==> Dec(value) == Dec(v) + buf[pos..end]
      invariant !more ==> Dec(value) == buf[pos..end]
      invariant buf[..pos] == old(buf[..pos])
      decreases more, v
    {
      ghost var tail := buf[pos..end];
      ghost var n := v;
      LastDigit(n, tail);
      pos := pos - 1;
      buf[pos] := NumberToDigit(v % 10);
      assert buf[pos..end] == [NumberToDigit(n % 10)] + tail;
      v := v / 10;
      more := v > 0;
      FrontIsEmpty(n, buf[pos..end]);
    }
  }

  lemma FrontIsEmpty(n: nat, tail: string)
    ensures if n / 10 > 0 then Front(n) == Dec(n / 10) else Front(n) + tail == tail
  {
  }

  method NegToBuf(buf: array<char>, end: nat, value: nat) returns (pos: nat)
    requires |Dec(value)| + 1 <= end <= buf.Length
    modifies buf
    ensures pos == end - |Dec(value)| - 1 && buf[pos..end] == "-" + Dec(value)
    ensures buf[..pos] == old(buf[..pos])
  {
    hide Dec;
    pos := NonnegToBuf(buf, end, value);
    ghost var digits := buf[pos..end];
    pos := pos - 1;
    buf[pos] := '-';
    assert buf[pos..end] == ['-'] + digits;
  }

  /** The lowest value of a signed type, which has no positive counterpart there:
      the unsigned type of the same size, whose highest value is 2 * top + 1, has
      it, at half its range. */
  method BottomToBuf(t: IntType, buf: array<char>, end: nat) returns (pos: nat)
    requires t.signed && SizeBuffer(t) <= end <= buf.Length
    modifies buf
    ensures pos == end - |Decimal(t.Bottom())| && buf[pos..end] == Decimal(t.Bottom())
    ensures buf[..pos] == old(buf[..pos])
  {
    hide Dec;
    DecimalFits(t, t.Bottom());
    var unsignedTop := 2 * t.top + 1;
    var positive := t.Bottom() + (unsignedTop + 1);
    assert positive == unsignedTop / 2 + 1 == -t.Bottom();
    pos := NegToBuf(buf, end, positive);
  }

  datatype ConversionError = Overrun | InvalidArgument | OutOfRange | NotFullString

  /** Converts a value to text in the span from `begin` to `end` of a buffer.  The
      text ends where the span ends; nothing in front of the span changes. */
  method ToBuf(t: IntType, buf: array<char>, begin: nat, end: nat, value: int)
    returns (r: Result<nat, ConversionError>)
    requires begin <= end <= buf.Length && t.Has(value)
    modifies buf
    ensures end - begin < SizeBuffer(t) ==> r == Failure(Overrun) && buf[..] == old(buf[..])
    ensures end - begin >= SizeBuffer(t) ==>
              r == Success(end - |Decimal(value)|) && begin <= r.value
              && buf[r.value..end] == Decimal(value)
              && buf[..r.value] == old(buf[..r.value])
  {
    hide Dec, SizeBuffer;
    if end - begin < SizeBuffer(t) {
      return Failure(Overrun);
    }
    DecimalFits(t, value);
    var pos;
    if !t.signed {
      pos := NonnegToBuf(buf, end, value);
    } else if value >= 0 {
      pos := NonnegToBuf(buf, end, value);
    } else if value > t.Bottom() {
      pos := NegToBuf(buf, end, -value);
    } else {
      pos := BottomToBuf(t, buf, end);
    }
    r := Success(pos);
  }

  /** Converts a value to text at the start of the span, and says how long it is. */
  method IntoBuf(t: IntType, buf: array<char>, begin: nat, end: nat, value: int)
    returns (r: Result<nat, ConversionError>)
    requires begin <= end <= buf.Length && t.Has(value)
    modifies buf
    ensures end - begin < SizeBuffer(t) ==> r == Failure(Overrun)
    ensures end - begin >= SizeBuffer(t) ==>
              r == Success(|Decimal(value)|) && begin + r.value <= end
              && buf[..begin + r.value] == old(buf[..begin]) + Decimal(value)
  {
    hide Decimal, SizeBuffer;
    var start :- ToBuf(t, buf, begin, end, value);
    assert buf[..begin] == old(buf[..begin]) by {
      assert buf[..begin] == buf[..start][..begin];
      assert old(buf[..begin]) == old(buf[..start])[..begin];
    }
    var size := end - start;
    CopyInto(buf, begin, buf[start..end]);
    r := Success(size);
  }

  // ---- Parsing ----------------------------------------------------------

  /** Where the run of digits from i on ends. */
  function DigitsEnd(s: string, i: nat): (j: nat)
    requires i <= |s|
    ensures i <= j <= |s| && AllDigits(s[i..j]) && (j < |s| ==> !IsDigit(s[j]))
    decreases |s| - i
  {
    if i < |s| && IsDigit(s[i]) then
      var j := DigitsEnd(s, i + 1);
      assert s[i..j] == [s[i]] + s[i + 1..j];
      j
    else i
  }

  /** std::from_chars ([charconv.from.chars] of ISO C++20): a minus sign, for signed
      types only, and digits.  Gives the value and where the match ends. */
  function FromChars(t: IntType, s: string, start: nat): Result<(int, nat), ConversionError>
    requires start <= |s|
  {
    var negative := t.signed && start < |s| && s[start] == '-';
    var i := if negative then start + 1 else start;
    var j := DigitsEnd(s, i);
    if i == j then Failure(InvalidArgument)
    else
      var magnitude := Value(s[i..j]);
      var value := if negative then 0 - magnitude else magnitude;
      if t.Has(value) then Success((value, j)) else Failure(OutOfRange)
  }

  predicate IsBlank(c: char) {
    c == ' ' || c == '\t'
  }

  function SkipBlanks(s: string, i: nat): (j: nat)
    requires i <= |s|
    ensures i <= j <= |s|
    decreases |s| - i
  {
    if i < |s| && IsBlank(s[i]) then SkipBlanks(s, i + 1) else i
  }

  /** What a text means as a number of the type. */
  function Parse(t: IntType, s: string): Result<int, ConversionError> {
    var (value, end) :- FromChars(t, s, SkipBlanks(s, 0));
    if end == |s| then Success(value) else Failure(NotFullString)
  }

  method FromString(t: IntType, s: string) returns (r: Result<int, ConversionError>)
    ensures r == Parse(t, s)
  {
    var here := 0;
    while here < |s| && IsBlank(s[here])
      invariant 0 <= here <= |s|
      invariant SkipBlanks(s, here) == SkipBlanks(s, 0)
    {
      here := here + 1;
    }
    var res := FromChars(t, s, here);
    if res.Failure? {
      return Failure(res.error);
    }
    if res.value.1 != |s| {
      return Failure(NotFullString);
    }
    return Success(res.value.0);
  }

  lemma DigitsOfTail(c: char, s: string)
    requires AllDigits([c] + s)
    ensures IsDigit(c) && AllDigits(s)
  {
    assert ([c] + s)[0] == c;
    forall i | 0 <= i < |s|
      ensures IsDigit(s[i])
    {
      assert ([c] + s)[i + 1] == s[i];
    }
  }

  lemma {:induction false} DigitsToTheEnd(s: string, i: nat)
    requires i <= |s| && AllDigits(s[i..])
    ensures DigitsEnd(s, i) == |s|
    decreases |s| - i
  {
    if i < |s| {
      assert s[i..] == [s[i]] + s[i + 1..];
      DigitsOfTail(s[i], s[i + 1..]);
      DigitsToTheEnd(s, i + 1);
    }
  }

  lemma {:induction false} SkipsBlanks(blanks: string, s: string, i: nat)
    requires i <= |blanks| && AllBlanks(blanks)
    requires s != "" && !IsBlank(s[0])
    ensures SkipBlanks(blanks + s, i) == |blanks|
    decreases |blanks| - i
  {
    if i < |blanks| {
      SkipsBlanks(blanks, s, i + 1);
    }
  }

  predicate AllBlanks(s: string) {
    forall k :: 0 <= k < |s| ==> s[k] == ' ' || s[k] == '\t'
  }

  /** A number as it may be written: an optional minus sign and some digits. */
  datatype Numeral = Numeral(negative: bool, digits: string) {
    function Text(): string {
      if negative then "-" + digits else digits
    }

    predicate Valid() {
      digits != "" && AllDigits(digits)
    }

    function Number(): int
      requires Valid()
    {
      if negative then 0 - Value(digits) else Value(digits)
    }
  }

  /** The library's conversion reads a numeral up to the end, wherever it starts. */
  lemma ReadsNumeral(t: IntType, blanks: string, n: Numeral)
    requires n.Valid() && (n.negative ==> t.signed)
    ensures var s := blanks + n.Text();
            FromChars(t, s, |blanks|)
            == if t.Has(n.Number()) then Success((n.Number(), |s|)) else Failure(OutOfRange)
  {
    hide DigitsEnd, Value;
    var s := blanks + n.Text();
    var i := if n.negative then |blanks| + 1 else |blanks|;
    assert s[i..] == s[i..|s|] == n.digits;
    DigitsToTheEnd(s, i);
    assert s[|blanks|] == n.Text()[0];
  }

  /** Blanks and a numeral are read as the number, if the type has it. */
  lemma ParsesNumerals(t: IntType, blanks: string, n: Numeral)
    requires AllBlanks(blanks) && n.Valid() && (n.negative ==> t.signed)
    ensures Parse(t, blanks + n.Text())
            == if t.Has(n.Number()) then Success(n.Number()) else Failure(OutOfRange)
  {
    hide FromChars, Value;
    SkipsBlanks(blanks, n.Text(), 0);
    ReadsNumeral(t, blanks, n);
  }

  lemma {:induction false} OnlyBlanksSkipped(s: string, i: nat)
    requires i <= |s|
    ensures AllBlanks(s[i..SkipBlanks(s, i)])
    decreases |s| - i
  {
    if i < |s| && IsBlank(s[i]) {
      OnlyBlanksSkipped(s, i + 1);
      var j := SkipBlanks(s, i);
      assert s[i..j] == [s[i]] + s[i + 1..j];
    }
  }

  /** Nothing else is read as a number: whatever succeeds is blanks and a numeral
      for that number, with a minus sign only if the type is signed. */
  lemma ParsesOnlyNumerals(t: IntType, s: string) returns (blanks: string, n: Numeral)
    requires Parse(t, s).Success?
    ensures AllBlanks(blanks) && n.Valid() && (n.negative ==> t.signed)
    ensures s == blanks + n.Text() && Parse(t, s) == Success(n.Number()) && t.Has(n.Number())
  {
    hide DigitsEnd, SkipBlanks, Value, AllBlanks, AllDigits;
    var start := SkipBlanks(s, 0);
    OnlyBlanksSkipped(s, 0);
    blanks := s[0..start];
    var negative := t.signed && start < |s| && s[start] == '-';
    var i := if negative then start + 1 else start;
    n := Numeral(negative, s[i..|s|]);
    assert s == blanks + s[start..];
    assert s[start..] == n.Text();
  }

  /** Integer text is exact: for every type and every value of it, any blanks
      followed by the canonical text read back as the value. */
  lemma IntegerRoundTrip(t: IntType, blanks: string, value: int)
    requires t.Has(value) && AllBlanks(blanks)
    ensures Parse(t, blanks + Decimal(value)) == Success(value)
  {
    hide Parse, Dec, Value;
    var magnitude := if value >= 0 then value else 0 - value;
    DecValue(magnitude);
    ParsesNumerals(t, blanks, Numeral(value < 0, Dec(magnitude)));
  }
}
