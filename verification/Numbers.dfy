/** Printing and parsing of 64-bit numbers (lib.cc; ISO C11 section 7.22.1.4).

A C string is a sequence of characters that ends at the first one not there; `CharAt` reads
the terminating null. `unsigned long` values are natural numbers below 2^64.
 */
module Numbers {
  import opened Arithmetic

  const MAX: nat := 0xFFFF_FFFF_FFFF_FFFF
  const HALF: nat := 0x8000_0000_0000_0000

  function CharAt(s: string, i: nat): char {
    if i < |s| then s[i] else '\0'
  }

  predicate IsSpace(c: char) {
    '\t' <= c <= '\r' || c == ' '
  }

  datatype Option<+T> = None | Some(value: T)

  /** The digit that a character stands for. In base 16 the characters from ':' to '?' pass the first test too. */
  function DigitOf(c: char, base: nat): (d: Option<nat>)
    requires 2 <= base <= 36
    ensures d.Some? ==> d.value < base && c != '\0'
  {
    var x := c as int;
    if 48 <= x < 48 + base then Some(x - 48)
    else if base > 10 && 97 <= x < 97 + base - 10 then Some(x - 97 + 10)
    else if base > 10 && 65 <= x < 65 + base - 10 then Some(x - 65 + 10)
    else None
  }

  // ---------------------------------------------------------------------------------------
  // What parsing means

  /** The first position from `i` on that holds no space. */
  function SkipSpaces(s: string, i: nat): (j: nat)
    ensures i <= j && !IsSpace(CharAt(s, j)) && forall k :: i <= k < j ==> IsSpace(CharAt(s, k))
    ensures i <= |s| ==> j <= |s|
    decreases |s| - i
  {
    if i < |s| && IsSpace(s[i]) then SkipSpaces(s, i + 1) else i
  }

  /** The first position from `i` on that holds no digit. */
  function RunEnd(s: string, i: nat, base: nat): (j: nat)
    requires 2 <= base <= 36
    ensures i <= j && DigitOf(CharAt(s, j), base).None? && forall k :: i <= k < j ==> DigitOf(CharAt(s, k), base).Some?
    decreases |s| - i
  {
    if i < |s| && DigitOf(s[i], base).Some? then RunEnd(s, i + 1, base) else i
  }

  /** A number with one digit more. */
  function Extend(x: nat, base: nat, digit: nat): nat {
    x * base + digit
  }

  /** The largest number that can be extended by the digit without overflow. */
  function Limit(digit: nat, base: nat): nat
    requires digit <= MAX && base > 0
  {
    (MAX - digit) / base
  }

  /** The number that the digits from `i` to `j` stand for. */
  function Number(s: string, i: nat, j: nat, base: nat): nat
    requires 2 <= base <= 36 && i <= j && forall k :: i <= k < j ==> DigitOf(CharAt(s, k), base).Some?
  {
    if i == j then 0 else Extend(Number(s, i, j - 1, base), base, DigitOf(CharAt(s, j - 1), base).value)
  }

  predicate HexMark(s: string, i: nat) {
    CharAt(s, i) == '0' && (CharAt(s, i + 1) == 'x' || CharAt(s, i + 1) == 'X')
  }

  /** The base that applies at `i`. */
  function BaseAt(s: string, i: nat, base: nat): (b: nat)
    requires base == 0 || 2 <= base <= 36
    ensures 2 <= b <= 36
  {
    if base != 0 then base else if HexMark(s, i) then 16 else if CharAt(s, i) == '0' then 8 else 10
  }

  /** Where the digits begin. */
  function DigitsAt(s: string, i: nat, base: nat): nat {
    if (base == 0 || base == 16) && HexMark(s, i) then i + 2 else i
  }

  function Negate(x: nat): nat
    requires x <= MAX
  {
    if x == 0 then 0 else MAX + 1 - x
  }

  datatype Parsed = Parsed(value: nat, end: nat)

  /** The meaning of `strtoul`: the number that the longest run of digits stands for, or 2^64-1 if it is larger;
      negated if there was a minus sign; and the position after the run. */
  function Strtoul(s: string, base: nat): (r: Parsed)
    requires base == 0 || 2 <= base <= 36
    ensures r.value <= MAX
  {
    var i := SkipSpaces(s, 0);
    var c := CharAt(s, i);
    var j := if c == '-' || c == '+' then i + 1 else i;
    var b, start := BaseAt(s, j, base), DigitsAt(s, j, base);
    var end := RunEnd(s, start, b);
    var n := Number(s, start, end, b);
    var x := if n > MAX then MAX else n;
    Parsed(if c == '-' then Negate(x) else x, end)
  }

  /** A 64-bit word as a signed number. */
  function Signed(u: nat): int
    requires u <= MAX
  {
    if u < HALF then u else u - (MAX + 1)
  }

  /** `strtol`: a sign of its own, then `strtoul` on the rest, clamped to the range of `long`. */
  function Strtol(s: string, base: nat): (r: (int, nat))
    requires base == 0 || 2 <= base <= 36
    ensures 0 - HALF <= r.0 < HALF
  {
    var i := SkipSpaces(s, 0);
    var negative := CharAt(s, i) == '-';
    var j := if negative then i + 1 else i;
    var p := Strtoul(s[j..], base);
    var bound := if negative then HALF else HALF - 1;
    var u := if p.value > bound then bound else p.value;
    (Signed(if negative then Negate(u) else u), j + p.end)
  }

  // ---------------------------------------------------------------------------------------
  // The loops

  /** The division test of the overflow check is exact. */
  lemma OverflowTest(x: nat, d: nat, b: nat)
    requires 0 < b && d <= MAX
    ensures x > (MAX - d) / b <==> x * b + d > MAX
  {
    var q := (MAX - d) / b;
    assert MAX - d == q * b + (MAX - d) % b;
    if x > q {
      MulAtMost(q + 1, x, b);
      assert (q + 1) * b == q * b + b;
    } else {
      MulAtMost(x, q, b);
    }
  }

  /** The loop over the digits of `strtoul`. */
  method ParseDigits(s: string, start: nat, base: nat) returns (x: nat, end: nat)
    requires 2 <= base <= 36
    ensures end == RunEnd(s, start, base)
    ensures x == if Number(s, start, end, base) > MAX then MAX else Number(s, start, end, base)
  {
    hide *;
    x := 0;
    end := start;
    var overflow := false;
    NoDigitsYet(s, start, base);
    while DigitOf(CharAt(s, end), base).Some?
      invariant start <= end && x <= MAX
      invariant forall k :: start <= k < end ==> DigitOf(CharAt(s, k), base).Some?
      invariant RunEnd(s, start, base) == RunEnd(s, end, base)
      invariant overflow <==> Number(s, start, end, base) > MAX
      invariant !overflow ==> x == Number(s, start, end, base)
      decreases |s| - end
    {
      var digit := DigitOf(CharAt(s, end), base).value;
      NextDigit(s, start, end, base);
      DigitStep(x, Number(s, start, end, base), overflow, digit, base);
      if x > Limit(digit, base) {
        overflow := true;
      } else {
        x := Extend(x, base, digit);
      }
      end := end + 1;
    }
    RunStops(s, end, base);
    if overflow {
      x := MAX;
    }
  }

  lemma NoDigitsYet(s: string, start: nat, base: nat)
    requires 2 <= base <= 36
    ensures Number(s, start, start, base) == 0 <= MAX
  {
  }

  lemma RunStops(s: string, end: nat, base: nat)
    requires 2 <= base <= 36 && DigitOf(CharAt(s, end), base).None?
    ensures RunEnd(s, end, base) == end
  {
  }

  /** One digit more, where `n` is the number so far and `x` the accumulator. */
  lemma DigitStep(x: nat, n: nat, overflow: bool, d: nat, b: nat)
    requires d < b <= 36 && x <= MAX && (overflow <==> n > MAX) && (!overflow ==> x == n)
    ensures d <= MAX && b > 0
    ensures overflow || x > Limit(d, b) <==> Extend(n, b, d) > MAX
    ensures x <= Limit(d, b) ==> Extend(x, b, d) <= MAX
  {
    OverflowTest(x, d, b);
    if overflow {
      MulAtMost(1, b, n);
    }
  }

  lemma NextDigit(s: string, start: nat, end: nat, base: nat)
    requires 2 <= base <= 36 && start <= end && DigitOf(CharAt(s, end), base).Some?
    requires forall k :: start <= k < end ==> DigitOf(CharAt(s, k), base).Some?
    ensures Number(s, start, end + 1, base)
              == Extend(Number(s, start, end, base), base, DigitOf(CharAt(s, end), base).value)
    ensures RunEnd(s, end, base) == RunEnd(s, end + 1, base) && end < |s|
  {
  }

  method SkipBlanks(s: string) returns (i: nat)
    ensures i == SkipSpaces(s, 0) && i <= |s|
  {
    i := 0;
    while IsSpace(CharAt(s, i))
      invariant i <= |s| && SkipSpaces(s, 0) == SkipSpaces(s, i)
      decreases |s| - i
    {
      i := i + 1;
    }
  }

  method ParseUnsigned(s: string, base: nat) returns (value: nat, end: nat)
    requires base == 0 || 2 <= base <= 36
    ensures Parsed(value, end) == Strtoul(s, base)
  {
    hide SkipSpaces, RunEnd, Number, IsSpace;
    var i := SkipBlanks(s);
    var negative := CharAt(s, i) == '-';
    if negative || CharAt(s, i) == '+' {
      i := i + 1;
    }
    var b := base;
    if base == 0 {
      if HexMark(s, i) {
        b := 16;
        i := i + 2;
      } else if CharAt(s, i) == '0' {
        b := 8;
      } else {
        b := 10;
      }
    } else if base == 16 && HexMark(s, i) {
      i := i + 2;
    }
    value, end := ParseDigits(s, i, b);
    if negative {
      value := Negate(value);
    }
  }

  method ParseSigned(s: string, base: nat) returns (value: int, end: nat)
    requires base == 0 || 2 <= base <= 36
    ensures (value, end) == Strtol(s, base)
  {
    hide Strtoul, Signed, Negate, SkipSpaces;
    var i := SkipBlanks(s);
    var negative := CharAt(s, i) == '-';
    if negative {
      i := i + 1;
    }
    value, end := ParseRest(s, i, negative, base);
  }

  /** `strtol` after its own sign. */
  method ParseRest(s: string, i: nat, negative: bool, base: nat) returns (value: int, end: nat)
    requires (base == 0 || 2 <= base <= 36) && i <= |s|
    ensures var p, bound := Strtoul(s[i..], base), if negative then HALF else HALF - 1;
            var u := if p.value > bound then bound else p.value;
            value == Signed(if negative then Negate(u) else u) && end == i + p.end
  {
    hide Strtoul, Signed;
    var u, rest := ParseUnsigned(s[i..], base);
    var bound := if negative then HALF else HALF - 1;
    if u > bound {
      u := bound;
    }
    if negative {
      u := Negate(u);
    }
    return Signed(u), i + rest;
  }

  // ---------------------------------------------------------------------------------------
  // Printing

  function DigitChar(d: nat, lower: bool): char
    requires d < 16
  {
    (if d < 10 then 48 + d else if lower then 87 + d else 55 + d) as char
  }

  function Quot(val: nat, base: nat): nat
    requires base > 0
  {
    val / base
  }

  function Rem(val: nat, base: nat): nat
    requires base > 0
  {
    val % base
  }

  /** The digits of a number. */
  function Text(val: nat, base: nat, lower: bool): (t: string)
    requires 2 <= base <= 16
    ensures |t| >= 1
    decreases val
  {
    Quotient(val, base);
    (if val < base then "" else Text(Quot(val, base), base, lower)) + [DigitChar(Rem(val, base), lower)]
  }

  function Power(b: nat, n: nat): nat {
    if n == 0 then 1 else b * Power(b, n - 1)
  }

  /** A number below `base`^n has at most `n` digits. */
  lemma {:induction false} TextLength(val: nat, base: nat, lower: bool, n: nat)
    requires 2 <= base <= 16 && n >= 1 && val < Power(base, n)
    ensures |Text(val, base, lower)| <= n
    decreases n
  {
    if val >= base && n > 1 {
      DivideBound(val, base, Power(base, n - 1));
      TextLength(Quot(val, base), base, lower, n - 1);
    }
  }

  lemma DivideBound(val: nat, b: nat, p: nat)
    requires b > 0 && val < b * p
    ensures val / b < p
  {
    if val / b >= p {
      MulAtMost(p, val / b, b);
    }
  }

  /** In bases from 8 on, every 64-bit number fits in 22 digits, so in a buffer of 24 characters. */
  lemma FitsBuffer(val: nat, base: nat, lower: bool)
    requires val <= MAX && 8 <= base <= 16
    ensures |Text(val, base, lower)| <= 22
  {
    PowerGrows(8, base, 22);
    EightTo22();
    TextLength(val, base, lower, 22);
  }

  lemma {:induction false} PowerGrows(a: nat, b: nat, n: nat)
    requires a <= b
    ensures Power(a, n) <= Power(b, n)
  {
    if n > 0 {
      PowerGrows(a, b, n - 1);
      MulAtMost(a, b, Power(a, n - 1));
      MulAtMost(Power(a, n - 1), Power(b, n - 1), b);
    }
  }

  lemma EightTo22()
    ensures Power(8, 22) > MAX
  {
    assert Power(8, 4) == 4096;
    assert Power(8, 8) == 0x100_0000;
    assert Power(8, 12) == 0x10_0000_0000;
    assert Power(8, 16) == 0x1_0000_0000_0000;
    assert Power(8, 20) == 0x1000_0000_0000_0000;
  }

  /** `fill_numbuf`: writes the digits and a null before position `end` of the buffer; returns where they begin. */
  method FillNumbuf(buf: array<char>, end: nat, val: nat, base: nat, lower: bool) returns (start: nat)
    requires 2 <= base <= 16 && |Text(val, base, lower)| + 1 <= end <= buf.Length
    modifies buf
    ensures start + |Text(val, base, lower)| + 1 == end
    ensures buf[start..end - 1] == Text(val, base, lower) && buf[end - 1] == '\0'
    ensures forall i :: (0 <= i < start || end <= i < buf.Length) ==> buf[i] == old(buf[i])
  {
    hide *;
    start := end - 1;
    buf[start] := '\0';
    var left: nat := val;
    ghost var text, done := Text(val, base, lower), "";
    assert text == text + done && buf[start..end - 1] == done;
    var more := true;
    while more
      invariant start < end && start + |done| + 1 == end && buf[end - 1] == '\0' && buf[start..end - 1] == done
      invariant forall i :: (0 <= i < start || end <= i < buf.Length) ==> buf[i] == old(buf[i])
      invariant if more then text == Text(left, base, lower) + done else text == done
      decreases more, left
    {
      ghost var rest := if Quot(left, base) == 0 then "" else Text(Quot(left, base), base, lower);
      TextUnfold(left, base, lower);
      Regroup(text, rest, DigitChar(Rem(left, base), lower), done);
      done := [DigitChar(Rem(left, base), lower)] + done;
      start := PutBefore(buf, start, end, DigitChar(Rem(left, base), lower));
      left := Quot(left, base);
      more := left != 0;
    }
  }

  lemma Regroup(text: string, rest: string, c: char, done: string)
    requires text == (rest + [c]) + done
    ensures text == rest + ([c] + done) && |text| >= |done| + 1 && (rest == "" ==> text == [c] + done)
  {
  }

  /** `*--p = c`. */
  method PutBefore(buf: array<char>, p: nat, end: nat, c: char) returns (q: nat)
    requires 1 <= p < end <= buf.Length
    modifies buf
    ensures q == p - 1 && buf[q..end - 1] == [c] + old(buf[p..end - 1]) && buf[end - 1] == old(buf[end - 1])
    ensures forall i :: (0 <= i < q || end <= i < buf.Length) ==> buf[i] == old(buf[i])
  {
    q := p - 1;
    buf[q] := c;
    assert buf[q..end - 1] == [buf[q]] + buf[p..end - 1];
  }

  lemma TextUnfold(val: nat, base: nat, lower: bool)
    requires 2 <= base <= 16
    ensures Rem(val, base) < base && (Quot(val, base) < val || Quot(val, base) == val == 0)
    ensures Text(val, base, lower)
              == (if Quot(val, base) == 0 then ""
                  else Text(Quot(val, base), base, lower)) + [DigitChar(Rem(val, base), lower)]
  {
    Quotient(val, base);
  }

  lemma Quotient(val: nat, base: nat)
    requires 2 <= base
    ensures Quot(val, base) == 0 <==> val < base
    ensures (Quot(val, base) < val || val == 0) && Rem(val, base) < base
    ensures val == Extend(Quot(val, base), base, Rem(val, base))
  {
    var q := val / base;
    assert val == q * base + val % base;
    if q > 0 {
      MulAtMost(1, q, base);
      MulAtMost(2, base, q);
    }
  }

  // ---------------------------------------------------------------------------------------
  // Round trips

  lemma DigitBack(d: nat, base: nat, lower: bool)
    requires d < base && 2 <= base <= 16
    ensures DigitOf(DigitChar(d, lower), base) == Some(d)
  {
  }

  /** Every character of a printed number is a digit, and they stand for the number. */
  lemma {:induction false} NumberOfText(val: nat, base: nat, lower: bool, s: string, i: nat, j: nat)
    requires 2 <= base <= 16 && i <= j <= |s| && s[i..j] == Text(val, base, lower)
    ensures forall k :: i <= k < j ==> DigitOf(CharAt(s, k), base).Some?
    ensures Number(s, i, j, base) == val
    decreases val
  {
    hide Text, DigitOf, DigitChar, Quot, Rem, Extend;
    TextUnfold(val, base, lower);
    Quotient(val, base);
    DigitBack(Rem(val, base), base, lower);
    SliceLast(s, i, j);
    Cancel(s[i..j - 1], s[j - 1], if Quot(val, base) == 0 then "" else Text(Quot(val, base), base, lower),
           DigitChar(Rem(val, base), lower));
    if val >= base {
      NumberOfText(Quot(val, base), base, lower, s, i, j - 1);
    }
  }

  lemma SliceLast(s: string, i: nat, j: nat)
    requires i < j <= |s|
    ensures s[i..j] == s[i..j - 1] + [s[j - 1]]
  {
  }

  lemma Cancel(a: string, x: char, b: string, y: char)
    requires a + [x] == b + [y]
    ensures a == b && x == y
  {
    assert |a + [x]| == |a| + 1 && |b + [y]| == |b| + 1;
    assert a == (a + [x])[..|a|] && b == (b + [y])[..|b|];
    assert (a + [x])[|a|] == x && (b + [y])[|b|] == y;
  }

  lemma {:induction false} RunOverDigits(s: string, i: nat, j: nat, base: nat)
    requires 2 <= base <= 36 && i <= j && forall k :: i <= k < j ==> DigitOf(CharAt(s, k), base).Some?
    requires DigitOf(CharAt(s, j), base).None?
    ensures RunEnd(s, i, base) == j
    decreases j - i
  {
    if i < j {
      RunOverDigits(s, i + 1, j, base);
    }
  }

  lemma {:induction false} TextShape(val: nat, base: nat, lower: bool)
    requires 2 <= base <= 16
    ensures forall k :: 0 <= k < |Text(val, base, lower)| ==> IsDigitChar(Text(val, base, lower)[k])
    decreases val
  {
    Quotient(val, base);
    if val >= base {
      TextShape(Quot(val, base), base, lower);
    }
  }

  predicate IsDigitChar(c: char) {
    '0' <= c <= '9' || 'A' <= c <= 'F' || 'a' <= c <= 'f'
  }

  lemma DigitIsPlain(c: char)
    requires IsDigitChar(c)
    ensures !IsSpace(c) && c != '-' && c != '+' && c != 'x' && c != 'X'
  {
  }

  lemma NoBlanks(s: string)
    requires s == "" || !IsSpace(s[0])
    ensures SkipSpaces(s, 0) == 0
  {
  }

  /** For every 64-bit number and every base from 2 to 16: parsing the printed number gives it back, and reads it
      whole. */
  lemma UnsignedRoundTrip(val: nat, base: nat, lower: bool)
    requires val <= MAX && 2 <= base <= 16
    ensures Strtoul(Text(val, base, lower), base) == Parsed(val, |Text(val, base, lower)|)
  {
    var t := Text(val, base, lower);
    TextShape(val, base, lower);
    assert t[0..|t|] == t;
    NumberOfText(val, base, lower, t, 0, |t|);
    RunOverDigits(t, 0, |t|, base);
    hide Text, Number, RunEnd;
    DigitIsPlain(t[0]);
    NoBlanks(t);
    if |t| > 1 {
      DigitIsPlain(t[1]);
    }
    assert !HexMark(t, 0);
  }

  /** What `printf` makes of a signed number. */
  function SignedText(x: int): string
    requires 0 - HALF <= x < HALF
  {
    if x < 0 then "-" + Text(-x, 10, false) else Text(x, 10, false)
  }

  lemma PlainSigned(t: string, val: nat)
    requires t != "" && IsDigitChar(t[0]) && Strtoul(t, 10) == Parsed(val, |t|)
    ensures Strtol(t, 10) == (if val > HALF - 1 then HALF - 1 else val, |t|)
  {
    hide Strtoul;
    DigitIsPlain(t[0]);
    NoBlanks(t);
    assert t[0..] == t;
  }

  lemma MinusSigned(s: string, t: string, val: nat)
    requires s == "-" + t && Strtoul(t, 10) == Parsed(val, |t|)
    ensures Strtol(s, 10) == (if val > HALF then 0 - HALF else 0 - val, |s|)
  {
    hide Strtoul;
    NoBlanks(s);
    assert s[0] == '-' && s[1..] == t;
  }

  /** For every `long`: parsing the printed number gives it back. */
  lemma SignedRoundTrip(x: int)
    requires 0 - HALF <= x < HALF
    ensures Strtol(SignedText(x), 10) == (x, |SignedText(x)|)
  {
    hide Text, Strtoul, Strtol;
    var val: nat := if x < 0 then -x else x;
    var t := Text(val, 10, false);
    UnsignedRoundTrip(val, 10, false);
    TextShape(val, 10, false);
    if x < 0 {
      MinusSigned(SignedText(x), t, val);
    } else {
      PlainSigned(t, val);
    }
  }

  /** A run of decimal digits that stands for too large a number gives 2^64-1. */
  lemma Saturates(s: string)
    requires forall k :: 0 <= k < |s| ==> '0' <= s[k] <= '9'
    ensures var run := RunEnd(s, 0, 10);
            && run == |s|
            && Strtoul(s, 10) == Parsed(if Number(s, 0, run, 10) > MAX then MAX else Number(s, 0, run, 10), |s|)
  {
    RunOverDigits(s, 0, |s|, 10);
    NoBlanks(s);
  }

  /** A printed number after other characters: the digits are read from there to the end. */
  lemma DigitsAfter(prefix: string, val: nat, base: nat, lower: bool)
    requires 2 <= base <= 16
    ensures var s := prefix + Text(val, base, lower);
            && RunEnd(s, |prefix|, base) == |s|
            && Number(s, |prefix|, |s|, base) == val
  {
    var t := Text(val, base, lower);
    var s := prefix + t;
    assert s[|prefix|..|s|] == t;
    NumberOfText(val, base, lower, s, |prefix|, |s|);
    RunOverDigits(s, |prefix|, |s|, base);
  }

  /** The marks: `0x` selects base 16 when no base is given, and a minus sign negates modulo 2^64. */
  lemma MarkedNumbers(val: nat, lower: bool)
    requires val <= MAX
    ensures Strtoul("0x" + Text(val, 16, lower), 0) == Parsed(val, 2 + |Text(val, 16, lower)|)
    ensures Strtoul("-" + Text(val, 10, false), 10) == Parsed(Negate(val), 1 + |Text(val, 10, false)|)
  {
    var s, t := "0x" + Text(val, 16, lower), "-" + Text(val, 10, false);
    DigitsAfter("0x", val, 16, lower);
    DigitsAfter("-", val, 10, false);
    hide Text, Number, RunEnd;
    assert s[0] == '0' && s[1] == 'x' && t[0] == '-';
    NoBlanks(s);
    NoBlanks(t);
  }

  /** Out of the range of a long, `strtol` gives the nearer end of it. */
  lemma SignedClamps(val: nat)
    requires HALF <= val <= MAX
    ensures Strtol(Text(val, 10, false), 10).0 == HALF - 1
    ensures Strtol("-" + Text(val, 10, false), 10).0 == 0 - HALF
  {
    var t := Text(val, 10, false);
    UnsignedRoundTrip(val, 10, false);
    TextShape(val, 10, false);
    hide Text, Strtoul, Strtol;
    PlainSigned(t, val);
    MinusSigned("-" + t, t, val);
  }
}
