/** Numbers as they are written down, and what `strtoul` and `strtol` read in them (lib.cc; ISO C11 section 7.22.1.4).

A numeral is blanks, a sign, a mark, digits and something that ends them; its value is the positional one. Nothing
here speaks of how the parser tells a blank, a mark or a digit from other characters.
 */
module Numerals {
  import opened Arithmetic
  import opened Numbers

  const BLANKS: string := "\t\n\U{0B}\U{0C}\r "

  /** A digit as it is written: '0' to '9', then letters from `a` on. */
  function Glyph(d: nat, a: char): char
    requires d < 36 && (a == 'a' || a == 'A')
  {
    if d < 10 then '0' + d as char else a + (d - 10) as char
  }

  function Value(digits: seq<nat>, base: nat): nat {
    if digits == [] then 0 else Value(digits[..|digits| - 1], base) * base + digits[|digits| - 1]
  }

  /** A character that stands for a digit. Of the capital letters only those are read rightly that the test for '0' to
      '9', which goes up to '0' + base, does not reach. */
  predicate Writes(c: char, d: nat, base: nat) {
    d < base <= 36 && (c == Glyph(d, 'a') || (c == Glyph(d, 'A') && base <= d + 7))
  }

  predicate WritesAll(t: string, digits: seq<nat>, base: nat) {
    |t| == |digits| && forall k :: 0 <= k < |t| ==> Writes(t[k], digits[k], base)
  }

  /** The digits of a base end here. */
  predicate Ends(tail: string, base: nat) {
    tail == "" || tail[0] < '0' || tail[0] > 'z'
    || exists d :: base <= d < 36 && tail[0] == Glyph(d, 'a') && tail[0] != 'x'
  }

  predicate IsHexMark(mark: string) {
    mark == "0x" || mark == "0X"
  }

  /** The base `b` in which a numeral is written, where `base` is what the caller asks for (0 for any). */
  predicate InBase(base: nat, mark: string, first: nat, b: nat) {
    if base == 0 then
      (IsHexMark(mark) && b == 16) || (mark == "" && b == if first == 0 then 8 else 10)
    else
      b == base && (mark == "" || (base == 16 && IsHexMark(mark)))
  }

  datatype Numeral = Numeral(blanks: string, sign: string, mark: string, text: string, tail: string)
  {
    function Whole(): string {
      blanks + (sign + (mark + (text + tail)))
    }

    function Length(): nat {
      |blanks| + |sign| + |mark| + |text|
    }

    /** Stands for these digits in base `b`, read by a caller that asks for `base`. */
    predicate Is(digits: seq<nat>, base: nat, b: nat) {
      && (forall k :: 0 <= k < |blanks| ==> blanks[k] in BLANKS)
      && (sign == "" || sign == "+" || sign == "-")
      && 2 <= b && |digits| > 0 && WritesAll(text, digits, b) && Ends(tail, b)
      && InBase(base, mark, digits[0], b)
    }
  }

  lemma {:induction false} SkipOver(s: string, i: nat, j: nat)
    requires i <= j <= |s| && (forall k :: i <= k < j ==> IsSpace(s[k])) && !IsSpace(CharAt(s, j))
    ensures SkipSpaces(s, i) == j
    decreases j - i
  {
    if i < j {
      SkipOver(s, i + 1, j);
    }
  }

  lemma DigitRead(c: char, d: nat, base: nat)
    requires 2 <= base && Writes(c, d, base)
    ensures DigitOf(c, base) == Some(d) && (c == '0' <==> d == 0)
    ensures !IsSpace(c) && c != '+' && c != '-' && (base <= 16 ==> c != 'x' && c != 'X')
  {
  }

  lemma TailEnds(tail: string, base: nat)
    requires 2 <= base <= 36 && Ends(tail, base)
    ensures DigitOf(CharAt(tail, 0), base) == None && CharAt(tail, 0) != 'x' && CharAt(tail, 0) != 'X'
  {
  }

  lemma BlankIsSpace(c: char)
    requires c in BLANKS
    ensures IsSpace(c)
  {
  }

  /** The digits from `i` on have the positional value. */
  lemma {:induction false} NumberIsValue(s: string, i: nat, t: string, digits: seq<nat>, base: nat)
    requires 2 <= base <= 36 && WritesAll(t, digits, base) && i + |t| <= |s| && s[i..i + |t|] == t
    ensures forall k :: i <= k < i + |t| ==> DigitOf(CharAt(s, k), base).Some?
    ensures Number(s, i, i + |t|, base) == Value(digits, base)
    decreases |t|
  {
    hide Writes, DigitOf;
    if t != "" {
      var n := |t| - 1;
      assert s[i..i + n] == t[..n];
      assert s[i + n] == t[n];
      DigitRead(t[n], digits[n], base);
      NumberIsValue(s, i, t[..n], digits[..n], base);
    }
  }

  /** The characters of a numeral, by position. */
  lemma WholeAt(n: Numeral, s: string)
    requires s == n.Whole()
    ensures |n.blanks| + |n.sign| + |n.mark| + |n.text| + |n.tail| == |s|
    ensures forall k :: 0 <= k < |n.blanks| ==> s[k] == n.blanks[k]
    ensures var j := |n.blanks|;
            && s[j..j + |n.sign|] == n.sign
            && s[j + |n.sign|..j + |n.sign| + |n.mark|] == n.mark
            && s[j + |n.sign| + |n.mark|..n.Length()] == n.text
            && s[n.Length()..] == n.tail
  {
  }

  /** What comes after the sign, read from there: the base, where the digits begin and end, and their number. */
  lemma ReadsDigits(s: string, j: nat, n: Numeral, digits: seq<nat>, base: nat, b: nat)
    requires n.Is(digits, base, b)
    requires j + |n.mark| + |n.text| <= |s| && s[j..j + |n.mark|] == n.mark
    requires s[j + |n.mark|..j + |n.mark| + |n.text|] == n.text && s[j + |n.mark| + |n.text|..] == n.tail
    ensures (base == 0 || 2 <= base <= 36) && b <= 36
    ensures BaseAt(s, j, base) == b && DigitsAt(s, j, base) == j + |n.mark|
    ensures RunEnd(s, j + |n.mark|, b) == j + |n.mark| + |n.text|
    ensures Number(s, j + |n.mark|, j + |n.mark| + |n.text|, b) == Value(digits, b)
    ensures CharAt(s, j) != '+' && CharAt(s, j) != '-' && !IsSpace(CharAt(s, j))
  {
    hide DigitOf, Number, Value, RunEnd;
    var start, end := j + |n.mark|, j + |n.mark| + |n.text|;
    assert Writes(n.text[0], digits[0], b);
    assert CharAt(s, end) == CharAt(n.tail, 0) && s[start] == n.text[0];
    TailEnds(n.tail, b);
    NumberIsValue(s, start, n.text, digits, b);
    RunOverDigits(s, start, end, b);
    DigitRead(n.text[0], digits[0], b);
    if |n.text| > 1 {
      assert s[start + 1] == n.text[1];
      DigitRead(n.text[1], digits[1], b);
    }
    if n.mark != "" {
      assert s[j] == n.mark[0] && s[j + 1] == n.mark[1];
    }
  }

  /** The blanks are skipped, and then comes the sign. */
  lemma ReadsSign(n: Numeral, digits: seq<nat>, base: nat, b: nat)
    requires n.Is(digits, base, b)
    ensures SkipSpaces(n.Whole(), 0) == |n.blanks| <= |n.Whole()|
    ensures CharAt(n.Whole(), |n.blanks|) == '-' <==> n.sign == "-"
    ensures CharAt(n.Whole(), |n.blanks|) == '+' <==> n.sign == "+"
  {
    hide Number, Value, RunEnd, BaseAt, DigitsAt, DigitOf;
    var s, i := n.Whole(), |n.blanks|;
    WholeAt(n, s);
    ReadsDigits(s, i + |n.sign|, n, digits, base, b);
    hide Numeral.Whole;
    assert n.sign != "" ==> s[i] == n.sign[0];
    BlanksAreSpaces(s, n.blanks);
    SkipOver(s, 0, i);
  }

  lemma BlanksAreSpaces(s: string, blanks: string)
    requires |blanks| <= |s| && forall k :: 0 <= k < |blanks| ==> s[k] == blanks[k]
    requires forall k :: 0 <= k < |blanks| ==> blanks[k] in BLANKS
    ensures forall k :: 0 <= k < |blanks| ==> IsSpace(s[k])
  {
    forall k | 0 <= k < |blanks|
      ensures IsSpace(s[k])
    {
      BlankIsSpace(blanks[k]);
    }
  }

  lemma SignLength(n: Numeral, digits: seq<nat>, base: nat, b: nat)
    requires n.Is(digits, base, b)
    ensures |n.sign| == (if n.sign == "-" || n.sign == "+" then 1 else 0)
    ensures n.Length() == |n.blanks| + |n.sign| + |n.mark| + |n.text|
  {
  }

  /** A value as `strtoul` returns it. */
  function Fitted(value: nat, minus: bool): nat {
    var x := if value > MAX then MAX else value;
    if minus then (MAX + 1 - x) % (MAX + 1) else x
  }

  /** Every numeral is read as what it stands for, up to its end: the value, or 2^64-1 if that is smaller, negated
      modulo 2^64 after a minus sign. */
  lemma ParsesNumeral(n: Numeral, digits: seq<nat>, base: nat, b: nat)
    requires n.Is(digits, base, b)
    ensures base == 0 || 2 <= base <= 36
    ensures Strtoul(n.Whole(), base) == Parsed(Fitted(Value(digits, b), n.sign == "-"), n.Length())
  {
    hide *;
    SignLength(n, digits, base, b);
    ReadsSign(n, digits, base, b);
    WholeAt(n, n.Whole());
    ReadsDigits(n.Whole(), |n.blanks| + |n.sign|, n, digits, base, b);
    Assemble(n.Whole(), base, |n.blanks|, |n.blanks| + |n.sign|, |n.blanks| + |n.sign| + |n.mark|, n.Length(), b,
             Value(digits, b));
  }

  /** `strtoul` put together from its parts. */
  lemma Assemble(s: string, base: nat, i: nat, j: nat, start: nat, end: nat, b: nat, value: nat)
    requires base == 0 || 2 <= base <= 36
    requires SkipSpaces(s, 0) == i && j == if CharAt(s, i) == '-' || CharAt(s, i) == '+' then i + 1 else i
    requires BaseAt(s, j, base) == b && DigitsAt(s, j, base) == start
    requires RunEnd(s, start, b) == end && Number(s, start, end, b) == value
    ensures Strtoul(s, base) == Parsed(Fitted(value, CharAt(s, i) == '-'), end)
  {
    hide SkipSpaces, BaseAt, DigitsAt, RunEnd, Number, CharAt;
  }

  /** The nearest number that a `long` can hold. */
  function Clamped(x: int): int {
    if x < 0 - HALF then 0 - HALF else if x > HALF - 1 then HALF - 1 else x
  }

  /** The same for `strtol`: the value with its sign, or the end of the range of `long` nearest to it. */
  lemma ParsesSigned(n: Numeral, digits: seq<nat>, base: nat, b: nat)
    requires n.Is(digits, base, b)
    ensures base == 0 || 2 <= base <= 36
    ensures Strtol(n.Whole(), base)
              == (Clamped(if n.sign == "-" then 0 - Value(digits, b) else Value(digits, b)), n.Length())
  {
    hide Value, Strtoul, SkipSpaces, CharAt, WritesAll, Ends, InBase;
    ReadsSign(n, digits, base, b);
    var rest := Numeral("", if n.sign == "-" then "" else n.sign, n.mark, n.text, n.tail);
    var j := if n.sign == "-" then |n.blanks| + 1 else |n.blanks|;
    assert n.Whole()[j..] == rest.Whole();
    ParsesNumeral(rest, digits, base, b);
  }

  /** A capital letter alone is read as the digit it stands for exactly if the base is at most 7 above the digit; else
      as a digit 7 too large. So every base up to 17 reads capitals rightly, and every larger one misreads 'A'. */
  lemma CapitalIff(d: nat, base: nat)
    requires 10 <= d < base <= 36
    ensures Strtoul([Glyph(d, 'A')], base) == Parsed(if base <= d + 7 then d else d + 7, 1)
  {
    var c := Glyph(d, 'A');
    var e := if base <= d + 7 then d else d + 7;
    var s := [c];
    assert DigitOf(c, base) == Some(e);
    RunOverDigits(s, 0, 1, base);
    assert Number(s, 0, 0, base) == 0;
    NoBlanks(s);
  }

  /** A printed number consists of digits of its base in the letters asked for, and begins with '0' only if it is zero.
      */
  lemma {:induction false} TextGlyphs(val: nat, base: nat, lower: bool)
    requires 2 <= base <= 16
    ensures var t, a := Text(val, base, lower), if lower then 'a' else 'A';
            && (forall k :: 0 <= k < |t| ==> exists d :: 0 <= d < base && t[k] == Glyph(d, a))
            && (t[0] == '0' <==> val == 0)
    decreases val
  {
    Quotient(val, base);
    var d := Rem(val, base);
    assert DigitChar(d, lower) == Glyph(d, if lower then 'a' else 'A');
    if val >= base {
      TextGlyphs(Quot(val, base), base, lower);
    }
  }
}
