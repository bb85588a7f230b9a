/** The x86-64 paging vocabulary of WeensyOS: words, page-table entries, address fields.

A 64-bit word is kept as its upper 52 bits and its low 12 flag bits, so every mask the
kernel applies to an entry is either a remainder of `hi` or a bit operation on `flags`.
Of the flag bits, the four that the kernel tests have names; the other eight are kept together.
A physical page, whether it holds data or a page table, is a sequence of 512 words.
 */
module Paging {
  import opened Arithmetic

  /** The low 12 bits of a word: PTE_P (bit 0), PTE_W (bit 1), PTE_U (bit 2), PTE_PS (bit 7), and bits 3 to 6 and 8 to
      11. */
  datatype Flags = Flags(p: bool, w: bool, u: bool, ps: bool, rest: bv8)

  datatype Word = Word(hi: nat, flags: Flags)

  type Page = seq<Word>

  /** Physical memory, indexed by page number. */
  type Mem = seq<Page>

  const ENTRIES: nat := 512
  const PAGESIZE: nat := 0x1000

  const NONE: Flags := Flags(false, false, false, false, 0)
  const PTE_P: Flags := Flags(true, false, false, false, 0)
  const PTE_PW: Flags := Flags(true, true, false, false, 0)
  const PTE_PU: Flags := Flags(true, false, true, false, 0)
  const PTE_PWU: Flags := Flags(true, true, true, false, 0)
  const ALL_PERM: Flags := Flags(true, true, true, true, 0xFF)

  const ZERO: Word := Word(0, NONE)
  const CC_WORD: Word := Word(0xCCCCCCCCCCCCC, Flags(false, false, true, true, 0xC9))

  /** The page that `memset` leaves behind when every word of it is `w`. */
  function Filled(w: Word): (p: Page)
    ensures |p| == ENTRIES && forall i :: 0 <= i < ENTRIES ==> p[i] == w
  {
    seq(ENTRIES, _ => w)
  }

  const VA_LOWEND: nat := 0x0000_8000_0000_0000
  const VA_HIGHMIN: nat := 0xFFFF_8000_0000_0000
  const VA_NONCANONEND: nat := 0x0001_0000_0000_0000
  const VA_END: nat := 0x1_0000_0000_0000_0000

  /** The page number in an entry: PTE_PAMASK keeps bits 12 to 51. */
  function FrameOf(w: Word): nat {
    w.hi % 0x100_0000_0000
  }

  /** Bitwise and; the permissions met along a walk are combined in this way. */
  function And(a: Flags, b: Flags): Flags {
    Flags(a.p && b.p, a.w && b.w, a.u && b.u, a.ps && b.ps, a.rest & b.rest)
  }

  function Or(a: Flags, b: Flags): Flags {
    Flags(a.p || b.p, a.w || b.w, a.u || b.u, a.ps || b.ps, a.rest | b.rest)
  }

  /** The low 12 bits of a number. */
  function LowBits(n: nat): Flags {
    Flags(n % 2 == 1, n / 2 % 2 == 1, n / 4 % 2 == 1, n / 128 % 2 == 1, (n / 8 % 16 + n / 256 % 16 * 16) as bv8)
  }

  /** A word as the number it is in memory: the named bits are bits 0, 1, 2 and 7. */
  function WordNumber(w: Word): nat {
    var f := w.flags;
    w.hi * 0x1000 + (if f.p then 1 else 0) + (if f.w then 2 else 0) + (if f.u then 4 else 0) + (if f.ps then 128 else 0)
    + OtherBits(f.rest as nat)
  }

  function OtherBits(rest: nat): nat {
    rest % 16 * 8 + rest / 16 * 256
  }

  /** The bits of a number make up the number again. */
  lemma WordOfNumber(n: nat)
    ensures WordNumber(Word(n / 0x1000, LowBits(n))) == n
  {
    var a, b := n / 8 % 16, n / 256 % 16;
    TwoNibbles(a, b);
    LowThree(n);
    Fields(n);
  }

  lemma TwoNibbles(a: nat, b: nat)
    requires a < 16 && b < 16
    ensures (a + b * 16) as bv8 as nat == a + b * 16 && (a + b * 16) % 16 == a && (a + b * 16) / 16 == b
  {
  }

  lemma LowThree(n: nat)
    ensures n == n / 8 * 8 + n / 4 % 2 * 4 + n / 2 % 2 * 2 + n % 2
  {
    var a, b, c := n / 2, n / 4, n / 8;
    assert b == a / 2;
    assert c == b / 2;
  }

  lemma Fields(n: nat)
    ensures n == n / 0x1000 * 0x1000 + n / 256 % 16 * 256 + n / 128 % 2 * 128 + n / 8 % 16 * 8 + n - n / 8 * 8
  {
    var a, b, c := n / 8, n / 128, n / 256;
    assert b == a / 16;
    assert c == b / 2;
    assert n / 0x1000 == c / 16;
  }

  /** Every byte of a new page is 0xCC. */
  lemma FillIsCC()
    ensures WordNumber(CC_WORD) == 0xCCCC_CCCC_CCCC_CCCC
  {
  }

  predicate Present(w: Word) {
    w.flags.p
  }

  /** An entry that leads to a further page-table page: present and not a large page. */
  predicate IsTable(w: Word) {
    w.flags.p && !w.flags.ps
  }

  /** The bytes that one entry of a level-`level` table covers (`pageoffmask(level) + 1`). */
  function Span(level: nat): (n: nat)
    requires level <= 4
    ensures 0 < n
  {
    if level == 0 then 0x1000
    else if level == 1 then 0x20_0000
    else if level == 2 then 0x4000_0000
    else if level == 3 then 0x80_0000_0000
    else 0x1_0000_0000_0000
  }

  function Index(va: nat, level: nat): (i: nat)
    requires level <= 3
    ensures i < ENTRIES
  {
    va / Span(level) % ENTRIES
  }

  /** The four table indices of an address, the level-0 index first. */
  type Path = p: seq<nat> | |p| == 4 && forall k :: 0 <= k < 4 ==> p[k] < ENTRIES witness [0, 0, 0, 0]

  function PathOf(va: nat): Path {
    [Index(va, 0), Index(va, 1), Index(va, 2), Index(va, 3)]
  }

  predicate Canonical(va: nat) {
    va < VA_LOWEND || va >= VA_HIGHMIN
  }

  /** The first address after the level-`level` block of `va`, wrapping at 64 bits. */
  function BlockEnd(va: nat, level: nat): nat
    requires level <= 3
  {
    (va / Span(level) + 1) * Span(level) % VA_END
  }

  /** Entry `i` of the page-table page at frame `f`. */
  function WordAt(mem: Mem, f: nat, i: nat): Word {
    if f < |mem| && i < |mem[f]| then mem[f][i] else ZERO
  }

  /** Blocks nest: a level-(`k`+1) block is made of 512 level-`k` blocks. */
  lemma BlocksNest(a: nat, k: nat)
    requires k <= 3
    ensures a / Span(k + 1) == a / Span(k) / ENTRIES
  {
    if k == 0 {
      assert a / 0x20_0000 == a / 0x1000 / 512;
    } else if k == 1 {
      assert a / 0x4000_0000 == a / 0x20_0000 / 512;
    } else if k == 2 {
      assert a / 0x80_0000_0000 == a / 0x4000_0000 / 512;
    } else {
      assert a / 0x1_0000_0000_0000 == a / 0x80_0000_0000 / 512;
    }
  }

  /** Two addresses in the same level-`k` block use the same entries at every level from `k` up. */
  lemma {:induction false} SameBlockSameIndex(a: nat, b: nat, k: nat, level: nat)
    requires k <= level <= 3
    requires a / Span(k) == b / Span(k)
    ensures a / Span(level) == b / Span(level)
    ensures Index(a, level) == Index(b, level)
    decreases level - k
  {
    if k < level {
      BlocksNest(a, k);
      BlocksNest(b, k);
      SameBlockSameIndex(a, b, k + 1, level);
    }
  }

  /** Conversely, below a common level-(`k`+1) block, equal indices give the same level-`k` block. */
  lemma SameIndexSameBlock(a: nat, b: nat, k: nat)
    requires k <= 3
    requires a / Span(k + 1) == b / Span(k + 1)
    requires Index(a, k) == Index(b, k)
    ensures a / Span(k) == b / Span(k)
  {
    BlocksNest(a, k);
    BlocksNest(b, k);
    var x, y := a / Span(k), b / Span(k);
    assert x == x / ENTRIES * ENTRIES + x % ENTRIES;
    assert y == y / ENTRIES * ENTRIES + y % ENTRIES;
  }

  /** A canonical 64-bit address is determined, up to its page offset, by its four indices. */
  lemma SamePathSamePage(a: nat, b: nat)
    requires a < VA_END && b < VA_END && Canonical(a) && Canonical(b)
    requires PathOf(a) == PathOf(b)
    ensures a / Span(0) == b / Span(0)
  {
    assert PathOf(a)[0] == PathOf(b)[0] && PathOf(a)[1] == PathOf(b)[1];
    assert PathOf(a)[2] == PathOf(b)[2] && PathOf(a)[3] == PathOf(b)[3];
    TopBlock(a);
    TopBlock(b);
    SameIndexSameBlock(a, b, 2);
    SameIndexSameBlock(a, b, 1);
    SameIndexSameBlock(a, b, 0);
  }

  /** The sign extension of a canonical address is fixed by its top index. */
  lemma TopBlock(a: nat)
    requires a < VA_END && Canonical(a)
    ensures a / Span(3) == if Index(a, 3) < 256 then Index(a, 3) else 0x1FF_FE00 + Index(a, 3)
  {
    var x := a / 0x80_0000_0000;
    assert Span(3) == 0x80_0000_0000;
    if a < VA_LOWEND {
      assert x < 256;
    } else {
      assert 0x1FF_FF00 <= x < 0x200_0000;
      assert x == 0x1FF_FE00 + x % 512;
    }
  }

  /** A block of any table level is canonical as a whole. */
  lemma SameBlockCanonical(a: nat, b: nat, k: nat)
    requires k <= 3 && a / Span(k) == b / Span(k)
    ensures Canonical(a) == Canonical(b)
  {
    SameBlockSameIndex(a, b, k, 3);
    CanonicalBlock(a);
    CanonicalBlock(b);
  }

  lemma CanonicalBlock(a: nat)
    ensures Canonical(a) <==> a / Span(3) < 256 || a / Span(3) >= 0x1FF_FF00
  {
    assert Span(3) == 0x80_0000_0000;
  }

  // ---------------------------------------------------------------------------------------
  // The bit operations of the iterators

  function Pow2(k: nat): (p: nat)
    ensures p >= 1
  {
    if k == 0 then 1 else 2 * Pow2(k - 1)
  }

  /** `a ^ b`. */
  function BitXor(a: nat, b: nat): nat {
    if a == 0 && b == 0 then 0 else (a + b) % 2 + 2 * BitXor(a / 2, b / 2)
  }

  /** `a | b`. */
  function BitOr(a: nat, b: nat): nat {
    if a == 0 && b == 0 then 0 else (if a % 2 == 1 || b % 2 == 1 then 1 else 0) + 2 * BitOr(a / 2, b / 2)
  }

  /** `a & ~b`. */
  function BitAndNot(a: nat, b: nat): nat {
    if a == 0 then 0 else (if a % 2 == 1 && b % 2 == 0 then 1 else 0) + 2 * BitAndNot(a / 2, b / 2)
  }

  /** `pageoffmask(level)`. */
  function PageOffMask(level: nat): nat {
    Pow2(12 + 9 * level) - 1
  }

  lemma SpanIsPower(level: nat)
    requires level <= 4
    ensures Span(level) == Pow2(12 + 9 * level) == PageOffMask(level) + 1
  {
    Powers();
  }

  lemma Powers()
    ensures Pow2(12) == 0x1000 && Pow2(21) == 0x20_0000 && Pow2(30) == 0x4000_0000
    ensures Pow2(39) == 0x80_0000_0000 && Pow2(48) == 0x1_0000_0000_0000
  {
    assert Pow2(12) == 0x1000;
    hide Pow2;
    PowerOf9(12);
    PowerOf9(21);
    PowerOf9(30);
    PowerOf9(39);
  }

  lemma PowerOf9(k: nat)
    ensures Pow2(k + 9) == 512 * Pow2(k)
  {
    Times8(k);
    Times8(k + 3);
    Times8(k + 6);
  }

  lemma Times8(k: nat)
    ensures Pow2(k + 3) == 8 * Pow2(k)
  {
    assert Pow2(k + 1) == 2 * Pow2(k) && Pow2(k + 2) == 2 * Pow2(k + 1);
  }

  lemma {:induction false} XorZero(a: nat, b: nat)
    ensures BitXor(a, b) == 0 <==> a == b
    ensures BitXor(a, b) / 2 == BitXor(a / 2, b / 2)
  {
    if a > 0 || b > 0 {
      XorZero(a / 2, b / 2);
    }
  }

  lemma {:induction false} AndNotZero(x: nat)
    ensures BitAndNot(x, 0) == x
  {
    if x > 0 {
      AndNotZero(x / 2);
    }
  }

  lemma HalfMask(k: nat)
    requires k > 0
    ensures (Pow2(k) - 1) % 2 == 1 && (Pow2(k) - 1) / 2 == Pow2(k - 1) - 1
  {
  }

  /** Division by a power of two, one bit at a time. */
  lemma HalfFirst(a: nat, p: nat)
    requires p > 0
    ensures a / (2 * p) == a / 2 / p
  {
    var h := a / 2;
    var q, r := h / p, h % p;
    assert h == q * p + r;
    assert a == 2 * h + a % 2;
    assert a == q * (2 * p) + (2 * r + a % 2);
    Division(q, 2 * p, 2 * r + a % 2);
  }

  lemma {:induction false} XorMask(a: nat, b: nat, k: nat)
    ensures BitAndNot(BitXor(a, b), Pow2(k) - 1) == 0 <==> a / Pow2(k) == b / Pow2(k)
    decreases k
  {
    XorZero(a, b);
    if k == 0 {
      AndNotZero(BitXor(a, b));
    } else {
      HalfMask(k);
      HalfFirst(a, Pow2(k - 1));
      HalfFirst(b, Pow2(k - 1));
      XorMask(a / 2, b / 2, k - 1);
    }
  }

  lemma {:induction false} OrZero(a: nat)
    ensures BitOr(a, 0) == a
  {
    if a > 0 {
      OrZero(a / 2);
    }
  }

  lemma OrStep(a: nat, b: nat)
    requires b % 2 == 1
    ensures BitOr(a, b) == 1 + 2 * BitOr(a / 2, b / 2)
  {
  }

  lemma Doubled(q: nat, p: nat)
    ensures q * (2 * p) == 2 * (q * p)
  {
  }

  /** The first multiple of `p` above `a`. */
  function NextMultiple(a: nat, p: nat): nat
    requires p > 0
  {
    (a / p + 1) * p
  }

  lemma {:induction false} OrMask(a: nat, k: nat)
    ensures BitOr(a, Pow2(k) - 1) + 1 == NextMultiple(a, Pow2(k))
    decreases k
  {
    hide *;
    if k == 0 {
      OrNothing(a);
    } else {
      OrMask(a / 2, k - 1);
      OrMaskStep(a, k);
    }
  }

  lemma OrNothing(a: nat)
    ensures BitOr(a, Pow2(0) - 1) + 1 == NextMultiple(a, Pow2(0))
  {
    OrZero(a);
  }

  lemma NextMultipleDoubled(a: nat, p: nat)
    requires p > 0
    ensures NextMultiple(a, 2 * p) == 2 * NextMultiple(a / 2, p)
  {
    HalfFirst(a, p);
    Doubled(a / 2 / p + 1, p);
  }

  lemma OrMaskStep(a: nat, k: nat)
    requires k > 0 && BitOr(a / 2, Pow2(k - 1) - 1) + 1 == NextMultiple(a / 2, Pow2(k - 1))
    ensures BitOr(a, Pow2(k) - 1) + 1 == NextMultiple(a, Pow2(k))
  {
    var p := Pow2(k - 1);
    HalfMask(k);
    OrStep(a, Pow2(k) - 1);
    NextMultipleDoubled(a, p);
    hide BitOr, NextMultiple;
    assert Pow2(k) == 2 * p;
  }

  /** The tests of the iterators compare block numbers: `((a ^ b) & ~pageoffmask(level)) != 0` says that `a` and `b` lie
      in different blocks. */
  lemma XorTestIsBlockTest(a: nat, b: nat, level: nat)
    requires level <= 4
    ensures BitAndNot(BitXor(a, b), PageOffMask(level)) == 0 <==> a / Span(level) == b / Span(level)
  {
    SpanIsPower(level);
    XorMask(a, b, 12 + 9 * level);
  }

  /** `(a | pageoffmask(level)) + 1` is the first address after the block of `a`. */
  lemma OrMaskIsBlockEnd(a: nat, level: nat)
    requires level <= 3
    ensures BitOr(a, PageOffMask(level)) + 1 == (a / Span(level) + 1) * Span(level)
    ensures (BitOr(a, PageOffMask(level)) + 1) % VA_END == BlockEnd(a, level)
  {
    hide Span, BitOr, Pow2, BlockEnd;
    SpanIsPower(level);
    OrMask(a, 12 + 9 * level);
    BlockEndIs(a, level);
  }

  lemma BlockEndIs(a: nat, level: nat)
    requires level <= 3
    ensures BlockEnd(a, level) == (a / Span(level) + 1) * Span(level) % VA_END
  {
    hide Span;
  }
}
