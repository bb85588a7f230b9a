/** What running processes do to memory: loads and stores of words, at user addresses.

To its process, memory is an array of words: a store shows at the address stored to and nowhere else, except that all
processes share the console.
 */
module UserMemory {
  import opened Paging
  import opened PageTables
  import opened Allocator
  import opened VmIters
  import opened Spaces
  import opened Accounts
  import opened Forks
  import opened PageAllocs
  import opened Setups

  predicate CanLoad(mem: Mem, root: nat, va: nat) {
    User(Translate(mem, root, va))
  }

  predicate CanStore(mem: Mem, root: nat, va: nat) {
    var t := Translate(mem, root, va);
    User(t) && Writable(t)
  }

  /** The place of a physical address in its page, counted in words of eight bytes. */
  function WordIn(pa: nat): (i: nat)
    ensures i < ENTRIES
  {
    pa % PAGESIZE / 8
  }

  /** What a load of the word at `va` gives. */
  function Loaded(mem: Mem, root: nat, va: nat): Word {
    var t := Translate(mem, root, va);
    if t.Mapped? then WordAt(mem, FrameIn(t), WordIn(t.pa)) else ZERO
  }

  /** Memory with word `i` of page `f` replaced. */
  function Written(mem: Mem, f: nat, i: nat, w: Word): Mem {
    if f < |mem| && i < |mem[f]| then mem[f := mem[f][i := w]] else mem
  }

  /** Memory after a store of the word `w` at `va`. */
  function Stored(mem: Mem, root: nat, va: nat, w: Word): Mem {
    var t := Translate(mem, root, va);
    if t.Mapped? then Written(mem, FrameIn(t), WordIn(t.pa), w) else mem
  }

  /** All that the process with table `root` can load, the console apart, is as before. */
  ghost predicate SameContents(mem: Mem, mem': Mem, root: nat, lay: Layout) {
    forall b: nat :: b < VA_END && CanLoad(mem, root, b) && b / PAGESIZE != lay.console ==>
        Loaded(mem', root, b) == Loaded(mem, root, b)
  }

  // ---------------------------------------------------------------------------------------
  // Stores

  /** A store leaves the pages of every live process's table, and those of the kernel's. */
  lemma StoreAgrees(m: Machine, mem: Mem, refs: seq<nat>, ptable: seq<Proc>, lay: Layout, i: nat, va: nat, w: Word,
                    j: nat)
    requires Good(m, mem, refs, ptable, lay) && Live(ptable, i) && Live(ptable, j) && va < VA_END
               && CanStore(mem, ptable[i].pagetable, va)
    ensures Agree(mem, Stored(mem, ptable[i].pagetable, va, w), Pages(mem, ptable[j].pagetable, 3))
  {
    hide Good, Pages, Translate, Stored;
    TablesOutOfReach(m, mem, refs, ptable, lay, i, j, va);
    StoredElsewhere(mem, ptable[i].pagetable, va, w, Pages(mem, ptable[j].pagetable, 3));
  }

  /** A store by a process keeps the invariant and every translation. */
  lemma StoreKeepsGood(m: Machine, mem: Mem, refs: seq<nat>, ptable: seq<Proc>, lay: Layout, i: nat, va: nat, w: Word)
    requires Good(m, mem, refs, ptable, lay) && Live(ptable, i) && va < VA_END && CanStore(mem, ptable[i].pagetable, va)
    ensures var mem' := Stored(mem, ptable[i].pagetable, va, w);
            && Good(m, mem', refs, ptable, lay) && SameTranslations(mem, mem', ptable)
            && Keeps(m, mem, refs, ptable, mem', refs, ptable, lay)
  {
    hide Uses, Owned, Space, Private;
    var mem' := Stored(mem, ptable[i].pagetable, va, w);
    forall j: nat | Live(ptable, j)
      ensures Agree(mem, mem', Pages(mem, ptable[j].pagetable, 3)) && Intact(m, mem', refs, ptable[j].pagetable, lay)
      ensures SameTranslation(mem, mem', ptable[j].pagetable)
    {
      hide Stored, Intact, CanStore;
      StoreAgrees(m, mem, refs, ptable, lay, i, va, w, j);
      IntactAt(m, mem, refs, ptable, lay, j);
      StoreIntact(m, mem, mem', refs, ptable[j].pagetable, lay);
    }
    LiveOwned(mem, mem', ptable, lay);
    KeepsSame(m, mem, refs, ptable, mem', ptable, lay);
  }

  lemma StoreIntact(m: Machine, mem: Mem, mem': Mem, refs: seq<nat>, root: nat, lay: Layout)
    requires Space(m, mem, root, lay) && Private(mem, refs, root, lay) && Agree(mem, mem', Pages(mem, root, 3))
    ensures Intact(m, mem', refs, root, lay) && SameTranslation(mem, mem', root)
  {
    IntactFrame(m, mem, mem', refs, root, lay);
    TranslateFrame(mem, mem', root);
  }

  /** The page that a user address reaches is the console or one of the allocator's. */
  lemma ReachedPage(m: Machine, mem: Mem, refs: seq<nat>, ptable: seq<Proc>, lay: Layout, i: nat, va: nat)
    requires Good(m, mem, refs, ptable, lay) && Live(ptable, i) && va < VA_END && CanLoad(mem, ptable[i].pagetable, va)
    ensures var f := FrameIn(Translate(mem, ptable[i].pagetable, va)); f == lay.console || m.Allocatable(f)
  {
    IntactAt(m, mem, refs, ptable, lay, i);
    UserAddress(m, mem, ptable[i].pagetable, lay, va);
  }

  lemma StoredElsewhere(mem: Mem, root: nat, va: nat, w: Word, pages: seq<nat>)
    requires var t := Translate(mem, root, va); t.Mapped? ==> FrameIn(t) !in pages
    ensures Agree(mem, Stored(mem, root, va, w), pages)
  {
    hide Translate;
  }

  lemma StoreKeepsKernel(m: Machine, mem: Mem, refs: seq<nat>, ptable: seq<Proc>, lay: Layout, i: nat, va: nat, w: Word,
                         kernelPt: nat)
    requires Good(m, mem, refs, ptable, lay) && Live(ptable, i) && va < VA_END && CanStore(mem, ptable[i].pagetable, va)
    requires KernelTable(m, mem, kernelPt, lay)
    ensures KernelTable(m, Stored(mem, ptable[i].pagetable, va, w), kernelPt, lay)
  {
    hide Good, Pages, Translate, Stored, LowPage, TidyAt, TableInitialized;
    ReachedPage(m, mem, refs, ptable, lay, i, va);
    StoredElsewhere(mem, ptable[i].pagetable, va, w, Pages(mem, kernelPt, 3));
    KernelFrame(m, mem, Stored(mem, ptable[i].pagetable, va, w), kernelPt, lay);
  }

  lemma SameWord(a: nat, b: nat)
    ensures a / 8 == b / 8 <==> a / PAGESIZE == b / PAGESIZE && a % PAGESIZE / 8 == b % PAGESIZE / 8
  {
    assert a / 8 == a / PAGESIZE * 512 + a % PAGESIZE / 8;
    assert b / 8 == b / PAGESIZE * 512 + b % PAGESIZE / 8;
  }

  lemma WordInPage(t: Translation, u: Translation, va: nat)
    requires AtOffset(t, u, va % PAGESIZE) && u.Mapped?
    ensures WordIn(t.pa) == va % PAGESIZE / 8
  {
  }

  /** Two addresses reach the same page of memory, one of them being writable, only if they are in the same virtual
      page, and either of one process or on the console. */
  lemma SamePageReached(m: Machine, mem: Mem, refs: seq<nat>, ptable: seq<Proc>, lay: Layout, i: nat, a: nat, j: nat,
                        b: nat)
    requires Good(m, mem, refs, ptable, lay) && Live(ptable, i) && Live(ptable, j) && a < VA_END && b < VA_END
    requires CanStore(mem, ptable[i].pagetable, a) && CanLoad(mem, ptable[j].pagetable, b)
    ensures FrameIn(Translate(mem, ptable[i].pagetable, a)) == FrameIn(Translate(mem, ptable[j].pagetable, b))
       <==> a / PAGESIZE == b / PAGESIZE && (i == j || a / PAGESIZE == lay.console)
  {
    var p, q := ptable[i].pagetable, ptable[j].pagetable;
    var v, x := a / PAGESIZE, b / PAGESIZE;
    IntactAt(m, mem, refs, ptable, lay, i);
    IntactAt(m, mem, refs, ptable, lay, j);
    UserAddress(m, mem, p, lay, a);
    UserAddress(m, mem, q, lay, b);
    if FrameIn(Translate(mem, p, a)) == FrameIn(Translate(mem, q, b)) {
      if i != j {
        Isolation(m, mem, refs, ptable, lay, i, j, a, b);
      } else {
        ConsoleUnused(m, mem, p, lay);
        if lay.procStart <= v && lay.procStart <= x {
          OneUserPage(m, mem, p, lay, v, x);
        }
      }
    }
  }

  /** What a store by process `i` shows to process `j`: its own stores, and those on the console; each at one word. */
  lemma StoreShows(m: Machine, mem: Mem, refs: seq<nat>, ptable: seq<Proc>, lay: Layout, i: nat, a: nat, w: Word,
                   j: nat, b: nat)
    requires Good(m, mem, refs, ptable, lay) && Live(ptable, i) && Live(ptable, j) && a < VA_END && b < VA_END
    requires CanStore(mem, ptable[i].pagetable, a) && CanLoad(mem, ptable[j].pagetable, b)
    requires lay.console < m.npages && forall f :: 0 <= f < |mem| ==> |mem[f]| == ENTRIES
    ensures Loaded(Stored(mem, ptable[i].pagetable, a, w), ptable[j].pagetable, b)
         == if a / 8 == b / 8 && (i == j || a / PAGESIZE == lay.console) then w else Loaded(mem, ptable[j].pagetable, b)
  {
    var p, q := ptable[i].pagetable, ptable[j].pagetable;
    ReachedPage(m, mem, refs, ptable, lay, i, a);
    SamePageReached(m, mem, refs, ptable, lay, i, a, j, b);
    SameWord(a, b);
    StoreKeepsGood(m, mem, refs, ptable, lay, i, a, w);
    assert SameTranslation(mem, Stored(mem, p, a, w), q);
    Offsets(m, mem, refs, ptable, lay, i, a);
    Offsets(m, mem, refs, ptable, lay, j, b);
    WrittenAt(mem, FrameIn(Translate(mem, p, a)), WordIn(Translate(mem, p, a).pa), w,
              FrameIn(Translate(mem, q, b)), WordIn(Translate(mem, q, b).pa));
  }

  lemma WrittenAt(mem: Mem, f: nat, i: nat, w: Word, g: nat, k: nat)
    requires f < |mem| && i < |mem[f]|
    ensures WordAt(Written(mem, f, i, w), g, k) == if f == g && i == k then w else WordAt(mem, g, k)
  {
  }

  lemma Offsets(m: Machine, mem: Mem, refs: seq<nat>, ptable: seq<Proc>, lay: Layout, i: nat, a: nat)
    requires Good(m, mem, refs, ptable, lay) && Live(ptable, i) && a < VA_END && CanLoad(mem, ptable[i].pagetable, a)
    ensures WordIn(Translate(mem, ptable[i].pagetable, a).pa) == a % PAGESIZE / 8
  {
    IntactAt(m, mem, refs, ptable, lay, i);
    InPage(mem, ptable[i].pagetable, a);
    WordInPage(Translate(mem, ptable[i].pagetable, a), PageAt(mem, ptable[i].pagetable, a / PAGESIZE), a);
  }

  // ---------------------------------------------------------------------------------------
  // Contents that the system calls keep

  /** A page that a user address reaches, not on the console, is counted. */
  lemma ReachedIsCounted(m: Machine, mem: Mem, refs: seq<nat>, ptable: seq<Proc>, lay: Layout, j: nat, b: nat)
    requires Good(m, mem, refs, ptable, lay) && Live(ptable, j) && b < VA_END && CanLoad(mem, ptable[j].pagetable, b)
    requires b / PAGESIZE != lay.console
    ensures var f := FrameIn(Translate(mem, ptable[j].pagetable, b)); f < |refs| && refs[f] != 0
  {
    IntactAt(m, mem, refs, ptable, lay, j);
    UserAddress(m, mem, ptable[j].pagetable, lay, b);
    UsesCounted(m, mem, refs, ptable, lay, j);
  }

  /** Where only free pages and table pages of one process were written, all contents stay. */
  lemma ContentsStay(m: Machine, mem: Mem, refs: seq<nat>, ptable: seq<Proc>, lay: Layout, i: nat, mem': Mem, j: nat,
                     b: nat)
    requires Good(m, mem, refs, ptable, lay) && Live(ptable, i) && Live(ptable, j)
               && OnlyOwn(m, mem, refs, mem', ptable[i].pagetable)
    requires b < VA_END && CanLoad(mem, ptable[j].pagetable, b) && b / PAGESIZE != lay.console
    requires Translate(mem', ptable[j].pagetable, b) == Translate(mem, ptable[j].pagetable, b)
    ensures Loaded(mem', ptable[j].pagetable, b) == Loaded(mem, ptable[j].pagetable, b)
  {
    ReachedIsCounted(m, mem, refs, ptable, lay, j, b);
    TablesOutOfReach(m, mem, refs, ptable, lay, j, i, b);
  }

  /** Writes to free pages alone keep what every process can load. */
  lemma UsedContentsStay(m: Machine, mem: Mem, refs: seq<nat>, ptable: seq<Proc>, lay: Layout, mem': Mem, j: nat)
    requires Good(m, mem, refs, ptable, lay) && Live(ptable, j) && KeepsUsed(m, mem, refs, mem')
    ensures SameTranslation(mem, mem', ptable[j].pagetable) && SameContents(mem, mem', ptable[j].pagetable, lay)
  {
    TranslationsFrame(m, mem, refs, mem', ptable, lay);
    forall b: nat | b < VA_END && CanLoad(mem, ptable[j].pagetable, b) && b / PAGESIZE != lay.console
      ensures Loaded(mem', ptable[j].pagetable, b) == Loaded(mem, ptable[j].pagetable, b)
    {
      ContentsStay(m, mem, refs, ptable, lay, j, mem', j, b);
    }
  }
}
