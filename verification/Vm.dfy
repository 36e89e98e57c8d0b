/**
 Growing, shrinking, freeing and copying the user half of an address space (vm.c) over the
 physical page allocator (kalloc.c).  Virtual addresses are handled by page number.
 */
module Vm {
  import opened VmState

  const KERNBASE: nat := 0x8000_0000
  const UWRITE: nat := 6                  // PTE_W | PTE_U

  /** PGROUNDUP, as a page number. */
  function PgUp(sz: nat): (n: nat)
    ensures sz <= n * PGSIZE < sz + PGSIZE
  {
    (sz + PGSIZE - 1) / PGSIZE
  }

  function Zeroed(): (p: Page)
    ensures |p| == PGSIZE && forall i | 0 <= i < PGSIZE :: p[i] == 0
  {
    Fill(PGSIZE, 0)
  }

  // Where the frames go.

  /**
   No frame came or went, and those whose use changed were free and now serve p: as its directory, as page
   tables, or as pages lo .. hi.
   */
  ghost predicate Serves(o: map<nat, Use>, o': map<nat, Use>, p: nat, lo: nat, hi: nat) {
    && o'.Keys == o.Keys
    && forall f | f in o :: o'[f] == o[f] || (o[f].Free? && OfDir(f, o'[f], p) && InRange(o'[f], lo, hi))
  }

  ghost predicate InRange(u: Use, lo: nat, hi: nat) {
    u.At? && u.slot.InTable? ==> lo <= u.slot.v < hi
  }

  lemma ServesWider(o: map<nat, Use>, o': map<nat, Use>, o'': map<nat, Use>, p: nat, lo: nat, a: nat, hi: nat)
    requires lo <= a <= hi && Serves(o, o', p, lo, a) && Serves(o', o'', p, a, hi)
    ensures Serves(o, o'', p, lo, hi)
  {
  }

  lemma ServesNone(o: map<nat, Use>, p: nat, lo: nat)
    ensures Serves(o, o, p, lo, lo)
  {
  }

  /** Whatever was taken for an address space comes back when the space is freed. */
  lemma TakenThenFreed(o: map<nat, Use>, o': map<nat, Use>, o'': map<nat, Use>, p: nat, lo: nat, hi: nat)
    requires Serves(o, o', p, lo, hi) && OwnerFreed(o', o'', p)
    ensures OwnerFreed(o, o'', p)
    ensures (forall f | f in o :: !OfDir(f, o[f], p)) ==> o'' == o
  {
  }

  // What the loops add up to.

  /** m is m0 with pages lo .. hi of p fresh and zeroed. */
  ghost predicate Grown(m0: Mem, m: Mem, p: nat, lo: nat, hi: nat) {
    && Shape(m0.dirs, m0.tabs) && Shape(m.dirs, m.tabs) && m.dirs.Keys == m0.dirs.Keys
    && forall q: nat, w: nat | IsSlot(m0.dirs, InTable(q, w)) ::
         Sees(m, q, w) == if q == p && lo <= w < hi then Seen(UWRITE, Zeroed()) else Sees(m0, q, w)
  }

  /** m is m0 with the first n pages of d a copy of those of p. */
  ghost predicate Copied(m0: Mem, m: Mem, p: nat, d: nat, n: nat) {
    && Shape(m0.dirs, m0.tabs) && Shape(m.dirs, m.tabs) && m.dirs.Keys == m0.dirs.Keys && p in m0.dirs
    && forall q: nat, w: nat | IsSlot(m0.dirs, InTable(q, w)) ::
         Sees(m, q, w) == if q == d && w < n then Sees(m0, p, w) else Sees(m0, q, w)
  }

  // The same by address.

  /** Where the page of an address begins. */
  function Base(a: nat): (b: nat)
    ensures b <= a < b + PGSIZE
  {
    a / PGSIZE * PGSIZE
  }

  /** What a process finds around an address below KERNBASE. */
  ghost function Finds(m: Mem, p: nat, a: nat): (s: Seen)
    requires Shape(m.dirs, m.tabs) && p in m.dirs && a < KERNBASE
  {
    Sees(m, p, a / PGSIZE)
  }

  /** From size `from` to size `to`: whole new pages are zeroed, everything else is as it was. */
  ghost predicate GrownTo(m0: Mem, m: Mem, p: nat, from: nat, to: nat) {
    && Shape(m0.dirs, m0.tabs) && Shape(m.dirs, m.tabs) && p in m0.dirs && p in m.dirs
    && (forall a: nat | a < KERNBASE ::
          Finds(m, p, a) == if from <= Base(a) < to then Seen(UWRITE, Zeroed()) else Finds(m0, p, a))
    && (Backed(m0, p, from) ==> Backed(m, p, to))
  }

  /** Every address below sz is mapped. */
  ghost predicate Backed(m: Mem, p: nat, sz: nat)
    requires Shape(m.dirs, m.tabs) && p in m.dirs
  {
    forall a: nat | a < sz && a < KERNBASE :: Finds(m, p, a) != Nothing
  }

  lemma GrownByAddress(m0: Mem, m: Mem, p: nat, from: nat, to: nat)
    requires Grown(m0, m, p, PgUp(from), PgUp(to)) && p in m0.dirs && from <= to <= KERNBASE
    ensures GrownTo(m0, m, p, from, to)
  {
    hide Sees, Shape, Zeroed, PgUp;
    forall a: nat | a < KERNBASE
      ensures Finds(m, p, a) == if from <= Base(a) < to then Seen(UWRITE, Zeroed()) else Finds(m0, p, a)
    {
      assert IsSlot(m0.dirs, InTable(p, a / PGSIZE));
    }
    if Backed(m0, p, from) {
      forall a: nat | a < to ensures Finds(m, p, a) != Nothing {
        if Base(a) < from {
          assert Finds(m0, p, Base(a)) != Nothing && Base(a) / PGSIZE == a / PGSIZE;
        }
      }
    }
  }

  /** From size `from` down to `to`: no page with a byte below `to` or from `from` on is touched. */
  ghost predicate ShrunkTo(m0: Mem, m: Mem, p: nat, from: nat, to: nat) {
    && Shape(m0.dirs, m0.tabs) && Shape(m.dirs, m.tabs) && p in m0.dirs && p in m.dirs
    && forall a: nat | a < KERNBASE && !(to <= Base(a) < from) :: Finds(m, p, a) == Finds(m0, p, a)
  }

  lemma ShrunkByAddress(m0: Mem, m: Mem, p: nat, from: nat, to: nat)
    requires Shrunk(m0, m, p, PgUp(to), PgUp(from)) && to <= from <= KERNBASE
    ensures ShrunkTo(m0, m, p, from, to)
  {
    hide Sees, Shape, PgUp, Skipped;
    assert |m0.dirs[p]| == NENTRIES by {
      ShapeOf(m0, p);
    }
    forall a: nat | a < KERNBASE && !(to <= Base(a) < from) ensures Finds(m, p, a) == Finds(m0, p, a) {
      assert IsSlot(m0.dirs, InTable(p, a / PGSIZE));
    }
  }

  lemma ShapeOf(m: Mem, p: nat)
    requires Shape(m.dirs, m.tabs) && p in m.dirs
    ensures |m.dirs[p]| == NENTRIES
  {
  }

  /** d shows what p shows at every address below sz, and nothing in pages that begin above it. */
  ghost predicate CopiedTo(m0: Mem, m: Mem, p: nat, d: nat, sz: nat) {
    && Shape(m0.dirs, m0.tabs) && Shape(m.dirs, m.tabs) && p in m0.dirs && d in m.dirs
    && forall a: nat | a < KERNBASE :: Finds(m, d, a) == if Base(a) < sz then Finds(m0, p, a) else Nothing
  }

  lemma CopiedByAddress(m0: Mem, m: Mem, p: nat, d: nat, sz: nat)
    requires Copied(m0, m, p, d, PgUp(sz)) && p in m0.dirs && d in m0.dirs && sz <= KERNBASE
    ensures forall a: nat | a < sz :: Finds(m, d, a) == Finds(m0, p, a)
  {
    hide Sees, Shape, PgUp;
    forall a: nat | a < sz ensures Finds(m, d, a) == Finds(m0, p, a) {
      assert IsSlot(m0.dirs, InTable(d, a / PGSIZE));
    }
  }

  /** A page deallocuvm jumps over: it steps 1024 pages from where it found no table, into a later table. */
  ghost predicate Skipped(dir: seq<Pte>, lo: nat, w: nat)
    requires |dir| == NENTRIES && w < USERPAGES
  {
    && lo / NENTRIES < w / NENTRIES && w % NENTRIES < lo % NENTRIES && dir[w / NENTRIES].Entry?
    && forall i | lo / NENTRIES <= i < w / NENTRIES :: dir[i].Absent?
  }

  ghost predicate Freed(dir: seq<Pte>, lo: nat, hi: nat, w: nat)
    requires |dir| == NENTRIES && w < USERPAGES
  {
    lo <= w < hi && !Skipped(dir, lo, w)
  }

  /** m is m0 without the pages lo .. hi of p, those skipped excepted. */
  ghost predicate Shrunk(m0: Mem, m: Mem, p: nat, lo: nat, hi: nat) {
    && Shape(m0.dirs, m0.tabs) && Shape(m.dirs, m.tabs) && m.dirs == m0.dirs && p in m0.dirs
    && forall q: nat, w: nat | IsSlot(m0.dirs, InTable(q, w)) ::
         Sees(m, q, w) == if q == p && Freed(m0.dirs[p], lo, hi, w) then Nothing else Sees(m0, q, w)
  }

  /** Exactly the frames of those pages went to the free list. */
  ghost predicate OwnerShrunk(dirs: Tables, o: map<nat, Use>, o': map<nat, Use>, p: nat, lo: nat, hi: nat)
    requires p in dirs && |dirs[p]| == NENTRIES
  {
    && o'.Keys == o.Keys
    && forall f | f in o ::
         o'[f] == if o[f].At? && o[f].slot.InTable? && o[f].slot.p == p && o[f].slot.v < USERPAGES &&
                     Freed(dirs[p], lo, hi, o[f].slot.v) then Free else o[f]
  }

  /** Where deallocuvm's walk can be: still jumping from table to table, or past the first table it met. */
  ghost predicate InStep(dir: seq<Pte>, lo: nat, a: nat)
    requires |dir| == NENTRIES && a < USERPAGES
  {
    || (a % NENTRIES == lo % NENTRIES && lo <= a && forall i | lo / NENTRIES <= i < a / NENTRIES :: dir[i].Absent?)
    || (Landed(dir, lo, a) && (a % NENTRIES == 0 || dir[a / NENTRIES].Entry?))
  }

  ghost predicate Landed(dir: seq<Pte>, lo: nat, a: nat)
    requires |dir| == NENTRIES
  {
    exists i: nat | lo / NENTRIES <= i < NENTRIES :: dir[i].Entry? && i * NENTRIES + lo % NENTRIES < a
  }

  ghost predicate Passed(dir: seq<Pte>, lo: nat, w: nat)
    requires |dir| == NENTRIES && w < USERPAGES
  {
    dir[w / NENTRIES].Absent? || Skipped(dir, lo, w)
  }

  lemma NextTable(a: nat, w: nat)
    requires a <= w < a + NENTRIES
    ensures w / NENTRIES == a / NENTRIES || (w / NENTRIES == a / NENTRIES + 1 && w % NENTRIES < a % NENTRIES)
    ensures (a + NENTRIES) / NENTRIES == a / NENTRIES + 1 && (a + NENTRIES) % NENTRIES == a % NENTRIES
  {
  }

  /** A jump passes only pages without a table, and skipped ones. */
  lemma StepOver(dir: seq<Pte>, lo: nat, a: nat)
    requires |dir| == NENTRIES && lo <= a < USERPAGES && InStep(dir, lo, a) && dir[a / NENTRIES].Absent?
    ensures forall w: nat | a <= w < a + NENTRIES && w < USERPAGES :: Passed(dir, lo, w)
    ensures a + NENTRIES < USERPAGES ==> InStep(dir, lo, a + NENTRIES)
  {
    forall w: nat | a <= w < a + NENTRIES && w < USERPAGES ensures Passed(dir, lo, w) {
      NextTable(a, w);
    }
    NextTable(a, a);
  }

  /** A page that is visited is not a skipped one. */
  lemma StepOn(dir: seq<Pte>, lo: nat, a: nat)
    requires |dir| == NENTRIES && lo <= a < USERPAGES && InStep(dir, lo, a) && dir[a / NENTRIES].Entry?
    ensures !Skipped(dir, lo, a)
    ensures a + 1 < USERPAGES ==> InStep(dir, lo, a + 1)
  {
    var d := a / NENTRIES;
    assert a == d * NENTRIES + a % NENTRIES;
    assert Landed(dir, lo, a + 1) by {
      if !Landed(dir, lo, a) {
        assert dir[d].Entry? && d * NENTRIES + lo % NENTRIES < a + 1;
      } else {
        var i: nat :| lo / NENTRIES <= i < NENTRIES && dir[i].Entry? && i * NENTRIES + lo % NENTRIES < a;
        assert i * NENTRIES + lo % NENTRIES < a + 1;
      }
    }
    assert (a + 1) % NENTRIES == 0 || (a + 1) / NENTRIES == d;
  }

  lemma WalkStart(dir: seq<Pte>, lo: nat)
    requires |dir| == NENTRIES
    ensures lo < USERPAGES ==> InStep(dir, lo, lo)
  {
  }

  lemma ShrunkStart(m: Mem, owner: map<nat, Use>, p: nat, lo: nat)
    requires Owned(m, owner) && p in m.dirs
    ensures Shrunk(m, m, p, lo, lo) && OwnerShrunk(m.dirs, owner, owner, p, lo, lo)
  {
    hide Named, Sees;
  }

  /** Passed pages make no difference to the result. */
  lemma ShrunkPast(m0: Mem, m: Mem, owner0: map<nat, Use>, owner: map<nat, Use>, p: nat, lo: nat, a: nat, b: nat)
    requires Owned(m0, owner0) && p in m0.dirs && a <= b
    requires forall w: nat | a <= w < b && w < USERPAGES :: Passed(m0.dirs[p], lo, w)
    ensures Shrunk(m0, m, p, lo, a) <==> Shrunk(m0, m, p, lo, b)
    ensures OwnerShrunk(m0.dirs, owner0, owner, p, lo, a) <==> OwnerShrunk(m0.dirs, owner0, owner, p, lo, b)
  {
    forall q: nat, w: nat | IsSlot(m0.dirs, InTable(q, w)) && q == p && a <= w < b
      ensures !Skipped(m0.dirs[p], lo, w) ==> Sees(m0, q, w) == Nothing
    {
      assert Passed(m0.dirs[p], lo, w);
    }
    forall f | f in owner0 && owner0[f].At? && owner0[f].slot.InTable? && owner0[f].slot.p == p &&
               a <= owner0[f].slot.v < b
      ensures owner0[f].slot.v < USERPAGES && Skipped(m0.dirs[p], lo, owner0[f].slot.v)
    {
      assert Passed(m0.dirs[p], lo, owner0[f].slot.v);
    }
    hide Named, Sees, Skipped, Passed, Owned, Shape;
  }

  lemma ShrunkOn(m0: Mem, m: Mem, m': Mem, p: nat, lo: nat, a: nat)
    requires Shrunk(m0, m, p, lo, a) && SameElse(m, m', p, a) && m'.dirs == m.dirs && lo <= a < USERPAGES
    requires Sees(m', p, a) == Nothing && !Skipped(m0.dirs[p], lo, a)
    ensures Shrunk(m0, m', p, lo, a + 1)
  {
    hide Named, Sees, Skipped, Shape;
  }

  lemma OwnerOn(dirs: Tables, o: map<nat, Use>, o': map<nat, Use>, o'': map<nat, Use>, p: nat, lo: nat, a: nat)
    requires p in dirs && |dirs[p]| == NENTRIES && OwnerShrunk(dirs, o, o', p, lo, a) && lo <= a < USERPAGES
    requires !Skipped(dirs[p], lo, a) && o''.Keys == o'.Keys
    requires forall f | f in o' :: o''[f] == if o'[f] == At(InTable(p, a)) then Free else o'[f]
    ensures OwnerShrunk(dirs, o, o'', p, lo, a + 1)
  {
    hide Skipped;
  }

  // What they cost: a page each, and a page table for the first page in each table that is missing.

  ghost function Cost(dir: seq<Pte>, lo: nat, hi: nat): (n: nat)
    requires |dir| == NENTRIES && lo <= hi <= USERPAGES
    decreases hi
  {
    if lo == hi then 0 else Cost(dir, lo, hi - 1) + 1 + (if NeedsTable(dir, lo, hi - 1) then 1 else 0)
  }

  ghost predicate NeedsTable(dir: seq<Pte>, lo: nat, w: nat)
    requires |dir| == NENTRIES && w < USERPAGES
  {
    dir[w / NENTRIES].Absent? && (w == lo || w % NENTRIES == 0)
  }

  lemma {:induction false} CostGrows(dir: seq<Pte>, lo: nat, mid: nat, hi: nat)
    requires |dir| == NENTRIES && lo <= mid <= hi <= USERPAGES
    ensures Cost(dir, lo, mid) <= Cost(dir, lo, hi)
    decreases hi
  {
    hide NeedsTable;
    if mid < hi {
      CostGrows(dir, lo, mid, hi - 1);
    }
  }

  /** The tables of p after pages lo .. a were mapped: those that were there, and those the pages needed. */
  ghost predicate TabledTo(dir0: seq<Pte>, dir: seq<Pte>, lo: nat, a: nat) {
    && |dir0| == |dir| == NENTRIES
    && forall i | 0 <= i < NENTRIES ::
         dir[i].Absent? <==> dir0[i].Absent? && !(lo < a && lo / NENTRIES <= i <= (a - 1) / NENTRIES)
  }

  lemma TabledStep(dir0: seq<Pte>, dir: seq<Pte>, dir': seq<Pte>, lo: nat, a: nat)
    requires TabledTo(dir0, dir, lo, a) && lo <= a < USERPAGES && |dir'| == NENTRIES && dir'[a / NENTRIES].Entry?
    requires forall i | 0 <= i < NENTRIES && i != a / NENTRIES :: dir'[i] == dir[i]
    ensures TabledTo(dir0, dir', lo, a + 1)
    ensures dir[a / NENTRIES].Absent? <==> NeedsTable(dir0, lo, a)
  {
    assert a / NENTRIES == (a - 1) / NENTRIES || (a % NENTRIES == 0 && a / NENTRIES == (a - 1) / NENTRIES + 1);
  }

  lemma TabledNow(dir0: seq<Pte>, dir: seq<Pte>, lo: nat, a: nat)
    requires TabledTo(dir0, dir, lo, a) && lo <= a < USERPAGES
    ensures dir[a / NENTRIES].Absent? <==> NeedsTable(dir0, lo, a)
    ensures lo < a ==> dir[lo / NENTRIES].Entry?
  {
    assert a / NENTRIES == (a - 1) / NENTRIES || (a % NENTRIES == 0 && a / NENTRIES == (a - 1) / NENTRIES + 1);
    assert lo < a ==> lo / NENTRIES <= (a - 1) / NENTRIES;
  }

  lemma PgUpFacts(oldsz: nat, newsz: nat)
    requires oldsz <= newsz <= KERNBASE
    ensures PgUp(oldsz) <= PgUp(newsz) <= USERPAGES && (PgUp(oldsz) < PgUp(newsz) ==> oldsz < newsz)
  {
  }

  lemma {:induction false} TabledStart(dir: seq<Pte>, lo: nat)
    requires |dir| == NENTRIES
    ensures TabledTo(dir, dir, lo, lo) && (lo <= USERPAGES ==> Cost(dir, lo, lo) == 0)
  {
  }

  lemma GrownBeyond(m0: Mem, m: Mem, p: nat, lo: nat, a: nat)
    requires Grown(m0, m, p, lo, a) && p in m0.dirs && a < USERPAGES
    ensures p in m.dirs && Shape(m.dirs, m.tabs) && Sees(m, p, a) == Sees(m0, p, a)
  {
    hide Named, Sees, Shape, Zeroed;
    assert IsSlot(m0.dirs, InTable(p, a));
  }

  lemma GrownStart(m: Mem, owner: map<nat, Use>, p: nat, lo: nat)
    requires Owned(m, owner)
    ensures Grown(m, m, p, lo, lo)
  {
    hide Named, Sees;
  }

  lemma GrownOn(m0: Mem, m: Mem, m': Mem, p: nat, lo: nat, a: nat)
    requires Grown(m0, m, p, lo, a) && SameElse(m, m', p, a) && lo <= a < USERPAGES && p in m0.dirs
    requires Sees(m', p, a) == Seen(UWRITE, Zeroed())
    ensures Grown(m0, m', p, lo, a + 1)
  {
    hide Named, Sees, Shape, Zeroed;
  }

  /** Two states show the same memory if both grew in the same way. */
  lemma GrownSame(m0: Mem, m: Mem, m': Mem, p: nat, lo: nat, a: nat)
    requires Grown(m0, m, p, lo, a) && SameView(m, m')
    ensures Grown(m0, m', p, lo, a)
  {
    hide Named, Sees, Shape, Zeroed;
  }

  /** Freeing what had been mapped undoes the growth. */
  lemma GrownUndone(m0: Mem, m: Mem, m': Mem, p: nat, lo: nat, a: nat, hi: nat)
    requires Grown(m0, m, p, lo, a) && Shrunk(m, m', p, lo, hi) && lo <= a <= hi <= USERPAGES && p in m0.dirs
    requires forall w: nat | lo <= w < hi :: Sees(m0, p, w) == Nothing
    requires lo < a ==> |m.dirs[p]| == NENTRIES && m.dirs[p][lo / NENTRIES].Entry?
    ensures SameView(m0, m')
  {
    hide Named, Sees, Zeroed;
    forall q: nat, w: nat | IsSlot(m0.dirs, InTable(q, w)) ensures Sees(m', q, w) == Sees(m0, q, w) {
      assert IsSlot(m.dirs, InTable(q, w));
      if q == p && lo <= w < a {
        NoneSkipped(m.dirs[p], lo, w);
      }
    }
  }

  /** deallocuvm skips nothing if it starts at a table's first page or in a table that is there. */
  lemma NoneSkipped(dir: seq<Pte>, lo: nat, w: nat)
    requires |dir| == NENTRIES && w < USERPAGES && lo < USERPAGES
    requires lo % NENTRIES == 0 || dir[lo / NENTRIES].Entry?
    ensures !Skipped(dir, lo, w)
  {
  }

  /** A frame in the kernel's hands is out of deallocuvm's way. */
  lemma ShrunkHeld(dirs: Tables, o: map<nat, Use>, o': map<nat, Use>, o'': map<nat, Use>, p: nat, lo: nat, hi: nat,
                   mem: nat, got: bool)
    requires p in dirs && |dirs[p]| == NENTRIES && OwnerShrunk(dirs, o', o'', p, lo, hi)
    requires if got then mem in o && o[mem].Free? && o' == o[mem := Held] else o' == o
    ensures got ==> mem in o'' && o''[mem].Held?
    ensures OwnerShrunk(dirs, o, if got then o''[mem := Free] else o'', p, lo, hi)
  {
    hide Freed;
  }

  /** Freeing the pages that were mapped since leaves only page tables behind. */
  lemma GrownThenShrunk(m: Mem, o: map<nat, Use>, dirs: Tables, o': map<nat, Use>, o'': map<nat, Use>,
                        p: nat, lo: nat, a: nat, hi: nat)
    requires Owned(m, o) && p in m.dirs && lo <= a <= hi <= USERPAGES && p in dirs && |dirs[p]| == NENTRIES
    requires forall w: nat | lo <= w < hi :: Sees(m, p, w) == Nothing
    requires Serves(o, o', p, lo, a) && OwnerShrunk(dirs, o', o'', p, lo, hi)
    requires lo < a ==> dirs[p][lo / NENTRIES].Entry?
    ensures Serves(o, o'', p, lo, lo)
  {
    hide Shape;
    forall f | f in o ensures o''[f] == o[f] || (o[f].Free? && OfDir(f, o''[f], p) && InRange(o''[f], lo, lo)) {
      if o'[f].At? && o'[f].slot.InTable? && o'[f].slot.p == p && lo <= o'[f].slot.v < hi {
        var v := o'[f].slot.v;
        if o'[f] == o[f] {
          NothingThere(m, o, p, v);
        } else {
          NoneSkipped(dirs[p], lo, v);
        }
      }
    }
  }

  /** deallocuvm empties the whole range exactly when none of the pages it skips was mapped. */
  lemma DeallocCompleteIff(m0: Mem, m: Mem, p: nat, lo: nat, hi: nat)
    requires Shrunk(m0, m, p, lo, hi) && hi <= USERPAGES
    ensures (forall w: nat | lo <= w < hi :: Sees(m, p, w) == Nothing) <==>
            (forall w: nat | lo <= w < hi && Skipped(m0.dirs[p], lo, w) :: Sees(m0, p, w) == Nothing)
  {
    assert |m0.dirs[p]| == NENTRIES;
    hide Sees, Skipped, Shape;
    forall w: nat | lo <= w < hi
      ensures Sees(m, p, w) == if Skipped(m0.dirs[p], lo, w) then Sees(m0, p, w) else Nothing
    {
      assert IsSlot(m0.dirs, InTable(p, w));
    }
  }

  /** An address space without holes, as growing from 0 makes it, loses nothing to the jumps. */
  lemma DeallocCompleteForPrefix(m0: Mem, m: Mem, owner: map<nat, Use>, p: nat, lo: nat, hi: nat, n: nat)
    requires Owned(m0, owner) && Shrunk(m0, m, p, lo, hi) && hi <= USERPAGES
    requires forall w: nat | w < USERPAGES :: Sees(m0, p, w) != Nothing <==> w < n
    ensures forall w: nat | lo <= w < hi :: Sees(m, p, w) == Nothing
  {
    forall w: nat | lo <= w < hi && Skipped(m0.dirs[p], lo, w) ensures Sees(m0, p, w) == Nothing {
      assert m0.dirs[p][lo / NENTRIES].Absent?;
      assert Sees(m0, p, lo) == Nothing;
    }
    DeallocCompleteIff(m0, m, p, lo, hi);
  }

  /** By address: shrinking a space without holes leaves no page that begins at or above the new size. */
  lemma ShrinksToSize(m0: Mem, m: Mem, owner: map<nat, Use>, p: nat, from: nat, to: nat)
    requires Owned(m0, owner) && Shrunk(m0, m, p, PgUp(to), PgUp(from)) && to <= from <= KERNBASE
    requires forall a: nat | a < KERNBASE :: Finds(m0, p, a) != Nothing <==> Base(a) < from
    ensures forall a: nat | a < KERNBASE :: Finds(m, p, a) == if Base(a) < to then Finds(m0, p, a) else Nothing
  {
    ShrunkByAddress(m0, m, p, from, to);
    assert forall w: nat | w < USERPAGES :: Sees(m0, p, w) != Nothing <==> w < PgUp(from) by {
      hide Sees, PgUp;
      forall w: nat | w < USERPAGES ensures Sees(m0, p, w) != Nothing <==> w < PgUp(from) {
        assert Finds(m0, p, w * PGSIZE) == Sees(m0, p, w) && Base(w * PGSIZE) == w * PGSIZE;
      }
    }
    DeallocCompleteForPrefix(m0, m, owner, p, PgUp(to), PgUp(from), PgUp(from));
    hide Sees, PgUp, Shrunk, Owned;
    forall a: nat | a < KERNBASE ensures Finds(m, p, a) == if Base(a) < to then Finds(m0, p, a) else Nothing {
      assert to <= Base(a) < from ==> PgUp(to) <= a / PGSIZE < PgUp(from);
    }
  }

  /** One page, the first of the second table, and no first table. */
  ghost function Holey(): (m: Mem) {
    Mem([], map[7 := NoEntries(NENTRIES)[1 := Entry(5, UWRITE)]], map[5 := NoEntries(NENTRIES)[0 := Entry(9, UWRITE)]],
        map[5 := [], 7 := [], 9 := []])
  }

  lemma HoleyOwned()
    ensures Owned(Holey(), map[7 := Dir, 5 := At(InDir(7, 1)), 9 := At(InTable(7, NENTRIES))])
  {
    var m, owner := Holey(), map[7 := Dir, 5 := At(InDir(7, 1)), 9 := At(InTable(7, NENTRIES))];
    assert forall i | 0 <= i < NENTRIES :: m.dirs[7][i] == if i == 1 then Entry(5, UWRITE) else Absent;
    assert forall i | 0 <= i < NENTRIES :: m.tabs[5][i] == if i == 0 then Entry(9, UWRITE) else Absent;
    assert Shape(m.dirs, m.tabs);
    hide NoEntries;
    forall s | IsSlot(m.dirs, s) && Named(m.dirs, m.tabs, s).Entry?
      ensures s == InDir(7, 1) || s == InTable(7, NENTRIES)
    {
      if s.InTable? {
        assert s.v / NENTRIES == 1 && s.v % NENTRIES == 0;
      }
    }
  }

  /** Shrinking such a space to one page leaves the mapped page behind, although it is far above the new size. */
  lemma SkipLeavesPage(m: Mem)
    requires Shrunk(Holey(), m, 7, 1, 2 * NENTRIES)
    ensures Sees(m, 7, NENTRIES) == Seen(UWRITE, [])
  {
    var m0 := Holey();
    assert m0.dirs[7][1] == Entry(5, UWRITE) && m0.dirs[7][0] == Absent && m0.tabs[5][0] == Entry(9, UWRITE);
    assert Skipped(m0.dirs[7], 1, NENTRIES);
    assert IsSlot(m0.dirs, InTable(7, NENTRIES));
  }

  // freevm.

  /** Everything that belonged to p is free, everything else as before. */
  ghost predicate OwnerFreed(o: map<nat, Use>, o': map<nat, Use>, p: nat) {
    o'.Keys == o.Keys && forall f | f in o :: o'[f] == if OfDir(f, o[f], p) then Free else o[f]
  }

  /** Half way: the tables of the first i entries are free, the others and the directory held. */
  ghost predicate TablesFreed(o: map<nat, Use>, o': map<nat, Use>, p: nat, i: nat) {
    && o'.Keys == o.Keys
    && forall f | f in o ::
         o'[f] == if !OfDir(f, o[f], p) then o[f]
                  else if o[f].At? && o[f].slot.InDir? && o[f].slot.i < i then Free
                  else Held
  }

  lemma TablesStart(o: map<nat, Use>, p: nat)
    ensures TablesFreed(o, Released(o, p), p, 0)
  {
  }

  lemma TablesStep(m: Mem, o: map<nat, Use>, o': map<nat, Use>, p: nat, i: nat)
    requires Owned(m, o) && p in m.dirs && |m.dirs[p]| == NENTRIES && i < NENTRIES && TablesFreed(o, o', p, i)
    ensures m.dirs[p][i].Absent? ==> TablesFreed(o, o', p, i + 1)
    ensures m.dirs[p][i].Entry? ==>
              var t := m.dirs[p][i].frame;
              t in o' && o'[t].Held? && TablesFreed(o, o'[t := Free], p, i + 1)
  {
    OnePage(m, o, InDir(p, i));
    assert Named(m.dirs, m.tabs, InDir(p, i)) == m.dirs[p][i];
    hide TypesRight, FreeRight;
  }

  lemma TablesDone(m: Mem, o: map<nat, Use>, o': map<nat, Use>, p: nat)
    requires Owned(m, o) && p in m.dirs && TablesFreed(o, o', p, NENTRIES)
    requires forall f | f in o && o[f].At? && o[f].slot.InTable? :: o[f].slot.p != p
    ensures p in o' && o'[p].Held? && OwnerFreed(o, o'[p := Free], p)
  {
    hide Named;
  }

  /** After all user pages went, what is left of p are its directory and tables. */
  lemma AllPagesFreed(m: Mem, o: map<nat, Use>, o': map<nat, Use>, p: nat)
    requires Owned(m, o) && p in m.dirs && |m.dirs[p]| == NENTRIES && OwnerShrunk(m.dirs, o, o', p, 0, USERPAGES)
    ensures forall f | f in o' && o'[f].At? && o'[f].slot.InTable? :: o'[f].slot.p != p
    ensures forall o'' :: OwnerFreed(o', o'', p) ==> OwnerFreed(o, o'', p)
  {
    hide Named, Shape;
    forall f | f in o && o[f].At? && o[f].slot.InTable? && o[f].slot.p == p ensures o'[f].Free? {
      NoneSkipped(m.dirs[p], 0, o[f].slot.v);
    }
    hide Skipped;
  }

  lemma PgUpAll()
    ensures PgUp(0) == 0 && PgUp(KERNBASE) == USERPAGES
  {
  }

  lemma DetachedIs(m: Mem, p: nat)
    requires p in m.dirs && |m.dirs[p]| == NENTRIES
    ensures Detached(m, p) == Mem(m.free, m.dirs - {p},
              m.tabs - (set i | 0 <= i < NENTRIES && m.dirs[p][i].Entry? :: m.dirs[p][i].frame), m.content)
  {
  }

  lemma ViewFreed(m0: Mem, m1: Mem, m2: Mem, m3: Mem, p: nat)
    requires Shrunk(m0, m1, p, 0, USERPAGES) && SameView(m2, m3) && m2.dirs == m1.dirs - {p}
    requires forall q: nat, w: nat | IsSlot(m1.dirs - {p}, InTable(q, w)) :: Sees(m2, q, w) == Sees(m1, q, w)
    ensures Shape(m3.dirs, m3.tabs)
    ensures forall q: nat, w: nat | IsSlot(m2.dirs, InTable(q, w)) && q in m3.dirs :: Sees(m3, q, w) == Sees(m0, q, w)
  {
    hide Sees, Shape, Freed;
    forall q: nat, w: nat | IsSlot(m2.dirs, InTable(q, w)) ensures Sees(m3, q, w) == Sees(m0, q, w) {
      assert IsSlot(m0.dirs, InTable(q, w));
    }
  }

  // copyuvm.

  lemma CopiedStart(m: Mem, owner: map<nat, Use>, p: nat, d: nat)
    requires Owned(m, owner) && p in m.dirs
    ensures Copied(m, m, p, d, 0)
  {
    hide Named, Sees;
  }

  lemma CopiedAt(m0: Mem, m: Mem, p: nat, d: nat, n: nat)
    requires Copied(m0, m, p, d, n) && d in m0.dirs && p != d && n < USERPAGES
    ensures Sees(m, p, n) == Sees(m0, p, n) && Sees(m, d, n) == Sees(m0, d, n)
  {
    hide Sees, Shape;
    assert IsSlot(m0.dirs, InTable(p, n)) && IsSlot(m0.dirs, InTable(d, n));
  }

  lemma CopiedOn(m0: Mem, m: Mem, m': Mem, p: nat, d: nat, n: nat)
    requires Copied(m0, m, p, d, n) && d in m0.dirs && SameElse(m, m', d, n) && n < USERPAGES
    requires Sees(m', d, n) == Sees(m0, p, n)
    ensures Copied(m0, m', p, d, n + 1)
  {
    hide Sees, Shape;
  }

  /** The tables that n pages from 0 on are in. */
  function TablesFor(n: nat): (t: nat) { (n + NENTRIES - 1) / NENTRIES }

  /** The same with one frame taken and forgotten. */
  lemma LostThenFreed(o: map<nat, Use>, o': map<nat, Use>, o'': map<nat, Use>, d: nat, n: nat, mem: nat)
    requires Serves(o, o', d, 0, n) && mem in o' && o'[mem].Free? && OwnerFreed(o'[mem := Held], o'', d)
    ensures mem in o && o[mem].Free? && OwnerFreed(o[mem := Held], o'', d)
  {
    assert o[mem] == o'[mem];
    TakenThenFreed(o[mem := Held], o'[mem := Held], o'', d, 0, n);
  }

  lemma CostNext(dir: seq<Pte>, lo: nat, a: nat)
    requires |dir| == NENTRIES && lo <= a < USERPAGES
    ensures Cost(dir, lo, a + 1) == Cost(dir, lo, a) + 1 + (if NeedsTable(dir, lo, a) then 1 else 0)
  {
  }

  lemma CopiedElse(m0: Mem, m: Mem, m': Mem, m'': Mem, p: nat, d: nat, n: nat)
    requires Copied(m0, m, p, d, n) && SameView(m, m') && m''.dirs == m'.dirs - {d} && Shape(m''.dirs, m''.tabs)
    requires forall q: nat, w: nat | IsSlot(m''.dirs, InTable(q, w)) :: Sees(m'', q, w) == Sees(m', q, w)
    ensures forall q: nat, w: nat | IsSlot(m''.dirs, InTable(q, w)) :: Sees(m'', q, w) == Sees(m0, q, w)
  {
    hide Sees, Shape;
    forall q: nat, w: nat | IsSlot(m''.dirs, InTable(q, w)) ensures Sees(m'', q, w) == Sees(m0, q, w) {
      assert IsSlot(m0.dirs, InTable(q, w)) && IsSlot(m.dirs, InTable(q, w));
    }
  }

  /** With no table yet, n pages cost themselves and a table for every 1024 begun. */
  lemma {:induction false} CostFresh(dir: seq<Pte>, n: nat)
    requires NoUserTables(dir) && n <= USERPAGES
    ensures Cost(dir, 0, n) == n + TablesFor(n)
    decreases n
  {
    if 0 < n {
      CostFresh(dir, n - 1);
      assert NeedsTable(dir, 0, n - 1) <==> (n - 1) % NENTRIES == 0;
      CeilStep(n);
    }
  }

  lemma CeilStep(n: nat)
    requires 0 < n
    ensures (n + NENTRIES - 1) / NENTRIES ==
            (n - 1 + NENTRIES - 1) / NENTRIES + if (n - 1) % NENTRIES == 0 then 1 else 0
  {
    var q, r := (n - 1) / NENTRIES, (n - 1) % NENTRIES;
    assert n - 1 == q * NENTRIES + r;
    assert (q * NENTRIES + r + NENTRIES) / NENTRIES == q + 1;
    if r == 0 {
      assert (q * NENTRIES + NENTRIES - 1) / NENTRIES == q;
    } else {
      assert (q * NENTRIES + r + NENTRIES - 1) / NENTRIES == q + 1;
    }
  }

  /** The free pages run out between a page and its table. */
  predicate Leaks(pages: nat, frames: nat) {
    frames % (NENTRIES + 1) == 1 && frames / (NENTRIES + 1) * NENTRIES < pages
  }

  lemma LeaksIff(t: nat, frames: nat, pages: nat)
    requires frames == 1025 * t + 1
    ensures Leaks(pages, frames) <==> 1024 * t < pages
  {
    assert frames / 1025 == t;
  }

  lemma TablesBefore(t: nat)
    ensures TablesFor(1024 * t) == t
  {
  }

  ghost predicate NoUserTables(dir: seq<Pte>) {
    |dir| == NENTRIES && forall i | 0 <= i < NENTRIES && i * NENTRIES < USERPAGES :: dir[i].Absent?
  }

  lemma NeedsThere(dir: seq<Pte>, k: nat)
    requires NoUserTables(dir) && k < USERPAGES
    ensures NeedsTable(dir, 0, k) <==> k == 1024 * (k / 1024)
  {
  }

  /** When copying stops at page k for want of a table, it is at a table's first page and one frame was left. */
  lemma {:induction false} LeakThere(dir: seq<Pte>, k: nat, n: nat, frames: nat)
    requires NoUserTables(dir) && k < n <= USERPAGES
    requires frames == Cost(dir, 0, k) + 1 && NeedsTable(dir, 0, k)
    ensures Leaks(n, frames) && frames < Cost(dir, 0, n)
  {
    hide Leaks, TablesFor, NeedsTable;
    var t := k / 1024;
    NeedsThere(dir, k);
    CostFresh(dir, k);
    CostGrows(dir, 0, k + 1, n);
    TablesBefore(t);
    LeaksIff(t, frames, n);
  }

  /** When copying stops for want of a page, or not at all, no table's first page was reached with one frame left. */
  lemma {:induction false} NoLeakThere(dir: seq<Pte>, k: nat, n: nat, frames: nat)
    requires NoUserTables(dir) && k <= n <= USERPAGES
    requires if k < n then frames == Cost(dir, 0, k) else Cost(dir, 0, n) <= frames
    ensures !Leaks(n, frames) && (k < n ==> frames < Cost(dir, 0, n))
  {
    hide TablesFor, NeedsTable, Leaks, Cost;
    if k < n {
      CostNext(dir, 0, k);
      CostGrows(dir, 0, k + 1, n);
    }
    var t := frames / 1025;
    LeaksOnlyAt(frames, n);
    if frames == 1025 * t + 1 && 1024 * t < n {
      CostGap(dir, t);
      CostGrows(dir, 0, 1024 * t + 1, n);
      if k <= 1024 * t {
        CostGrows(dir, 0, k, 1024 * t);
      } else {
        CostGrows(dir, 0, 1024 * t + 1, k);
      }
    }
  }

  lemma LeaksOnlyAt(frames: nat, pages: nat)
    ensures Leaks(pages, frames) <==> frames == 1025 * (frames / 1025) + 1 && 1024 * (frames / 1025) < pages
  {
  }

  /** The first page of a table costs two frames at once. */
  lemma {:induction false} CostGap(dir: seq<Pte>, t: nat)
    requires NoUserTables(dir) && 1024 * t < USERPAGES
    ensures Cost(dir, 0, 1024 * t) == 1025 * t && Cost(dir, 0, 1024 * t + 1) == 1025 * t + 2
  {
    hide TablesFor, NeedsTable, NoUserTables;
    CostFresh(dir, 1024 * t);
    TablesBefore(t);
    NeedsThere(dir, 1024 * t);
    assert 1024 * t / 1024 == t;
  }

  lemma EmptyHalf(m: Mem, owner: map<nat, Use>, d: nat, v: nat)
    requires Owned(m, owner) && d in m.dirs && NoUserTables(m.dirs[d]) && v < USERPAGES
    ensures Sees(m, d, v) == Nothing
  {
  }

  // setupkvm.

  /** The page tables of the kernel's ranges: KERNBASE .. KERNBASE + PHYSTOP, and from DEVSPACE on. */
  const KERNELTABLES: nat := 64

  function KernelTable(k: nat): (i: nat)
    requires k < KERNELTABLES
  {
    if k < 56 then 512 + k else 960 + k
  }

  const PHYSTOP: nat := 0xE00_0000
  const DEVSPACE: nat := 0xFE00_0000

  /** The addresses that setupkvm maps. */
  predicate KernelRange(a: nat) {
    KERNBASE <= a < KERNBASE + PHYSTOP || DEVSPACE <= a
  }

  lemma KernelTables(k: nat)
    requires k < KERNELTABLES
    ensures KernelTable(k) < NENTRIES && USERPAGES <= KernelTable(k) * NENTRIES < ALLPAGES
    ensures KernelTable(k) * NENTRIES / NENTRIES == KernelTable(k)
  {
  }

  /** A directory has page tables for exactly those addresses. */
  ghost predicate KernelMapped(dir: seq<Pte>)
    requires |dir| == NENTRIES
  {
    forall i | 0 <= i < NENTRIES :: dir[i].Entry? <==> KernelRange(i * NENTRIES * PGSIZE)
  }

  /** It has those of the first k tables, which are the lowest. */
  ghost predicate KernelTo(dir: seq<Pte>, k: nat)
    requires k <= KERNELTABLES
  {
    && |dir| == NENTRIES
    && forall i | 0 <= i < NENTRIES ::
         dir[i].Entry? <==> KernelRange(i * NENTRIES * PGSIZE) && (k < KERNELTABLES ==> i < KernelTable(k))
  }

  lemma KernelStart()
    ensures KernelTo(NoEntries(NENTRIES), 0)
  {
  }

  lemma KernelNext(dir: seq<Pte>, k: nat, e: Pte)
    requires k < KERNELTABLES && KernelTo(dir, k) && e.Entry?
    ensures KernelTable(k) < NENTRIES && dir[KernelTable(k)].Absent? && KernelTo(dir[KernelTable(k) := e], k + 1)
  {
  }

  lemma KernelEnd(dir: seq<Pte>)
    requires KernelTo(dir, KERNELTABLES)
    ensures |dir| == NENTRIES && KernelMapped(dir)
  {
  }

  lemma NothingMapped()
    ensures NoUserTables(NoEntries(NENTRIES))
    ensures forall j | 0 <= j < KERNELTABLES :: KernelTable(j) < NENTRIES && NoEntries(NENTRIES)[KernelTable(j)].Absent?
  {
  }

  lemma NoUserTablesKept(dir: seq<Pte>, i: nat, e: Pte)
    requires NoUserTables(dir) && i < NENTRIES && USERPAGES <= i * NENTRIES
    ensures NoUserTables(dir[i := e])
  {
  }

  lemma ExtendsSelf(m: Mem, owner: map<nat, Use>)
    requires Owned(m, owner)
    ensures Extends(m, m)
  {
    hide Sees;
  }

  lemma NewDirectory(m: Mem, o: map<nat, Use>, o': map<nat, Use>, d: nat)
    requires Owned(m, o') && d in o && o[d].Free? && o' == o[d := Held]
    ensures d !in m.dirs && Serves(o, o'[d := Dir], d, 0, 0)
  {
  }

  lemma ServesTable(o: map<nat, Use>, o': map<nat, Use>, o'': map<nat, Use>, d: nat, i: nat, t: nat)
    requires Serves(o, o', d, 0, 0) && t in o' && o'[t].Free? && o'' == o'[t := At(InDir(d, i))]
    ensures Serves(o, o'', d, 0, 0)
  {
  }

  /** Nothing serves an address space that does not exist. */
  lemma NotTheirs(m: Mem, o: map<nat, Use>, d: nat)
    requires Owned(m, o)
    ensures d !in m.dirs ==> forall f | f in o :: !OfDir(f, o[f], d)
  {
    hide Named, Shape;
  }

  lemma LostFromStart(o: map<nat, Use>, o': map<nat, Use>, o'': map<nat, Use>, d: nat, mem: nat)
    requires Serves(o, o', d, 0, 0) && mem in o' && o'[mem].Free? && OwnerFreed(o'[mem := Held], o'', d)
    requires forall f | f in o :: !OfDir(f, o[f], d)
    ensures mem in o && o[mem].Free? && o'' == o[mem := Held]
  {
    LostThenFreed(o, o', o'', d, 0, mem);
  }

  lemma ExtendsAll(m: Mem, m': Mem)
    requires Extends(m, m')
    ensures forall q: nat, w: nat | IsSlot(m.dirs, InTable(q, w)) :: q in m'.dirs && Sees(m', q, w) == Sees(m, q, w)
  {
  }

  lemma ViewChain(m: Mem, m': Mem, m'': Mem, d: nat)
    requires Extends(m, m') && d !in m.dirs && m'.dirs.Keys - {d} <= m''.dirs.Keys && Shape(m''.dirs, m''.tabs)
    requires forall q: nat, w: nat | IsSlot(m'.dirs, InTable(q, w)) && q != d ::
             q in m''.dirs && Sees(m'', q, w) == Sees(m', q, w)
    ensures forall q: nat, w: nat | IsSlot(m.dirs, InTable(q, w)) :: q in m''.dirs && Sees(m'', q, w) == Sees(m, q, w)
  {
    hide Shape, Sees;
    forall q: nat, w: nat | IsSlot(m.dirs, InTable(q, w)) ensures q in m''.dirs && Sees(m'', q, w) == Sees(m, q, w) {
      assert IsSlot(m'.dirs, InTable(q, w));
    }
  }

  lemma CopyShows(m0: Mem, o: map<nat, Use>, m: Mem, p: nat, d: nat, n: nat)
    requires Owned(m0, o) && Copied(m0, m, p, d, n) && d in m0.dirs && p != d && NoUserTables(m0.dirs[d])
    requires n <= USERPAGES
    ensures Shape(m.dirs, m.tabs) && m.dirs.Keys == m0.dirs.Keys
    ensures forall q: nat, w: nat | IsSlot(m0.dirs, InTable(q, w)) && q != d :: Sees(m, q, w) == Sees(m0, q, w)
    ensures forall w: nat | w < USERPAGES :: Sees(m, d, w) == if w < n then Sees(m0, p, w) else Nothing
  {
    hide Sees, Shape, NoUserTables;
    forall w: nat | w < USERPAGES ensures Sees(m, d, w) == if w < n then Sees(m0, p, w) else Nothing {
      EmptyHalf(m0, o, d, w);
      assert IsSlot(m0.dirs, InTable(d, w)) && IsSlot(m0.dirs, InTable(p, w));
    }
  }

  class Memory {
    var free: seq<nat>
    var dirs: Tables
    var tabs: Tables
    var content: map<nat, Page>
    ghost var owner: map<nat, Use>

    /** freerange on an empty allocator: every whole page between the addresses, and nothing else, is free. */
    constructor (vstart: nat, vend: nat)
      ensures Valid() && dirs == map[]
      ensures forall f: nat :: f in owner <==> vstart <= f * PGSIZE && (f + 1) * PGSIZE <= vend
      ensures forall f | f in owner :: owner[f].Free?
    {
      free, dirs, tabs, content, owner := [], map[], map[], map[], map[];
      new;
      hide Fill, FreeRight, TypesRight, LinksRight, SameView, PgUp;
      NoFrames();
      var p := PgUp(vstart);
      while (p + 1) * PGSIZE <= vend
        invariant PgUp(vstart) <= p && Valid() && dirs == map[]
        invariant forall f: nat :: f in owner <==> PgUp(vstart) <= f < p
        invariant forall f: nat | f in owner :: owner[f].Free? && (f + 1) * PGSIZE <= vend
        decreases vend - p * PGSIZE
      {
        NewFrame(Now(), owner, p, []);
        content := content[p := []];
        owner := owner[p := Held];
        Kfree(p);
        p := p + 1;
      }
    }

    ghost function Now(): (m: Mem)
      reads this
    {
      Mem(free, dirs, tabs, content)
    }

    ghost predicate Valid()
      reads this
    {
      Owned(Now(), owner)
    }

    /** kalloc: the head of the free list, if there is one. */
    method Kalloc() returns (f: nat, ok: bool)
      requires Valid()
      modifies this
      ensures Valid() && dirs == old(dirs) && tabs == old(tabs) && content == old(content)
      ensures ok == (old(free) != []) && SameView(old(Now()), Now())
      ensures !ok ==> free == old(free) && owner == old(owner)
      ensures ok ==> f in old(owner) && old(owner)[f].Free? && owner == old(owner)[f := Held] && free == old(free)[1..]
    {
      hide SameView, FreeRight, TypesRight, LinksRight;
      ok := free != [];
      f := 0;
      if ok {
        TakenOwned(Now(), owner);
        f := free[0];
        free := free[1..];
        owner := owner[f := Held];
      } else {
        SameSelf(Now(), owner);
      }
    }

    /** kfree: onto the free list, filled with junk. */
    method Kfree(f: nat)
      requires Valid() && f in owner && owner[f].Held?
      modifies this
      ensures Valid() && dirs == old(dirs) && tabs == old(tabs) && SameView(old(Now()), Now())
      ensures free == [f] + old(free) && owner == old(owner)[f := Free]
      ensures content == old(content)[f := Fill(PGSIZE, 1)]
    {
      hide SameView, FreeRight, TypesRight, LinksRight;
      GivenOwned(Now(), owner, f);
      content := content[f := Fill(PGSIZE, 1)];
      free := [f] + free;
      owner := owner[f := Free];
    }

    /** walkpgdir: the page table for page v of p, made if asked for and missing. */
    method WalkPgdir(p: nat, v: nat, alloc: bool) returns (t: nat, ok: bool)
      requires Valid() && p in dirs && v < ALLPAGES
      modifies this
      ensures Valid() && dirs.Keys == old(dirs).Keys && SameView(old(Now()), Now()) && content == old(content)
      ensures |old(dirs)[p]| == |dirs[p]| == NENTRIES
      ensures ok == (old(dirs)[p][v / NENTRIES].Entry? || (alloc && old(free) != []))
      ensures !ok || old(dirs)[p][v / NENTRIES].Entry? ==> Now() == old(Now()) && owner == old(owner)
      ensures ok ==> t in tabs && dirs[p][v / NENTRIES].Entry? && dirs[p][v / NENTRIES].frame == t
      ensures ok && old(dirs)[p][v / NENTRIES].Absent? ==>
                && free == old(free)[1..]
                && dirs == old(dirs)[p := old(dirs)[p][v / NENTRIES := Entry(t, UWRITE)]]
                && t in old(owner) && old(owner)[t].Free? && owner == old(owner)[t := At(InDir(p, v / NENTRIES))]
    {
      hide FreeRight, TypesRight, LinksRight, SameView, Named;
      TableOf(Now(), owner, p, v);
      if dirs[p][v / NENTRIES].Entry? {
        SameSelf(Now(), owner);
        return dirs[p][v / NENTRIES].frame, true;
      }
      if !alloc {
        SameSelf(Now(), owner);
        return 0, false;
      }
      t, ok := Kalloc();
      if ok {
        TabledOwned(Now(), owner, p, v / NENTRIES, t);
        SameTwice(old(Now()), Now(), Tabled(Now(), p, v / NENTRIES, t));
        tabs := tabs[t := NoEntries(NENTRIES)];
        dirs := dirs[p := dirs[p][v / NENTRIES := Entry(t, UWRITE)]];
        owner := owner[t := At(InDir(p, v / NENTRIES))];
      }
    }

    /** mappages for one page: the held frame f at page v of p. */
    method MapPage(p: nat, v: nat, f: nat, flags: nat) returns (ok: bool)
      requires Valid() && p in dirs && v < USERPAGES && Sees(Now(), p, v) == Nothing
      requires f in owner && owner[f].Held?
      modifies this
      ensures Valid() && dirs.Keys == old(dirs).Keys && |old(dirs)[p]| == |dirs[p]| == NENTRIES
      ensures ok == (old(dirs)[p][v / NENTRIES].Entry? || old(free) != [])
      ensures !ok ==> Now() == old(Now()) && owner == old(owner)
      ensures ok ==> SameElse(old(Now()), Now(), p, v) && Sees(Now(), p, v) == Seen(flags, old(content)[f])
      ensures ok ==> content == old(content) && dirs[p][v / NENTRIES].Entry?
      ensures ok ==> Serves(old(owner)[f := Free], owner, p, v, v + 1) && owner[f] == At(InTable(p, v))
      ensures ok && old(dirs)[p][v / NENTRIES].Entry? ==> dirs == old(dirs) && free == old(free)
      ensures ok && old(dirs)[p][v / NENTRIES].Absent? ==>
                && free == old(free)[1..]
                && forall i | 0 <= i < NENTRIES && i != v / NENTRIES :: dirs[p][i] == old(dirs)[p][i]
      ensures ok ==> forall q | q in dirs && q != p :: dirs[q] == old(dirs)[q]
    {
      hide FreeRight, TypesRight, LinksRight, SameView, SameElse, Named, Sees;
      NothingThere(Now(), owner, p, v);
      var t;
      t, ok := WalkPgdir(p, v, true);
      if ok {
        ghost var before := Now();
        SameAt(old(Now()), before, p, v);
        NothingThere(before, owner, p, v);
        TableOf(before, owner, p, v);
        MappedOwned(before, owner, p, v, f, flags);
        tabs := tabs[t := tabs[t][v % NENTRIES := Entry(f, flags)]];
        owner := owner[f := At(InTable(p, v))];
        assert Now() == WithEntry(before, p, v, Entry(f, flags));
        SameThenElse(old(Now()), before, Now(), p, v);
      }
    }

    /** deallocuvm's work on one page: if it is mapped, its frame is freed and its entry cleared. */
    method FreePage(p: nat, v: nat)
      requires Valid() && p in dirs && v < USERPAGES && |dirs[p]| == NENTRIES && dirs[p][v / NENTRIES].Entry?
      modifies this
      ensures Valid() && dirs == old(dirs) && SameElse(old(Now()), Now(), p, v) && Sees(Now(), p, v) == Nothing
      ensures owner.Keys == old(owner).Keys
      ensures forall f | f in owner :: owner[f] == if old(owner)[f] == At(InTable(p, v)) then Free else old(owner)[f]
    {
      hide FreeRight, TypesRight, LinksRight, SameView, SameElse, Sees;
      TableOf(Now(), owner, p, v);
      NothingThere(Now(), owner, p, v);
      var t := dirs[p][v / NENTRIES].frame;
      var e := tabs[t][v % NENTRIES];
      assert e == Named(dirs, tabs, InTable(p, v));
      OnePage(Now(), owner, InTable(p, v));
      if e.Entry? {
        ghost var before := Now();
        UnmappedOwned(before, owner, p, v);
        tabs := tabs[t := tabs[t][v % NENTRIES := Absent]];
        owner := owner[e.frame := Held];
        assert Now() == WithEntry(before, p, v, Absent);
        ghost var unmapped := Now();
        Kfree(e.frame);
        ElseThenSame(before, unmapped, Now(), p, v);
      } else {
        ElseSelf(Now(), owner, p, v);
      }
    }

    /** deallocuvm: frees exactly the mapped pages between the sizes that its walk does not jump over. */
    method DeallocUvm(p: nat, oldsz: nat, newsz: nat) returns (r: nat)
      requires Valid() && p in dirs && oldsz <= KERNBASE
      modifies this
      ensures Valid() && dirs == old(dirs) && |dirs[p]| == NENTRIES
      ensures newsz >= oldsz ==> r == oldsz && Now() == old(Now()) && owner == old(owner)
      ensures newsz < oldsz ==> r == newsz && Shrunk(old(Now()), Now(), p, PgUp(newsz), PgUp(oldsz))
      ensures newsz < oldsz ==> OwnerShrunk(dirs, old(owner), owner, p, PgUp(newsz), PgUp(oldsz))
      ensures newsz < oldsz ==> ShrunkTo(old(Now()), Now(), p, oldsz, newsz)
    {
      hide FreeRight, TypesRight, LinksRight, Named, Sees, SameElse, Shrunk, OwnerShrunk, Skipped, Passed, InStep,
           Landed;
      TableOf(Now(), owner, p, 0);
      if newsz >= oldsz {
        return oldsz;
      }
      ghost var m0, lo := Now(), PgUp(newsz);
      var a, end := PgUp(newsz), PgUp(oldsz);
      ShrunkStart(m0, owner, p, lo);
      WalkStart(dirs[p], lo);
      while a < end
        invariant lo <= a && Valid() && dirs == old(dirs)
        invariant a < end ==> InStep(dirs[p], lo, a)
        invariant Shrunk(m0, Now(), p, lo, a)
        invariant OwnerShrunk(dirs, old(owner), owner, p, lo, a)
        invariant forall w: nat | end <= w < a && w < USERPAGES :: Passed(dirs[p], lo, w)
      {
        var t, ok := WalkPgdir(p, a, false);
        if !ok {
          StepOver(dirs[p], lo, a);
          ShrunkPast(m0, Now(), old(owner), owner, p, lo, a, a + NENTRIES);
          a := a + (NENTRIES - 1);
        } else {
          StepOn(dirs[p], lo, a);
          ghost var before, uses := Now(), owner;
          FreePage(p, a);
          ShrunkOn(m0, before, Now(), p, lo, a);
          OwnerOn(dirs, old(owner), uses, owner, p, lo, a);
        }
        a := a + 1;
      }
      ShrunkPast(m0, Now(), old(owner), owner, p, lo, end, a);
      ShrunkByAddress(m0, Now(), p, oldsz, newsz);
      r := newsz;
    }

    /** What allocuvm and copyuvm do for one page: a frame, its bytes, its entry.  A failure may leave a frame held. */
    method PlacePage(p: nat, v: nat, flags: nat, bytes: Page) returns (mem: nat, got: bool, ok: bool)
      requires Valid() && p in dirs && v < USERPAGES && Sees(Now(), p, v) == Nothing
      modifies this
      ensures Valid() && dirs.Keys == old(dirs).Keys && |old(dirs)[p]| == |dirs[p]| == NENTRIES
      ensures got == (old(free) != [])
      ensures ok == (1 + (if old(dirs)[p][v / NENTRIES].Absent? then 1 else 0) <= |old(free)|)
      ensures ok ==> SameElse(old(Now()), Now(), p, v) && Sees(Now(), p, v) == Seen(flags, bytes)
      ensures ok ==> Serves(old(owner), owner, p, v, v + 1) && dirs[p][v / NENTRIES].Entry?
      ensures ok ==> |free| == |old(free)| - 1 - (if old(dirs)[p][v / NENTRIES].Absent? then 1 else 0)
      ensures ok ==> forall i | 0 <= i < NENTRIES && i != v / NENTRIES :: dirs[p][i] == old(dirs)[p][i]
      ensures forall q | q in dirs && q != p :: dirs[q] == old(dirs)[q]
      ensures !ok ==> SameView(old(Now()), Now()) && dirs == old(dirs)
      ensures !ok && !got ==> owner == old(owner)
      ensures !ok && got ==> mem in old(owner) && old(owner)[mem].Free? && owner == old(owner)[mem := Held]
    {
      hide FreeRight, TypesRight, LinksRight, SameView, SameElse, Named, Sees;
      TableOf(Now(), owner, p, v);
      mem, got := Kalloc();
      ok := got;
      if got {
        ghost var before := Now();
        LoadedOwned(before, owner, mem, bytes);
        content := content[mem := bytes];
        SameTwice(old(Now()), before, Now());
        SameAt(old(Now()), Now(), p, v);
        ghost var ready := Now();
        ok := MapPage(p, v, mem, flags);
        if ok {
          SameThenElse(old(Now()), ready, Now(), p, v);
        }
      }
    }

    /** allocuvm's way out: deallocuvm over the whole range, and the frame that found no entry freed. */
    method Undo(p: nat, oldsz: nat, newsz: nat, ghost m0: Mem, ghost o: map<nat, Use>, ghost o': map<nat, Use>,
                ghost a: nat, mem: nat, got: bool)
      requires Valid() && p in dirs && p in m0.dirs && newsz < KERNBASE && Shape(m0.dirs, m0.tabs)
      requires |dirs[p]| == NENTRIES
      requires PgUp(oldsz) <= a < PgUp(newsz) && Grown(m0, Now(), p, PgUp(oldsz), a)
      requires PgUp(oldsz) < a ==> dirs[p][PgUp(oldsz) / NENTRIES].Entry?
      requires forall w: nat | PgUp(oldsz) <= w < PgUp(newsz) :: Sees(m0, p, w) == Nothing
      requires Owned(m0, o) && Serves(o, o', p, PgUp(oldsz), a)
      requires if got then mem in o' && o'[mem].Free? && owner == o'[mem := Held] else owner == o'
      modifies this
      ensures Valid() && SameView(m0, Now()) && Serves(o, owner, p, PgUp(oldsz), PgUp(oldsz))
    {
      hide FreeRight, TypesRight, LinksRight, SameView, Named, Sees, Grown, Shrunk, OwnerShrunk;
      var r := DeallocUvm(p, newsz, oldsz);
      GrownUndone(m0, old(Now()), Now(), p, PgUp(oldsz), a, PgUp(newsz));
      ShrunkHeld(dirs, o', old(owner), owner, p, PgUp(oldsz), PgUp(newsz), mem, got);
      if got {
        ghost var before := Now();
        Kfree(mem);
        SameTwice(m0, before, Now());
      }
      GrownThenShrunk(m0, o, dirs, o', owner, p, PgUp(oldsz), a, PgUp(newsz));
    }

    /**
     allocuvm: zeroed pages up to the new size if the free pages suffice; otherwise every process sees
     the memory it saw before, and no frame is lost.
     */
    method AllocUvm(p: nat, oldsz: nat, newsz: nat) returns (r: nat)
      requires Valid() && p in dirs && Shape(dirs, tabs)
      requires newsz < KERNBASE ==> forall w: nat | PgUp(oldsz) <= w < PgUp(newsz) :: Sees(Now(), p, w) == Nothing
      modifies this
      ensures Valid() && |old(dirs)[p]| == NENTRIES
      ensures newsz >= KERNBASE ==> r == 0 && Now() == old(Now()) && owner == old(owner)
      ensures newsz < oldsz && newsz < KERNBASE ==> r == oldsz && Now() == old(Now()) && owner == old(owner)
      ensures oldsz <= newsz < KERNBASE ==>
                if Cost(old(dirs)[p], PgUp(oldsz), PgUp(newsz)) <= |old(free)|
                then && r == newsz && Grown(old(Now()), Now(), p, PgUp(oldsz), PgUp(newsz))
                     && Serves(old(owner), owner, p, PgUp(oldsz), PgUp(newsz))
                     && GrownTo(old(Now()), Now(), p, oldsz, newsz)
                else && r == 0 && SameView(old(Now()), Now())
                     && Serves(old(owner), owner, p, PgUp(oldsz), PgUp(oldsz))
    {
      hide FreeRight, TypesRight, LinksRight, SameView, SameElse, Named, Sees, Grown, Shrunk, TabledTo, NeedsTable,
        OwnerShrunk, Shape, PgUp, Serves;
      ServesNone(owner, p, PgUp(oldsz));
      TableOf(Now(), owner, p, 0);
      if newsz >= KERNBASE {
        return 0;
      }
      if newsz < oldsz {
        return oldsz;
      }
      PgUpFacts(oldsz, newsz);
      ghost var m0, dir0, lo := Now(), dirs[p], PgUp(oldsz);
      var a, hi := PgUp(oldsz), PgUp(newsz);
      GrownStart(m0, owner, p, lo);
      TabledStart(dir0, lo);
      while a < hi
        invariant lo <= a <= hi && Valid() && p in dirs && |dirs[p]| == NENTRIES
        invariant Grown(m0, Now(), p, lo, a) && TabledTo(dir0, dirs[p], lo, a)
        invariant Serves(old(owner), owner, p, lo, a)
        invariant Cost(dir0, lo, a) + |free| == |old(free)|
      {
        ghost var before, uses := Now(), owner;
        GrownBeyond(m0, before, p, lo, a);
        TabledNow(dir0, dirs[p], lo, a);
        var mem, got, ok := PlacePage(p, a, UWRITE, Zeroed());
        if !ok {
          CostGrows(dir0, lo, a + 1, hi);
          GrownSame(m0, before, Now(), p, lo, a);
          Undo(p, oldsz, newsz, m0, old(owner), uses, a, mem, got);
          return 0;
        }
        GrownOn(m0, before, Now(), p, lo, a);
        ServesWider(old(owner), uses, owner, p, lo, a, a + 1);
        TabledStep(dir0, before.dirs[p], dirs[p], lo, a);
        a := a + 1;
      }
      GrownByAddress(m0, Now(), p, oldsz, newsz);
      r := newsz;
    }

    /** freevm: every frame of the address space p, and no other, goes to the free list. */
    method FreeVm(p: nat)
      requires Valid() && p in dirs && Shape(dirs, tabs)
      modifies this
      ensures Valid() && dirs == old(dirs) - {p} && Shape(dirs, tabs) && OwnerFreed(old(owner), owner, p)
      ensures forall q: nat, w: nat | IsSlot(dirs, InTable(q, w)) :: Sees(Now(), q, w) == Sees(old(Now()), q, w)
    {
      hide FreeRight, TypesRight, LinksRight, SameView, Named, Sees, Shrunk, OwnerShrunk, Shape, OwnerFreed,
           Detached, Released, TablesFreed;
      PgUpAll();
      var r := DeallocUvm(p, KERNBASE, 0);
      AllPagesFreed(old(Now()), old(owner), owner, p);
      ghost var m1, o1 := Now(), owner;
      DetachedOwned(m1, o1, p);
      // From here on nothing reads these frames as tables.
      var dir := dirs[p];
      tabs := tabs - (set i | 0 <= i < NENTRIES && dir[i].Entry? :: dir[i].frame);
      dirs := dirs - {p};
      owner := Released(owner, p);
      assert Now() == Detached(m1, p) by {
        DetachedIs(m1, p);
      }
      ghost var m2 := Now();
      SameSelf(m2, owner);
      TablesStart(o1, p);
      var i := 0;
      while i < NENTRIES
        invariant i <= NENTRIES && Valid() && dirs == m1.dirs - {p} && SameView(m2, Now())
        invariant TablesFreed(o1, owner, p, i)
      {
        TablesStep(m1, o1, owner, p, i);
        if dir[i].Entry? {
          ghost var before := Now();
          Kfree(dir[i].frame);
          SameTwice(m2, before, Now());
        }
        i := i + 1;
      }
      TablesDone(m1, o1, owner, p);
      ghost var before := Now();
      Kfree(p);
      SameTwice(m2, before, Now());
      ViewFreed(old(Now()), m1, m2, Now(), p);
    }

    /** The entry of a mapped page, and the bytes of its frame. */
    method ReadEntry(p: nat, v: nat) returns (flags: nat, bytes: Page)
      requires Valid() && p in dirs && v < USERPAGES && Sees(Now(), p, v) != Nothing
      modifies this
      ensures Valid() && Now() == old(Now()) && owner == old(owner) && Sees(Now(), p, v) == Seen(flags, bytes)
    {
      TableOf(Now(), owner, p, v);
      var t, ok := WalkPgdir(p, v, false);
      var e := tabs[t][v % NENTRIES];
      return e.flags, content[e.frame];
    }

    /** copyuvm's way out. */
    method GiveUp(ghost m0: Mem, ghost before: Mem, ghost p: nat, d: nat, ghost n: nat)
      requires Valid() && d in dirs && Copied(m0, before, p, d, n) && SameView(before, Now())
      modifies this
      ensures Valid() && dirs.Keys == old(dirs).Keys - {d} && Shape(dirs, tabs) && OwnerFreed(old(owner), owner, d)
      ensures forall q: nat, w: nat | IsSlot(dirs, InTable(q, w)) :: Sees(Now(), q, w) == Sees(m0, q, w)
    {
      hide FreeRight, TypesRight, LinksRight, Named, Sees, OwnerFreed, Copied;
      FreeVm(d);
      CopiedElse(m0, before, old(Now()), Now(), p, d, n);
    }

    /**
     copyuvm's loop, into an address space d whose user half is empty.  If the free pages suffice, the copy
     shows what the original shows.  Otherwise d is gone and so is all that was taken for it, unless the free
     pages ran out between a page and its table: then that one page stays in nobody's hands.
     */
    method CopyPages(p: nat, d: nat, sz: nat) returns (ok: bool, ghost lost: nat)
      requires Valid() && p in dirs && d in dirs && p != d && sz <= KERNBASE && Shape(dirs, tabs)
      requires forall w: nat | w < PgUp(sz) && w < USERPAGES :: Sees(Now(), p, w) != Nothing
      requires NoUserTables(dirs[d])
      modifies this
      ensures Valid() && Shape(dirs, tabs)
      ensures ok <==> PgUp(sz) + TablesFor(PgUp(sz)) <= |old(free)|
      ensures ok ==> Copied(old(Now()), Now(), p, d, PgUp(sz)) && Serves(old(owner), owner, d, 0, PgUp(sz))
      ensures ok ==> forall a: nat | a < sz :: Finds(Now(), d, a) == Finds(old(Now()), p, a)
      ensures ok ==> dirs.Keys == old(dirs).Keys
      ensures !ok ==> dirs.Keys == old(dirs).Keys - {d}
      ensures !ok ==> forall q: nat, w: nat | IsSlot(dirs, InTable(q, w)) :: Sees(Now(), q, w) == Sees(old(Now()), q, w)
      ensures !ok && !Leaks(PgUp(sz), |old(free)|) ==> OwnerFreed(old(owner), owner, d)
      ensures !ok && Leaks(PgUp(sz), |old(free)|) ==>
                lost in old(owner) && old(owner)[lost].Free? && OwnerFreed(old(owner)[lost := Held], owner, d)
    {
      hide FreeRight, TypesRight, LinksRight, SameView, SameElse, Named, Sees, Copied, TabledTo, NeedsTable, Cost, PgUp,
        Leaks, OwnerFreed, NoUserTables, Shape, Serves;
      ok, lost := true, 0;
      PgUpFacts(0, sz);
      TableOf(Now(), owner, d, 0);
      ghost var m0, dir0 := Now(), dirs[d];
      var i, n := 0, PgUp(sz);
      CopiedStart(m0, owner, p, d);
      TabledStart(dir0, 0);
      CostFresh(dir0, n);
      ServesNone(owner, d, 0);
      while i < n
        invariant i <= n && Valid() && p in dirs && d in dirs && |dirs[d]| == NENTRIES && dirs.Keys == old(dirs).Keys
        invariant Copied(m0, Now(), p, d, i) && TabledTo(dir0, dirs[d], 0, i)
        invariant Serves(old(owner), owner, d, 0, i) && Cost(dir0, 0, i) + |free| == |old(free)|
      {
        ghost var before, uses := Now(), owner;
        CopiedAt(m0, before, p, d, i);
        EmptyHalf(m0, old(owner), d, i);
        TabledNow(dir0, dirs[d], 0, i);
        CostNext(dir0, 0, i);
        var flags, bytes := ReadEntry(p, i);
        var mem, got, placed := PlacePage(d, i, flags, bytes);
        if !placed {
          // The frame `mem`, if there is one, is not given back.
          ghost var left := owner;
          GiveUp(m0, before, p, d, i);
          if got {
            LeakThere(dir0, i, n, |old(free)|);
            LostThenFreed(old(owner), uses, owner, d, i, mem);
          } else {
            NoLeakThere(dir0, i, n, |old(free)|);
            TakenThenFreed(old(owner), uses, owner, d, 0, i);
          }
          return false, mem;
        }
        CopiedOn(m0, before, Now(), p, d, i);
        TabledStep(dir0, before.dirs[d], dirs[d], 0, i);
        ServesWider(old(owner), uses, owner, d, 0, i, i + 1);
        i := i + 1;
      }
      NoLeakThere(dir0, n, n, |old(free)|);
      TableOf(Now(), owner, p, 0);
      CopiedByAddress(m0, Now(), p, d, sz);
    }

    /** The start of setupkvm: a page for the directory, zeroed. */
    method NewSpace() returns (d: nat, ok: bool)
      requires Valid() && Shape(dirs, tabs)
      modifies this
      ensures Valid() && Extends(old(Now()), Now()) && (ok <==> old(free) != [])
      ensures !ok ==> Now() == old(Now()) && owner == old(owner)
      ensures ok ==> d !in old(dirs) && dirs == old(dirs)[d := NoEntries(NENTRIES)] && free == old(free)[1..]
      ensures ok ==> Serves(old(owner), owner, d, 0, 0)
    {
      hide FreeRight, TypesRight, LinksRight, SameView, Named, Sees, Shape, Extends, Serves;
      ExtendsSelf(Now(), owner);
      d, ok := Kalloc();
      if ok {
        ghost var m0 := Now();
        WithDirOwned(m0, owner, d);
        NewDirectory(m0, old(owner), owner, d);
        dirs := dirs[d := NoEntries(NENTRIES)];
        owner := owner[d := Dir];
        SameExtends(old(Now()), m0, Now());
      }
    }

    /**
     setupkvm: a new directory with page tables for the kernel's ranges.  If the free pages do not suffice,
     it returns 0 and all of them are lost in a directory that nobody knows.
     */
    method SetupKvm() returns (d: nat, ok: bool)
      requires Valid() && Shape(dirs, tabs)
      modifies this
      ensures Valid() && Extends(old(Now()), Now()) && (ok <==> KERNELTABLES + 1 <= |old(free)|)
      ensures old(free) == [] ==> Now() == old(Now()) && owner == old(owner)
      ensures old(free) != [] ==>
              d !in old(dirs) && dirs.Keys == old(dirs).Keys + {d} && Serves(old(owner), owner, d, 0, 0)
      ensures old(free) != [] ==> NoUserTables(dirs[d])
      ensures ok ==> |free| == |old(free)| - KERNELTABLES - 1
      ensures ok ==> |dirs[d]| == NENTRIES && KernelMapped(dirs[d])
      ensures !ok ==> free == []
    {
      hide FreeRight, TypesRight, LinksRight, SameView, Named, Sees, Shape, Extends, Serves, KernelTable, NoUserTables,
           KernelTo, KernelMapped;
      d, ok := NewSpace();
      if !ok {
        return;
      }
      NothingMapped();
      KernelStart();
      var k := 0;
      while k < KERNELTABLES
        invariant k <= KERNELTABLES && Valid() && Extends(old(Now()), Now()) && Serves(old(owner), owner, d, 0, 0)
        invariant dirs.Keys == old(dirs).Keys + {d} && NoUserTables(dirs[d]) && |dirs[d]| == NENTRIES
        invariant KernelTo(dirs[d], k)
        invariant |free| == |old(free)| - 1 - k
      {
        ghost var before, uses := Now(), owner;
        KernelTables(k);
        KernelNext(dirs[d], k, Entry(0, 0));
        var t;
        t, ok := WalkPgdir(d, KernelTable(k) * NENTRIES, true);
        ExtendsSame(old(Now()), before, Now());
        if !ok {
          return;
        }
        ServesTable(old(owner), uses, owner, d, KernelTable(k), t);
        NoUserTablesKept(before.dirs[d], KernelTable(k), Entry(t, UWRITE));
        KernelNext(before.dirs[d], k, Entry(t, UWRITE));
        k := k + 1;
      }
      KernelEnd(dirs[d]);
    }

    /**
     copyuvm: a new address space that shows what p shows, if the free pages suffice.  If not, either all of
     them were lost in setupkvm, or every frame is back in the use it had, but perhaps for one.
     */
    method CopyUvm(p: nat, sz: nat) returns (d: nat, ok: bool, ghost lost: nat)
      requires Valid() && p in dirs && sz <= KERNBASE && Shape(dirs, tabs)
      requires forall w: nat | w < PgUp(sz) && w < USERPAGES :: Sees(Now(), p, w) != Nothing
      modifies this
      ensures Valid() && Shape(dirs, tabs)
      ensures ok <==> KERNELTABLES + 1 + PgUp(sz) + TablesFor(PgUp(sz)) <= |old(free)|
      ensures forall q: nat, w: nat | IsSlot(old(dirs), InTable(q, w)) ::
                q in dirs && Sees(Now(), q, w) == Sees(old(Now()), q, w)
      ensures ok ==> d !in old(dirs) && dirs.Keys == old(dirs).Keys + {d} && Serves(old(owner), owner, d, 0, PgUp(sz))
      ensures ok ==> forall w: nat | w < USERPAGES ::
                Sees(Now(), d, w) == if w < PgUp(sz) then Sees(old(Now()), p, w) else Nothing
      ensures ok ==> CopiedTo(old(Now()), Now(), p, d, sz)
      ensures |old(free)| <= KERNELTABLES ==> free == []
      ensures KERNELTABLES < |old(free)| && !ok ==>
                && dirs.Keys == old(dirs).Keys
                && (!Leaks(PgUp(sz), |old(free)| - KERNELTABLES - 1) ==> owner == old(owner))
                && (Leaks(PgUp(sz), |old(free)| - KERNELTABLES - 1) ==>
                      lost in old(owner) && old(owner)[lost].Free? && owner == old(owner)[lost := Held])
    {
      hide FreeRight, TypesRight, LinksRight, SameView, Named, Sees, Shape, Serves, NoUserTables, Leaks, PgUp,
           TablesFor,
        OwnerFreed, Copied;
      lost := 0;
      PgUpFacts(0, sz);
      d, ok := SetupKvm();
      LinksShape(Now(), owner);
      if !ok {
        ExtendsAll(old(Now()), Now());
        return;
      }
      ghost var m1, o1 := Now(), owner;
      NotTheirs(old(Now()), old(owner), d);
      ok, lost := CopyPages(p, d, sz);
      if ok {
        ServesWider(old(owner), o1, owner, d, 0, 0, PgUp(sz));
        CopyShows(m1, o1, Now(), p, d, PgUp(sz));
        ExtendsAll(old(Now()), m1);
      } else if Leaks(PgUp(sz), |m1.free|) {
        LostFromStart(old(owner), o1, owner, d, lost);
      } else {
        TakenThenFreed(old(owner), o1, owner, d, 0, 0);
      }
      ViewChain(old(Now()), m1, Now(), d);
    }
  }
}
