/**
 Physical pages and page tables (vm.c, kalloc.c, mmu.h) as values.  A page of physical memory
 is named by its frame number.  Frames are typed by what they are used for: a page directory
 and a page table hold 1024 entries, any other frame holds bytes.
 */
module VmState {

  const NENTRIES: nat := 1024
  const PGSIZE: nat := 4096
  const USERPAGES: nat := 0x8_0000        // KERNBASE / PGSIZE
  const ALLPAGES: nat := 0x10_0000

  type Page = seq<int>

  function Fill(n: nat, x: int): (p: Page)
    ensures |p| == n && forall i | 0 <= i < n :: p[i] == x
  {
    if n == 0 then [] else Fill(n - 1, x) + [x]
  }

  /** A directory or table entry; an entry with PTE_P set names a frame. */
  datatype Pte = Absent | Entry(frame: nat, flags: nat)

  function NoEntries(n: nat): (s: seq<Pte>)
    ensures |s| == n && forall i | 0 <= i < n :: s[i] == Absent
  {
    if n == 0 then [] else NoEntries(n - 1) + [Absent]
  }

  type Tables = map<nat, seq<Pte>>

  /** A place that can name a frame: entry i of directory p, or the entry for its virtual page v. */
  datatype Slot = InDir(p: nat, i: nat) | InTable(p: nat, v: nat)

  /** What a frame is used for.  A held frame was handed out by kalloc and is in nobody's table. */
  datatype Use = Free | Held | Dir | At(slot: Slot)

  ghost predicate Shape(dirs: Tables, tabs: Tables) {
    && (forall p | p in dirs :: |dirs[p]| == NENTRIES)
    && (forall t | t in tabs :: |tabs[t]| == NENTRIES)
    && (forall p, i | p in dirs && 0 <= i < NENTRIES :: dirs[p][i].Entry? ==> dirs[p][i].frame in tabs)
  }

  ghost predicate IsSlot(dirs: Tables, s: Slot) {
    s.p in dirs && if s.InDir? then s.i < NENTRIES else s.v < USERPAGES
  }

  /** The entry in a slot; the user half of the address space only. */
  ghost function Named(dirs: Tables, tabs: Tables, s: Slot): (e: Pte)
    requires Shape(dirs, tabs) && IsSlot(dirs, s)
  {
    if s.InDir? then dirs[s.p][s.i]
    else if dirs[s.p][s.v / NENTRIES].Absent? then Absent
    else tabs[dirs[s.p][s.v / NENTRIES].frame][s.v % NENTRIES]
  }

  // Every frame has exactly one use, and everything that names a frame agrees with it.

  ghost predicate FreeRight(free: seq<nat>, owner: map<nat, Use>) {
    && (forall i, j | 0 <= i < j < |free| :: free[i] != free[j])
    && (forall f | f in free :: f in owner && owner[f].Free?)
    && (forall f | f in owner && owner[f].Free? :: f in free)
  }

  ghost predicate TypesRight(dirs: Tables, tabs: Tables, owner: map<nat, Use>) {
    && (forall p :: p in dirs <==> p in owner && owner[p].Dir?)
    && (forall t :: t in tabs <==> t in owner && owner[t].At? && owner[t].slot.InDir?)
  }

  ghost predicate LinksRight(dirs: Tables, tabs: Tables, owner: map<nat, Use>) {
    && Shape(dirs, tabs)
    && (forall s | IsSlot(dirs, s) && Named(dirs, tabs, s).Entry? ::
          Named(dirs, tabs, s).frame in owner && owner[Named(dirs, tabs, s).frame] == At(s))
    && (forall f | f in owner && owner[f].At? ::
          IsSlot(dirs, owner[f].slot) && Named(dirs, tabs, owner[f].slot).Entry? &&
          Named(dirs, tabs, owner[f].slot).frame == f)
  }

  datatype Mem = Mem(free: seq<nat>, dirs: Tables, tabs: Tables, content: map<nat, Page>)

  ghost predicate Owned(m: Mem, owner: map<nat, Use>) {
    && FreeRight(m.free, owner) && TypesRight(m.dirs, m.tabs, owner) && LinksRight(m.dirs, m.tabs, owner)
    && m.content.Keys == owner.Keys
  }

  /** What a process finds at a virtual page: nothing, or bytes under some permissions. */
  datatype Seen = Nothing | Seen(flags: nat, bytes: Page)

  ghost function Sees(m: Mem, p: nat, v: nat): (s: Seen)
    requires Shape(m.dirs, m.tabs) && IsSlot(m.dirs, InTable(p, v))
  {
    SeenAt(Named(m.dirs, m.tabs, InTable(p, v)), m.content)
  }

  ghost function SeenAt(e: Pte, content: map<nat, Page>): (s: Seen) {
    if e.Entry? && e.frame in content then Seen(e.flags, content[e.frame]) else Nothing
  }

  /** Apart from page v of p, the two states show every process the same memory. */
  ghost predicate SameElse(m: Mem, m': Mem, p: nat, v: nat) {
    && Shape(m.dirs, m.tabs) && Shape(m'.dirs, m'.tabs) && m'.dirs.Keys == m.dirs.Keys
    && forall q: nat, w: nat | IsSlot(m.dirs, InTable(q, w)) && !(q == p && w == v) :: Sees(m', q, w) == Sees(m, q, w)
  }

  ghost predicate SameView(m: Mem, m': Mem) {
    && Shape(m.dirs, m.tabs) && Shape(m'.dirs, m'.tabs) && m'.dirs.Keys == m.dirs.Keys
    && forall q: nat, w: nat | IsSlot(m.dirs, InTable(q, w)) :: Sees(m', q, w) == Sees(m, q, w)
  }

  // kalloc and kfree.

  ghost function Taken(m: Mem): (r: Mem)
    requires m.free != []
  {
    Mem(m.free[1..], m.dirs, m.tabs, m.content)
  }

  lemma TakenFree(free: seq<nat>, owner: map<nat, Use>)
    requires FreeRight(free, owner) && free != []
    ensures free[0] in owner && owner[free[0]].Free? && FreeRight(free[1..], owner[free[0] := Held])
  {
    var f, rest := free[0], free[1..];
    assert f in free;
    forall x | x in owner[f := Held] && owner[f := Held][x].Free? ensures x in rest {
      var i :| 0 <= i < |free| && free[i] == x;
      assert rest[i - 1] == x;
    }
    forall x | x in rest ensures x != f {
      var i :| 0 <= i < |rest| && rest[i] == x;
      assert free[i + 1] == x;
    }
  }

  lemma GivenFree(free: seq<nat>, owner: map<nat, Use>, f: nat)
    requires FreeRight(free, owner) && f in owner && owner[f].Held?
    ensures FreeRight([f] + free, owner[f := Free])
  {
    assert f !in free;
  }

  /** A frame that no table names may change hands between the free list and the kernel. */
  lemma Retagged(m: Mem, m': Mem, owner: map<nat, Use>, f: nat, u: Use)
    requires Owned(m, owner) && f in owner && (owner[f].Free? || owner[f].Held?) && (u.Free? || u.Held?)
    requires m'.dirs == m.dirs && m'.tabs == m.tabs && m'.content.Keys == m.content.Keys
    requires forall x | x in m.content && x != f :: m'.content[x] == m.content[x]
    requires FreeRight(m'.free, owner[f := u])
    ensures Owned(m', owner[f := u]) && SameView(m, m')
  {
    hide Shape, Named, FreeRight, TypesRight;
    SameTypes(m.dirs, m.tabs, m.tabs, owner, f, u);
    assert LinksRight(m.dirs, m.tabs, owner[f := u]);
    assert SameView(m, m');
  }

  lemma TakenOwned(m: Mem, owner: map<nat, Use>)
    requires Owned(m, owner) && m.free != []
    ensures m.free[0] in owner && owner[m.free[0]].Free?
    ensures Owned(Taken(m), owner[m.free[0] := Held]) && SameView(m, Taken(m))
  {
    hide Shape, Named, FreeRight, TypesRight, LinksRight, SameView;
    TakenFree(m.free, owner);
    Retagged(m, Taken(m), owner, m.free[0], Held);
  }

  ghost function Given(m: Mem, f: nat): (r: Mem) {
    Mem([f] + m.free, m.dirs, m.tabs, m.content[f := Fill(PGSIZE, 1)])
  }

  lemma GivenOwned(m: Mem, owner: map<nat, Use>, f: nat)
    requires Owned(m, owner) && f in owner && owner[f].Held?
    ensures Owned(Given(m, f), owner[f := Free]) && SameView(m, Given(m, f))
  {
    hide Shape, Named, FreeRight, Fill, TypesRight, LinksRight, SameView;
    GivenFree(m.free, owner, f);
    Retagged(m, Given(m, f), owner, f, Free);
  }

  lemma NoFrames()
    ensures Owned(Mem([], map[], map[], map[]), map[])
  {
  }

  /** A page of memory nobody knew of, handed to the kernel. */
  lemma NewFrame(m: Mem, owner: map<nat, Use>, f: nat, bytes: Page)
    requires Owned(m, owner) && f !in owner
    ensures Owned(Mem(m.free, m.dirs, m.tabs, m.content[f := bytes]), owner[f := Held])
  {
    hide Shape, Named;
    assert LinksRight(m.dirs, m.tabs, owner[f := Held]);
    assert TypesRight(m.dirs, m.tabs, owner[f := Held]);
  }

  /** Bytes put into a held frame. */
  ghost function Loaded(m: Mem, f: nat, bytes: Page): (r: Mem) {
    Mem(m.free, m.dirs, m.tabs, m.content[f := bytes])
  }

  lemma LoadedOwned(m: Mem, owner: map<nat, Use>, f: nat, bytes: Page)
    requires Owned(m, owner) && f in owner && owner[f].Held?
    ensures Owned(Loaded(m, f, bytes), owner) && SameView(m, Loaded(m, f, bytes))
  {
    hide Shape, Named, FreeRight, TypesRight, LinksRight, SameView;
    assert owner[f := Held] == owner;
    Retagged(m, Loaded(m, f, bytes), owner, f, Held);
  }

  // Changing entries.

  /** Between the two states one slot changed its entry. */
  ghost predicate OneSlot(dirs: Tables, tabs: Tables, dirs': Tables, tabs': Tables, s: Slot, e: Pte) {
    && Shape(dirs, tabs) && Shape(dirs', tabs') && dirs'.Keys == dirs.Keys
    && IsSlot(dirs, s) && Named(dirs', tabs', s) == e
    && forall t | IsSlot(dirs, t) && t != s :: Named(dirs', tabs', t) == Named(dirs, tabs, t)
  }

  lemma SlotFilled(dirs: Tables, tabs: Tables, dirs': Tables, tabs': Tables, owner: map<nat, Use>, s: Slot, e: Pte)
    requires LinksRight(dirs, tabs, owner) && OneSlot(dirs, tabs, dirs', tabs', s, e)
    requires Named(dirs, tabs, s).Absent? && e.Entry? && e.frame in owner && owner[e.frame].Held?
    ensures LinksRight(dirs', tabs', owner[e.frame := At(s)])
  {
    hide Shape, Named;
    var owner' := owner[e.frame := At(s)];
    forall t | IsSlot(dirs', t) && Named(dirs', tabs', t).Entry?
      ensures Named(dirs', tabs', t).frame in owner' && owner'[Named(dirs', tabs', t).frame] == At(t)
    {
      assert t != s ==> Named(dirs, tabs, t).Entry?;
    }
  }

  lemma SlotEmptied(dirs: Tables, tabs: Tables, dirs': Tables, tabs': Tables, owner: map<nat, Use>, s: Slot, f: nat)
    requires LinksRight(dirs, tabs, owner) && OneSlot(dirs, tabs, dirs', tabs', s, Absent)
    requires f in owner && owner[f] == At(s)
    ensures LinksRight(dirs', tabs', owner[f := Held])
  {
    hide Shape, Named;
    var owner' := owner[f := Held];
    assert Named(dirs, tabs, s).Entry? && Named(dirs, tabs, s).frame == f;
    forall t | IsSlot(dirs', t) && Named(dirs', tabs', t).Entry?
      ensures Named(dirs', tabs', t).frame in owner' && owner'[Named(dirs', tabs', t).frame] == At(t)
    {
      assert Named(dirs, tabs, t).Entry?;
    }
  }

  lemma OneSlotView(m: Mem, m': Mem, s: Slot, e: Pte)
    requires OneSlot(m.dirs, m.tabs, m'.dirs, m'.tabs, s, e) && m'.content == m.content
    ensures s.InDir? ==> SameView(m, m')
    ensures s.InTable? ==> SameElse(m, m', s.p, s.v) && Sees(m', s.p, s.v) == SeenAt(e, m.content)
  {
    hide Shape, Named, SeenAt;
  }

  /** A frame that is no directory and no table changes its use to another such use. */
  lemma SameTypes(dirs: Tables, tabs: Tables, tabs': Tables, owner: map<nat, Use>, f: nat, u: Use)
    requires TypesRight(dirs, tabs, owner) && tabs'.Keys == tabs.Keys && f in owner
    requires !owner[f].Dir? && !(owner[f].At? && owner[f].slot.InDir?) && !u.Dir? && !(u.At? && u.slot.InDir?)
    ensures TypesRight(dirs, tabs', owner[f := u])
  {
    assert forall t :: t in tabs' <==> t in tabs.Keys;
  }

  // walkpgdir: a new page table.

  ghost function Tabled(m: Mem, p: nat, i: nat, t: nat): (r: Mem)
    requires p in m.dirs && i < |m.dirs[p]|
  {
    Mem(m.free, m.dirs[p := m.dirs[p][i := Entry(t, 6)]], m.tabs[t := NoEntries(NENTRIES)], m.content)
  }

  lemma TabledSlot(m: Mem, owner: map<nat, Use>, p: nat, i: nat, t: nat)
    requires Owned(m, owner) && p in m.dirs && i < NENTRIES && m.dirs[p][i].Absent? && t in owner && owner[t].Held?
    ensures var r := Tabled(m, p, i, t); OneSlot(m.dirs, m.tabs, r.dirs, r.tabs, InDir(p, i), Entry(t, 6))
  {
    var r := Tabled(m, p, i, t);
    assert t !in m.tabs;
    assert Shape(r.dirs, r.tabs);
    forall u | IsSlot(m.dirs, u) && u != InDir(p, i) ensures Named(r.dirs, r.tabs, u) == Named(m.dirs, m.tabs, u) {
      if u.InTable? {
        var j := u.v / NENTRIES;
        assert u.p != p || j != i ==> r.dirs[u.p][j] == m.dirs[u.p][j];
      }
    }
  }

  /** A new table belongs to its directory entry and shows nobody anything new. */
  lemma TabledOwned(m: Mem, owner: map<nat, Use>, p: nat, i: nat, t: nat)
    requires Owned(m, owner) && p in m.dirs && i < NENTRIES && m.dirs[p][i].Absent? && t in owner && owner[t].Held?
    ensures Owned(Tabled(m, p, i, t), owner[t := At(InDir(p, i))]) && SameView(m, Tabled(m, p, i, t))
  {
    TabledSlot(m, owner, p, i, t);
    hide Shape, Named, FreeRight, LinksRight, OneSlot, SameView;
    var r := Tabled(m, p, i, t);
    OneSlotView(m, r, InDir(p, i), Entry(t, 6));
    SlotFilled(m.dirs, m.tabs, r.dirs, r.tabs, owner, InDir(p, i), Entry(t, 6));
    assert FreeRight(r.free, owner[t := At(InDir(p, i))]) by {
      StillFree(m.free, owner, t, At(InDir(p, i)));
    }
  }

  lemma StillFree(free: seq<nat>, owner: map<nat, Use>, f: nat, u: Use)
    requires FreeRight(free, owner) && f in owner && !owner[f].Free? && !u.Free?
    ensures FreeRight(free, owner[f := u])
  {
  }

  // mappages and deallocuvm: the entry of a page.

  ghost function WithEntry(m: Mem, p: nat, v: nat, e: Pte): (r: Mem)
    requires Shape(m.dirs, m.tabs) && IsSlot(m.dirs, InTable(p, v)) && m.dirs[p][v / NENTRIES].Entry?
  {
    var t := m.dirs[p][v / NENTRIES].frame;
    Mem(m.free, m.dirs, m.tabs[t := m.tabs[t][v % NENTRIES := e]], m.content)
  }

  lemma WithEntrySlot(m: Mem, owner: map<nat, Use>, p: nat, v: nat, e: Pte)
    requires Owned(m, owner) && IsSlot(m.dirs, InTable(p, v)) && m.dirs[p][v / NENTRIES].Entry?
    ensures var r := WithEntry(m, p, v, e); OneSlot(m.dirs, m.tabs, r.dirs, r.tabs, InTable(p, v), e)
  {
    var r := WithEntry(m, p, v, e);
    var d := v / NENTRIES;
    var t := m.dirs[p][d].frame;
    assert Named(m.dirs, m.tabs, InDir(p, d)) == m.dirs[p][d];
    forall u | IsSlot(m.dirs, u) && u != InTable(p, v) ensures Named(r.dirs, r.tabs, u) == Named(m.dirs, m.tabs, u) {
      if u.InTable? && m.dirs[u.p][u.v / NENTRIES].Entry? && m.dirs[u.p][u.v / NENTRIES].frame == t {
        assert Named(m.dirs, m.tabs, InDir(u.p, u.v / NENTRIES)) == m.dirs[u.p][u.v / NENTRIES];
        assert u.p == p && u.v / NENTRIES == d;
        assert u.v % NENTRIES != v % NENTRIES;
      }
    }
  }

  /** Mapping a held frame: the page shows its bytes, all else is as before. */
  lemma MappedOwned(m: Mem, owner: map<nat, Use>, p: nat, v: nat, f: nat, flags: nat)
    requires Owned(m, owner) && IsSlot(m.dirs, InTable(p, v)) && m.dirs[p][v / NENTRIES].Entry?
    requires Named(m.dirs, m.tabs, InTable(p, v)).Absent? && f in owner && owner[f].Held?
    ensures var r := WithEntry(m, p, v, Entry(f, flags));
            && Owned(r, owner[f := At(InTable(p, v))]) && SameElse(m, r, p, v)
            && Sees(r, p, v) == Seen(flags, m.content[f])
  {
    WithEntrySlot(m, owner, p, v, Entry(f, flags));
    var r := WithEntry(m, p, v, Entry(f, flags));
    assert r.tabs.Keys == m.tabs.Keys;
    hide Shape, Named, FreeRight, WithEntry, LinksRight, OneSlot, SameElse, TypesRight;
    OneSlotView(m, r, InTable(p, v), Entry(f, flags));
    SameTypes(m.dirs, m.tabs, r.tabs, owner, f, At(InTable(p, v)));
    SlotFilled(m.dirs, m.tabs, r.dirs, r.tabs, owner, InTable(p, v), Entry(f, flags));
    StillFree(m.free, owner, f, At(InTable(p, v)));
  }

  /** Clearing the entry of a page hands its frame to the kernel. */
  lemma UnmappedOwned(m: Mem, owner: map<nat, Use>, p: nat, v: nat)
    requires Owned(m, owner) && IsSlot(m.dirs, InTable(p, v)) && Named(m.dirs, m.tabs, InTable(p, v)).Entry?
    ensures m.dirs[p][v / NENTRIES].Entry?
    ensures var f := Named(m.dirs, m.tabs, InTable(p, v)).frame;
            var r := WithEntry(m, p, v, Absent);
            && f in owner && owner[f] == At(InTable(p, v))
            && Owned(r, owner[f := Held]) && SameElse(m, r, p, v) && Sees(r, p, v) == Nothing
  {
    WithEntrySlot(m, owner, p, v, Absent);
    var f := Named(m.dirs, m.tabs, InTable(p, v)).frame;
    var r := WithEntry(m, p, v, Absent);
    assert r.tabs.Keys == m.tabs.Keys;
    assert f in owner && owner[f] == At(InTable(p, v));
    hide Shape, Named, FreeRight, WithEntry, LinksRight, OneSlot, SameElse, TypesRight;
    OneSlotView(m, r, InTable(p, v), Absent);
    SameTypes(m.dirs, m.tabs, r.tabs, owner, f, Held);
    SlotEmptied(m.dirs, m.tabs, r.dirs, r.tabs, owner, InTable(p, v), f);
    StillFree(m.free, owner, f, Held);
  }

  // Chaining.

  lemma SameSelf(m: Mem, owner: map<nat, Use>)
    requires Owned(m, owner)
    ensures SameView(m, m)
  {
  }

  lemma SameTwice(m: Mem, m': Mem, m'': Mem)
    requires SameView(m, m') && SameView(m', m'')
    ensures SameView(m, m'')
  {
    hide Shape, Sees;
  }

  lemma SameAt(m: Mem, m': Mem, p: nat, v: nat)
    requires SameView(m, m') && IsSlot(m.dirs, InTable(p, v))
    ensures Sees(m', p, v) == Sees(m, p, v)
  {
  }

  lemma SameThenElse(m: Mem, m': Mem, m'': Mem, p: nat, v: nat)
    requires SameView(m, m') && SameElse(m', m'', p, v)
    ensures SameElse(m, m'', p, v)
  {
    hide Shape, Sees;
  }

  lemma ElseThenSame(m: Mem, m': Mem, m'': Mem, p: nat, v: nat)
    requires SameElse(m, m', p, v) && SameView(m', m'') && IsSlot(m.dirs, InTable(p, v))
    ensures SameElse(m, m'', p, v) && Sees(m'', p, v) == Sees(m', p, v)
  {
    hide Shape, Sees;
  }

  lemma TableOf(m: Mem, owner: map<nat, Use>, p: nat, v: nat)
    requires Owned(m, owner) && p in m.dirs && v < ALLPAGES
    ensures Shape(m.dirs, m.tabs) && |m.dirs[p]| == NENTRIES
    ensures m.dirs[p][v / NENTRIES].Entry? ==>
              m.dirs[p][v / NENTRIES].frame in m.tabs && |m.tabs[m.dirs[p][v / NENTRIES].frame]| == NENTRIES
  {
  }

  /** A process sees nothing at a page exactly when the page has no entry. */
  lemma NothingThere(m: Mem, owner: map<nat, Use>, p: nat, v: nat)
    requires Owned(m, owner) && IsSlot(m.dirs, InTable(p, v))
    ensures Sees(m, p, v) == Nothing <==> Named(m.dirs, m.tabs, InTable(p, v)).Absent?
  {
    hide Named;
  }

  lemma ElseSelf(m: Mem, owner: map<nat, Use>, p: nat, v: nat)
    requires Owned(m, owner)
    ensures SameElse(m, m, p, v)
  {
  }

  /** A page is the use of at most the frame its entry names. */
  lemma OnePage(m: Mem, owner: map<nat, Use>, s: Slot)
    requires Owned(m, owner) && IsSlot(m.dirs, s)
    ensures forall f | f in owner ::
              owner[f] == At(s) <==> Named(m.dirs, m.tabs, s).Entry? && Named(m.dirs, m.tabs, s).frame == f
  {
    hide Shape, Named;
  }

  // freevm: a directory without user pages given up, and its tables with it.

  ghost function TablesOf(dir: seq<Pte>): (r: set<nat>) {
    set i | 0 <= i < |dir| && dir[i].Entry? :: dir[i].frame
  }

  ghost predicate OfDir(f: nat, u: Use, p: nat) {
    (u.Dir? && f == p) || (u.At? && u.slot.p == p)
  }

  ghost function Released(owner: map<nat, Use>, p: nat): (r: map<nat, Use>) {
    map f | f in owner :: if OfDir(f, owner[f], p) then Held else owner[f]
  }

  ghost function Detached(m: Mem, p: nat): (r: Mem)
    requires p in m.dirs
  {
    Mem(m.free, m.dirs - {p}, m.tabs - TablesOf(m.dirs[p]), m.content)
  }

  lemma TablesOfDir(m: Mem, owner: map<nat, Use>, p: nat, t: nat)
    requires Owned(m, owner) && p in m.dirs
    ensures t in TablesOf(m.dirs[p]) <==> t in owner && owner[t].At? && owner[t].slot.InDir? && owner[t].slot.p == p
  {
    if t in TablesOf(m.dirs[p]) {
      var i :| 0 <= i < |m.dirs[p]| && m.dirs[p][i].Entry? && m.dirs[p][i].frame == t;
      assert Named(m.dirs, m.tabs, InDir(p, i)) == m.dirs[p][i];
    }
  }

  /** Without p, every other slot is there and names what it named. */
  lemma DetachedSlots(m: Mem, owner: map<nat, Use>, p: nat)
    requires Owned(m, owner) && p in m.dirs
    ensures var r := Detached(m, p);
            && Shape(r.dirs, r.tabs)
            && forall s | IsSlot(r.dirs, s) ::
                 IsSlot(m.dirs, s) && s.p != p && Named(r.dirs, r.tabs, s) == Named(m.dirs, m.tabs, s)
  {
    var r := Detached(m, p);
    forall q, i | q in r.dirs && 0 <= i < NENTRIES && r.dirs[q][i].Entry? ensures r.dirs[q][i].frame in r.tabs {
      var t := r.dirs[q][i].frame;
      assert Named(m.dirs, m.tabs, InDir(q, i)) == m.dirs[q][i];
      TablesOfDir(m, owner, p, t);
    }
  }

  lemma DetachedOwned(m: Mem, owner: map<nat, Use>, p: nat)
    requires Owned(m, owner) && p in m.dirs
    requires forall f | f in owner && owner[f].At? && owner[f].slot.InTable? :: owner[f].slot.p != p
    ensures Owned(Detached(m, p), Released(owner, p))
    ensures Shape(m.dirs, m.tabs)
    ensures forall q: nat, w: nat | IsSlot(m.dirs - {p}, InTable(q, w)) :: Sees(Detached(m, p), q, w) == Sees(m, q, w)
  {
    hide Shape, Named, FreeRight, TypesRight, LinksRight, Sees, Released;
    DetachedLinks(m, owner, p);
    DetachedTypes(m, owner, p);
    DetachedView(m, owner, p);
    StillFreeAll(m.free, owner, p);
    assert Released(owner, p).Keys == owner.Keys by {
      ReleasedKeys(owner, p);
    }
  }

  lemma ReleasedKeys(owner: map<nat, Use>, p: nat)
    ensures Released(owner, p).Keys == owner.Keys
  {
  }

  lemma StillFreeAll(free: seq<nat>, owner: map<nat, Use>, p: nat)
    requires FreeRight(free, owner)
    ensures FreeRight(free, Released(owner, p))
  {
  }

  lemma DetachedView(m: Mem, owner: map<nat, Use>, p: nat)
    requires Owned(m, owner) && p in m.dirs
    ensures Shape(m.dirs, m.tabs) && Shape(Detached(m, p).dirs, Detached(m, p).tabs)
    ensures forall q: nat, w: nat | IsSlot(m.dirs - {p}, InTable(q, w)) :: Sees(Detached(m, p), q, w) == Sees(m, q, w)
  {
    DetachedSlots(m, owner, p);
    hide Shape, Named, TablesOf;
  }

  lemma DetachedTypes(m: Mem, owner: map<nat, Use>, p: nat)
    requires Owned(m, owner) && p in m.dirs
    ensures TypesRight(Detached(m, p).dirs, Detached(m, p).tabs, Released(owner, p))
  {
    hide FreeRight;
    forall t
      ensures t in TablesOf(m.dirs[p]) <==>
              t in owner && owner[t].At? && owner[t].slot.InDir? && owner[t].slot.p == p
    {
      TablesOfDir(m, owner, p, t);
    }
    hide LinksRight, Shape, Named, TablesOf;
  }

  lemma DetachedLinks(m: Mem, owner: map<nat, Use>, p: nat)
    requires Owned(m, owner) && p in m.dirs
    requires forall f | f in owner && owner[f].At? && owner[f].slot.InTable? :: owner[f].slot.p != p
    ensures LinksRight(Detached(m, p).dirs, Detached(m, p).tabs, Released(owner, p))
  {
    DetachedSlots(m, owner, p);
    hide Shape, Named, TablesOf, FreeRight, TypesRight;
    var r, o := Detached(m, p), Released(owner, p);
    forall s | IsSlot(r.dirs, s) && Named(r.dirs, r.tabs, s).Entry?
      ensures Named(r.dirs, r.tabs, s).frame in o && o[Named(r.dirs, r.tabs, s).frame] == At(s)
    {
      assert IsSlot(m.dirs, s);
    }
    forall f | f in o && o[f].At?
      ensures IsSlot(r.dirs, o[f].slot) && Named(r.dirs, r.tabs, o[f].slot).Entry?
      ensures Named(r.dirs, r.tabs, o[f].slot).frame == f
    {
      assert IsSlot(m.dirs, owner[f].slot) && owner[f].slot.p != p;
    }
  }

  // setupkvm: a new directory.

  ghost function WithDir(m: Mem, d: nat): (r: Mem) {
    Mem(m.free, m.dirs[d := NoEntries(NENTRIES)], m.tabs, m.content)
  }

  /** m' has the address spaces of m, each showing what it showed, and perhaps more. */
  ghost predicate Extends(m: Mem, m': Mem) {
    && Shape(m.dirs, m.tabs) && Shape(m'.dirs, m'.tabs) && m.dirs.Keys <= m'.dirs.Keys
    && forall q: nat, w: nat | IsSlot(m.dirs, InTable(q, w)) :: Sees(m', q, w) == Sees(m, q, w)
  }

  lemma WithDirSlots(m: Mem, owner: map<nat, Use>, d: nat)
    requires Owned(m, owner) && d in owner && owner[d].Held?
    ensures var r := WithDir(m, d);
            && d !in m.dirs && Shape(r.dirs, r.tabs)
            && forall s | IsSlot(r.dirs, s) ::
                 Named(r.dirs, r.tabs, s) == if s.p == d then Absent else Named(m.dirs, m.tabs, s)
  {
    hide FreeRight, LinksRight;
    LinksShape(m, owner);
  }

  lemma LinksShape(m: Mem, owner: map<nat, Use>)
    requires Owned(m, owner)
    ensures Shape(m.dirs, m.tabs)
  {
  }

  /** An empty directory is a new address space that shows nothing and disturbs none. */
  lemma WithDirOwned(m: Mem, owner: map<nat, Use>, d: nat)
    requires Owned(m, owner) && d in owner && owner[d].Held?
    ensures Owned(WithDir(m, d), owner[d := Dir]) && Extends(m, WithDir(m, d))
  {
    WithDirSlots(m, owner, d);
    var r, o := WithDir(m, d), owner[d := Dir];
    StillFree(m.free, owner, d, Dir);
    hide Shape, Named, FreeRight, NoEntries;
    assert TypesRight(r.dirs, r.tabs, o);
    forall s | IsSlot(r.dirs, s) && Named(r.dirs, r.tabs, s).Entry?
      ensures Named(r.dirs, r.tabs, s).frame in o && o[Named(r.dirs, r.tabs, s).frame] == At(s)
    {
      assert IsSlot(m.dirs, s);
    }
    assert LinksRight(r.dirs, r.tabs, o);
  }

  lemma ExtendsSame(m: Mem, m': Mem, m'': Mem)
    requires Extends(m, m') && SameView(m', m'')
    ensures Extends(m, m'')
  {
    hide Shape, Sees;
  }

  lemma SameExtends(m: Mem, m': Mem, m'': Mem)
    requires SameView(m, m') && Extends(m', m'')
    ensures Extends(m, m'')
  {
    hide Shape, Sees;
  }
}
