/** Runs of the operations that show what can go wrong: a new page that does not start as zero fill, a page
    that cannot be used, and processes that keep each other from ever storing. */
module PagerWitness {
  import opened Common
  import opened Mmu
  import opened PageTables
  import opened PagerHistory
  import opened PagerState
  import opened PagerReach
  import opened Paging
  import opened PagerRuns

  const MARK: byte := 65

  // ---------------------------------------------------------------------------------------------
  // A new page that does not start as zero fill
  // ---------------------------------------------------------------------------------------------

  /** Process 7 has two pages, in blocks 0 and 1, and nothing is in memory. */
  ghost predicate Prepared(p: Pager, size: nat)
    reads p, p.frames, p.blocks, p.mmu, p.mmu.pmem, p.mmu.disk
  {
    && p.Valid() && !p.mmu.running && p.mmu.pageSize == size > 0
    && p.frames.Length == 1 && p.frames[0].pid == -1 && p.blocks.Length == 2
    && p.list == [TableRecord(7, true)] && 7 in p.tables && p.tables[7] == [Key(7, 0), Key(7, 1)]
    && Key(7, 0) in p.pages && !p.pages[Key(7, 0)].isvalid && p.pages[Key(7, 0)].block == 0
    && Key(7, 1) in p.pages && !p.pages[Key(7, 1)].isvalid && p.mmu.log == BothGrown(size)
  }

  ghost function BothGrown(size: nat): seq<Event> {
    [Grown(Key(7, 0), Filled(size)), Grown(Key(7, 1), Filled(size))]
  }

  /** A pager with one frame and two blocks, and process 7 without pages. */
  ghost predicate Begun(p: Pager, size: nat)
    reads p, p.frames, p.blocks, p.mmu, p.mmu.pmem, p.mmu.disk
  {
    && p.Valid() && !p.mmu.running && p.mmu.pageSize == size > 0
    && p.frames.Length == 1 && p.frames[0].pid == -1 && p.blocks.Length == 2
    && p.blocks[0] == p.blocks[1] == BlockNode(false, None) && p.mmu.mapping == map[]
    && p.list == [TableRecord(7, true)] && p.tables == map[7 := []] && p.mmu.log == []
  }

  method Begin(size: nat) returns (p: Pager)
    requires size > 0 && BASE % size == 0
    ensures Begun(p, size) && fresh(p) && fresh(p.frames) && fresh(p.blocks)
    ensures fresh(p.mmu) && fresh(p.mmu.pmem) && fresh(p.mmu.disk)
  {
    hide Inv, Unit.Coherent, ListOK, Explained;
    p := new Pager(1, 2, size, false);
    p.Create(7);
  }

  /** A new page in block b, the lowest that is unowned, and never used. */
  method NewPage(p: Pager, pid: int, b: nat)
    requires p.Valid() && pid in p.tables && b < p.blocks.Length && p.blocks[b] == BlockNode(false, None)
    requires forall c :: 0 <= c < b ==> p.blocks[c].page.Some?
    modifies p`tables, p`pages, p.blocks, p.mmu`log, p.mmu`flat
    ensures var k := Key(pid, |old(p.tables[pid])|);
            && p.Valid() && k in p.pages && !p.pages[k].isvalid && p.pages[k].block == b
            && p.pages == old(p.pages)[k := p.pages[k]] && p.tables == old(p.tables)[pid := old(p.tables[pid]) + [k]]
            && p.blocks[..] == old(p.blocks[..])[b := BlockNode(false, Some(k))]
            && p.mmu.log == old(p.mmu.log) + [Grown(k, Filled(p.mmu.pageSize))]
  {
    hide Inv, Unit.Coherent, ListOK, Explained, WholePageUsable, Filled;
    ghost var s := p.S();
    var r := p.Extend(pid);
    assert s.blocks[b].page == None && s.blocks[p.pages[Key(pid, |s.tables[pid]|)].block].page == None;
  }

  method Prepare(size: nat) returns (p: Pager)
    requires size > 0 && BASE % size == 0
    ensures Prepared(p, size) && fresh(p) && fresh(p.frames) && fresh(p.blocks)
    ensures fresh(p.mmu) && fresh(p.mmu.pmem) && fresh(p.mmu.disk)
  {
    hide Inv, Unit.Coherent, ListOK, Explained, Filled;
    p := Begin(size);
    NewPage(p, 7, 0);
    assert p.blocks[0].page.Some? && p.blocks[1] == BlockNode(false, None);
    NewPage(p, 7, 1);
  }

  /** The mark is in block 0, which belongs to process 7 and is marked used. */
  ghost predicate Marked(p: Pager, size: nat)
    reads p, p.frames, p.blocks, p.mmu, p.mmu.pmem, p.mmu.disk
  {
    && p.Valid() && !p.mmu.running && p.mmu.pageSize == size > 0
    && p.list == [TableRecord(7, true)] && 7 in p.tables && 8 !in p.tables && p.blocks.Length == p.mmu.disk.Length == 2
    && p.blocks[0] == BlockNode(true, Some(Key(7, 0)))
    && p.frames.Length == 1 && p.mmu.disk[0] == Filled(size)[0 := MARK]
    && p.mmu.log == BothGrown(size) + [Stored(Key(7, 0), 0, MARK)]
  }

  method DirtyAndEvict(p: Pager, size: nat)
    requires Prepared(p, size)
    modifies p, p.frames, p.blocks, p.mmu, p.mmu.pmem, p.mmu.disk
    ensures Marked(p, size)
  {
    hide Inv, Unit.Coherent, ListOK, Explained, WholePageUsable;
    Dirty(p, size);
    Evict(p, size);
  }

  /** Page 0 of process 7 is in the only frame, dirty and marked. */
  ghost predicate Dirtied(p: Pager, size: nat)
    reads p, p.frames, p.blocks, p.mmu, p.mmu.pmem, p.mmu.disk
  {
    && p.Valid() && !p.mmu.running && p.mmu.pageSize == size > 0
    && p.frames.Length == 1 && p.frames[0].pid == 7 && p.frames[0].page == Some(Key(7, 0)) && p.blocks.Length == 2
    && p.list == [TableRecord(7, true)] && 7 in p.tables && p.tables[7] == [Key(7, 0), Key(7, 1)]
    && Key(7, 0) in p.pages && p.pages[Key(7, 0)].dirty && p.pages[Key(7, 0)].block == 0
    && Key(7, 1) in p.pages && !p.pages[Key(7, 1)].isvalid
    && Key(7, 0) in p.mmu.flat && p.mmu.flat[Key(7, 0)] == Filled(size)[0 := MARK]
    && p.mmu.log == BothGrown(size) + [Stored(Key(7, 0), 0, MARK)]
  }

  lemma Addresses(size: nat)
    requires size > 0
    ensures KeyAt(7, BASE, size) == Key(7, 0) && KeyAt(7, BASE + size, size) == Key(7, 1)
    ensures OffsetInPage(BASE, size) == 0
    ensures BASE < VAddr(2, size) && BASE + size < VAddr(2, size)
  {
  }

  method Dirty(p: Pager, size: nat)
    requires Prepared(p, size)
    modifies p, p.frames, p.blocks, p.mmu, p.mmu.pmem, p.mmu.disk
    ensures Dirtied(p, size)
  {
    hide Inv, Unit.Coherent, ListOK, Explained, WholePageUsable, Flat, LastValue;
    Addresses(size);
    assert FirstFree(p.frames[..], 0) == 0;
    p.Fault(7, BASE);
    p.Fault(7, BASE);
    FlatIs(p, Key(7, 0));
    FlatOfGrown(size);
    p.StoreMapped(Key(7, 0), 0, MARK);
    FlatIs(p, Key(7, 0));
    FlatAfterStore(BothGrown(size), p.mmu.log, Key(7, 0), MARK);
  }

  lemma FlatOfGrown(size: nat)
    ensures Key(7, 0) in Flat(BothGrown(size)) && Flat(BothGrown(size))[Key(7, 0)] == Filled(size)
  {
    var log := BothGrown(size);
    assert log[..1] == [log[0]] && log[..1][..0] == [];
    assert Flat(log[..1]) == After(Flat(log[..1][..0]), log[0]);
  }

  lemma FlatIs(p: Pager, k: Key)
    requires p.Valid() && k in p.pages
    ensures p.mmu.flat == Flat(p.mmu.log) && k in p.mmu.flat && |p.mmu.flat[k]| == p.mmu.pageSize
  {
  }

  lemma FlatAfterStore(log: seq<Event>, log': seq<Event>, k: Key, v: byte)
    requires log' == log + [Stored(k, 0, v)] && k in Flat(log) && |Flat(log)[k]| > 0
    ensures k in Flat(log') && Flat(log')[k] == Flat(log)[k][0 := v]
  {
    assert log'[..|log'| - 1] == log;
  }

  method Evict(p: Pager, size: nat)
    requires Dirtied(p, size)
    modifies p, p.frames, p.blocks, p.mmu, p.mmu.pmem, p.mmu.disk
    ensures Marked(p, size)
  {
    hide Inv, Unit.Coherent, ListOK, Explained, WholePageUsable, Flat, LastValue, FaultedIn;
    Addresses(size);
    assert FirstFree(p.frames[..], 0) == -1;
    FlatIs(p, Key(7, 0));
    ghost var w := p.Now();
    p.Fault(7, BASE + size);
    OnlyFrame(w, p.Now(), Key(7, 1));
    VictimIsOut(w, p.Now(), Key(7, 1));
    FlatIs(p, Key(7, 0));
    LiveTables(p.list, p.tables, 8);
  }

  lemma OnlyFrame(w: Whole, w': Whole, k: Key)
    requires |w.s.frames| == 1 && FaultedIn(w, w', k) && FirstFree(w.s.frames, 0) == -1
    ensures w.hand == 0 && Clock.Victim(Bits(w.s.frames), w.hand) == 0
  {
  }

  lemma LiveTables(list: seq<TableRecord>, tables: map<int, seq<Key>>, pid: int)
    requires ListOK(list, tables) && forall i :: 0 <= i < |list| ==> list[i].pid != pid
    ensures pid !in tables && !UsedBefore(list, pid)
  {
  }

  /** With one frame and two blocks, and processes that only run between the operations: process 7 stores one
      byte to its first page, has the page evicted, and ends.  The first page of process 8 starts with it. */
  method ReusedBlockShowsThrough(size: nat) returns (p: Pager)
    requires size > 0 && BASE % size == 0
    ensures p.Valid() && p.mmu.pageSize == size && p.frames.Length == 1 && p.blocks.Length == 2
    ensures p.mmu.log == BothGrown(size) + [Stored(Key(7, 0), 0, MARK), Ended(7),
                                            Grown(Key(8, 0), Filled(size)[0 := MARK])]
    ensures Filled(size)[0 := MARK] != Filled(size)
  {
    hide Inv, Unit.Coherent, ListOK, Explained, WholePageUsable, Removed;
    p := Prepare(size);
    DirtyAndEvict(p, size);
    EndAndStart(p, size);
    assert Filled(size)[0] == FILL != MARK;
  }

  method EndAndStart(p: Pager, size: nat)
    requires Marked(p, size)
    modifies p, p.frames, p.blocks, p.mmu, p.mmu.pmem, p.mmu.disk
    ensures p.Valid() && p.mmu.pageSize == size
    ensures p.mmu.log == BothGrown(size) + [Stored(Key(7, 0), 0, MARK), Ended(7),
                                            Grown(Key(8, 0), Filled(size)[0 := MARK])]
  {
    hide Inv, Unit.Coherent, ListOK, Explained, WholePageUsable;
    ghost var s := p.S();
    p.Destroy(7);
    RemovedFrames(s, 7);
    LiveTables(p.list, p.tables, 8);
    p.Create(8);
    ghost var s1 := p.S();
    var r := p.Extend(8);
    assert r.Some? && p.pages[Key(8, 0)].block == 0;
    assert Backing(s1, p.pages[Key(8, 0)]) == s1.disk[0];
  }

  // ---------------------------------------------------------------------------------------------
  // A page that cannot be used
  // ---------------------------------------------------------------------------------------------

  /** Process 7 has the first n blocks, one for each of its pages, and nothing is mapped. */
  ghost predicate HasPages(p: Pager, n: nat)
    reads p, p.frames, p.blocks, p.mmu, p.mmu.pmem, p.mmu.disk
  {
    && p.Valid() && p.mmu.pageSize == 4096 && 7 in p.tables && |p.tables[7]| == n && p.mmu.mapping == map[]
    && forall b :: 0 <= b < p.blocks.Length ==> (p.blocks[b].page.Some? <==> b < n)
  }

  method OnePageMore(p: Pager, n: nat) returns (v: Option<int>)
    requires HasPages(p, n) && n < p.blocks.Length
    modifies p`tables, p`pages, p.blocks, p.mmu`log, p.mmu`flat
    ensures HasPages(p, n + 1) && v == Some(VAddr(n, 4096))
  {
    hide Inv, Unit.Coherent, ListOK, Explained, WholePageUsable;
    assert p.blocks[n].page == None;
    v := p.Extend(7);
  }

  /** With 4096-byte pages and more than 256 blocks, which the unit accepts, the 257th page of a process is at
      an address that its handler does not let through: the first access there ends the process. */
  method LastPageIsOutOfReach(nframes: nat, nblocks: nat, running: bool)
      returns (p: Pager, v: Option<int>, a: Answer, ghost before: Moment)
    requires nframes > 0 && nblocks >= 257
    ensures p.Valid() && p.frames.Length == nframes && p.blocks.Length == nblocks
    ensures before.s.size == 4096 && 7 in before.s.tables && |before.s.tables[7]| == 257
    ensures v == Some(0x6010_0000) && Answered(before, Read(7, 0x6010_0000), a, Here(p))
    ensures a == Killed && p.mmu.log == before.log + [Ended(7)]
  {
    hide Inv, Unit.Coherent, ListOK, Explained, InOrder, GainsInReach;
    p := new Pager(nframes, nblocks, 4096, running);
    p.Create(7);
    v := None;
    for n := 0 to 257
      invariant HasPages(p, n) && p.blocks.Length == nblocks && p.frames.Length == nframes
      invariant n > 0 ==> v == Some(VAddr(n - 1, 4096))
      invariant fresh(p) && fresh(p.frames) && fresh(p.blocks) && fresh(p.mmu) && fresh(p.mmu.pmem) && fresh(p.mmu.disk)
    {
      v := OnePageMore(p, n);
    }
    before := Here(p);
    assert !CanLoad(before.s, 7, 0x6010_0000);
    a := Serve(p, Read(7, 0x6010_0000));
  }

  // ---------------------------------------------------------------------------------------------
  // Processes that keep each other from storing
  // ---------------------------------------------------------------------------------------------

  /** Processes 7 and 8 have a page each, nobody can store, and the page of the one whose turn it is is out. */
  ghost predicate Contending(p: Pager, turn: int, size: nat)
    reads p, p.frames, p.blocks, p.mmu, p.mmu.pmem, p.mmu.disk
  {
    && p.Valid() && !p.mmu.running && p.mmu.pageSize == size > 0 && p.frames.Length == 1
    && 7 in p.tables && 8 in p.tables && |p.tables[7]| == |p.tables[8]| == 1
    && Key(turn, 0) in p.pages && !p.pages[Key(turn, 0)].isvalid
    && Key(15 - turn, 0) in p.pages && (forall q :: !Writable(p.mmu.mapping, q))
    && p.mmu.log == OneEach(size)
  }

  ghost function OneEach(size: nat): seq<Event> {
    [Grown(Key(7, 0), Filled(size)), Grown(Key(8, 0), Filled(size))]
  }

  /** A fault of one of them takes the page of the other out. */
  method FaultInTurn(p: Pager, turn: int, size: nat)
    requires Contending(p, turn, size) && (turn == 7 || turn == 8)
    modifies p, p.frames, p.blocks, p.mmu, p.mmu.pmem, p.mmu.disk
    ensures Contending(p, 15 - turn, size) && InTurn(old(p.Now()), p.Now(), Key(turn, 0))
  {
    hide Inv, Unit.Coherent, ListOK, Explained, WholePageUsable, FaultedIn;
    assert KeyAt(turn, BASE, size) == Key(turn, 0) && BASE < VAddr(1, size);
    ghost var w := p.Now();
    p.Fault(turn, BASE);
    FaultIsReadOnly(w, p.Now(), Key(turn, 0));
    StillPages(w, p.Now(), Key(turn, 0), Key(15 - turn, 0));
    OneResident(p.S(), Key(turn, 0), Key(15 - turn, 0));
  }

  /** A fault on a page, after which nobody can store. */
  ghost predicate InTurn(w: Whole, w': Whole, k: Key) {
    FaultedIn(w, w', k) && forall q :: !Writable(w'.s.mapping, q)
  }

  lemma FaultIsReadOnly(w: Whole, w': Whole, k: Key)
    requires FaultedIn(w, w', k) && forall q :: !Writable(w.s.mapping, q)
    ensures forall q :: !Writable(w'.s.mapping, q)
  {
    forall q ensures !Writable(w'.s.mapping, q) {
      assert !Writable(w.s.mapping, q);
    }
  }

  lemma StillPages(w: Whole, w': Whole, k: Key, q: Key)
    requires FaultedIn(w, w', k) && q in w.s.pages
    ensures k in w'.s.pages && q in w'.s.pages
  {
  }

  lemma OneResident(s: State, k: Key, q: Key)
    requires Inv(s, -1, None) && |s.frames| == 1 && k in s.pages && q in s.pages && k != q
    ensures !s.pages[k].isvalid || !s.pages[q].isvalid
  {
    assert PageOK(s, None, k) && PageOK(s, None, q);
  }

  /** One frame, and two processes with a page each. */
  method Contend(size: nat) returns (p: Pager)
    requires size > 0 && BASE % size == 0
    ensures Contending(p, 7, size)
    ensures fresh(p) && fresh(p.frames) && fresh(p.blocks) && fresh(p.mmu) && fresh(p.mmu.pmem) && fresh(p.mmu.disk)
  {
    hide Inv, Unit.Coherent, ListOK, Explained, WholePageUsable;
    p := Begin(size);
    LiveTables(p.list, p.tables, 8);
    p.Create(8);
    NewPage(p, 7, 0);
    assert p.blocks[0].page.Some? && p.blocks[1] == BlockNode(false, None);
    NewPage(p, 8, 1);
  }

  /** With one frame, two processes whose faults are served in turn never get to store, however often both
      try again: the bound on the faults of a store needs that no other fault is served in between. */
  method StoresCanStarve(size: nat, rounds: nat) returns (p: Pager, ghost seen: seq<Whole>)
    requires size > 0 && BASE % size == 0
    ensures p.Valid() && p.frames.Length == 1 && p.mmu.log == OneEach(size)
    ensures |seen| == 2 * rounds + 1 && seen[2 * rounds] == p.Now()
    ensures forall i :: 0 <= i < 2 * rounds ==> InTurn(seen[i], seen[i + 1], Key(7 + i % 2, 0))
  {
    hide Inv, Unit.Coherent, ListOK, Explained, WholePageUsable, InTurn;
    p := Contend(size);
    seen := [p.Now()];
    for i := 0 to rounds
      invariant Contending(p, 7, size) && |seen| == 2 * i + 1 && seen[2 * i] == p.Now()
      invariant forall j :: 0 <= j < 2 * i ==> InTurn(seen[j], seen[j + 1], Key(7 + j % 2, 0))
      invariant fresh(p) && fresh(p.frames) && fresh(p.blocks) && fresh(p.mmu) && fresh(p.mmu.pmem) && fresh(p.mmu.disk)
    {
      FaultInTurn(p, 7, size);
      seen := seen + [p.Now()];
      FaultInTurn(p, 8, size);
      seen := seen + [p.Now()];
    }
  }
}
