/** The demand pager's operations.  Each runs under the pager lock, but the client processes keep running:
    whenever an operation calls the unit below, any permitted loads and stores may happen. */
module Paging {
  import opened Common
  import opened Mmu
  import opened PageTables
  import opened PagerHistory
  import opened PagerState
  import opened PagerReach
  import Clock

  function Bits(frames: seq<FrameNode>): (r: seq<bool>)
    ensures |r| == |frames|
  {
    seq(|frames|, i requires 0 <= i < |frames| => frames[i].accessed)
  }

  lemma BitsUpdate(frames: seq<FrameNode>, i: nat, bit: bool)
    requires i < |frames|
    ensures Bits(frames[i := frames[i].(accessed := bit)]) == Bits(frames)[i := bit]
  {
  }

  /** The lowest-numbered free frame, or -1. */
  function FirstFree(frames: seq<FrameNode>, i: nat): (r: int)
    requires i <= |frames|
    ensures r == -1 || i <= r < |frames|
    ensures r == -1 ==> forall j :: i <= j < |frames| ==> frames[j].pid != -1
    ensures r != -1 ==> frames[r].pid == -1 && forall j :: i <= j < r ==> frames[j].pid != -1
    decreases |frames| - i
  {
    if i == |frames| then -1 else if frames[i].pid == -1 then i else FirstFree(frames, i + 1)
  }

  /** The pager's state and the clock's. */
  datatype Whole = Whole(s: State, hand: nat, lastVictim: Option<nat>)

  /** Frame f is free, or was made so by the clock. */
  ghost predicate MadeRoom(w: Whole, w': Whole, f: nat) {
    if FirstFree(w.s.frames, 0) != -1 then
      f == FirstFree(w.s.frames, 0) && w' == w
    else
      && w.hand < |w.s.frames|
      && f == Clock.Victim(Bits(w.s.frames), w.hand)
      && w'.hand == Clock.At(f, 1, |w.s.frames|) && w'.lastVictim == None
      && Bits(w'.s.frames) == Clock.Cleared(Bits(w.s.frames), w.hand, Clock.Skips(Bits(w.s.frames), w.hand, 0))
      && (forall g :: 0 <= g < |w.s.frames| ==>
                        w'.s.frames[g] == w.s.frames[g].(accessed := w'.s.frames[g].accessed))
      && Evicted(w.s, w'.s, f)
  }

  /** A page that was out came in: to the lowest free frame if there is one, and otherwise to the frame
      of the clock's victim.  The clock's bits and hand move as the second-chance rule says, and the
      victim is not the frame that the eviction before refilled. */
  ghost predicate FaultedIn(w: Whole, w': Whole, k: Key) {
    var n := |w.s.frames|;
    && k in w'.s.pages && w'.s.pages[k].frame >= 0 && w.hand < n
    && var f: nat := w'.s.pages[k].frame;
    if FirstFree(w.s.frames, 0) != -1 then
      && f == FirstFree(w.s.frames, 0) && BroughtIn(w.s, w'.s, k, f)
      && w'.hand == w.hand && w'.lastVictim == w.lastVictim
    else
      && f == Clock.Victim(Bits(w.s.frames), w.hand)
      && Replaced(w.s, w'.s, k, f)
      && w'.hand == Clock.At(f, 1, n) && w'.lastVictim == Some(f)
      && Bits(w'.s.frames) == Clock.Cleared(Bits(w.s.frames), w.hand,
                                            Clock.Skips(Bits(w.s.frames), w.hand, 0))[f := true]
      && (w.lastVictim.Some? && n >= 2 ==> f != w.lastVictim.value)
  }

  lemma RoomThenIn(w: Whole, w1: Whole, w2: Whole, k: Key, f: nat)
    requires Inv(w.s, -1, None) && MadeRoom(w, w1, f) && w.hand < |w.s.frames|
    requires k in w.s.pages && !w.s.pages[k].isvalid
    requires w.lastVictim.Some? ==>
               && w.lastVictim.value < |w.s.frames| && w.s.frames[w.lastVictim.value].accessed
               && w.hand == Clock.At(w.lastVictim.value, 1, |w.s.frames|)
    requires k in w1.s.pages ==> BroughtIn(w1.s, w2.s, k, f)
    requires w2.hand == w1.hand
    requires w2.lastVictim == if FirstFree(w.s.frames, 0) == -1 then Some(f) else w1.lastVictim
    ensures FaultedIn(w, w2, k)
  {
    hide Inv, EvictedMapping;
    StillOut(w, w1, f, k);
    if FirstFree(w.s.frames, 0) == -1 {
      EvictedStillOut(w.s, w1.s, f, k);
      BitsOfRefilled(w1.s.frames, f, FrameNode(k.pid, true, Some(k)));
      Spared(w);
    }
  }

  /** The clock does not choose the frame it last had refilled. */
  lemma Spared(w: Whole)
    requires w.hand < |w.s.frames|
    requires w.lastVictim.Some? ==>
               && w.lastVictim.value < |w.s.frames| && w.s.frames[w.lastVictim.value].accessed
               && w.hand == Clock.At(w.lastVictim.value, 1, |w.s.frames|)
    ensures w.lastVictim.Some? && |w.s.frames| >= 2 ==>
              Clock.Victim(Bits(w.s.frames), w.hand) != w.lastVictim.value
  {
    if w.lastVictim.Some? && |w.s.frames| >= 2 {
      assert Bits(w.s.frames)[w.lastVictim.value];
      Clock.RefilledIsSpared(Bits(w.s.frames), w.lastVictim.value);
    }
  }

  lemma StillOut(w: Whole, w1: Whole, f: nat, k: Key)
    requires Inv(w.s, -1, None) && MadeRoom(w, w1, f) && k in w.s.pages && !w.s.pages[k].isvalid
    requires w.hand < |w.s.frames|
    ensures k in w1.s.pages && !w1.s.pages[k].isvalid && w1.hand < |w.s.frames|
    ensures FirstFree(w.s.frames, 0) != -1 ==> w1 == w
    ensures FirstFree(w.s.frames, 0) == -1 ==> w1.hand == Clock.At(f, 1, |w.s.frames|)
  {
    if FirstFree(w.s.frames, 0) == -1 {
      EvictedStillOut(w.s, w1.s, f, k);
    }
  }

  lemma BitsOfRefilled(frames: seq<FrameNode>, f: nat, x: FrameNode)
    requires f < |frames|
    ensures Bits(frames[f := x]) == Bits(frames)[f := x.accessed]
  {
  }

  /** The evictions on record once page k was brought in: a dirty victim's is the last to its block. */
  ghost function DumpsAfter(w: Whole, dumps: map<nat, Dump>, log: seq<Event>): map<nat, Dump>
    requires w.hand < |w.s.frames|
  {
    var f := Clock.Victim(Bits(w.s.frames), w.hand);
    if FirstFree(w.s.frames, 0) == -1 && f < |w.s.frames| && w.s.frames[f].page.Some?
       && w.s.frames[f].page.value in w.s.pages && w.s.pages[w.s.frames[f].page.value].dirty
       && 0 <= w.s.pages[w.s.frames[f].page.value].block
    then dumps[w.s.pages[w.s.frames[f].page.value].block := Dump(w.s.frames[f].page.value, |log|)]
    else dumps
  }

  /** A page that was evicted to make room is out, and its block is its own. */
  lemma VictimIsOut(w: Whole, w': Whole, k: Key)
    requires Inv(w.s, -1, None) && Inv(w'.s, -1, None) && FaultedIn(w, w', k) && FirstFree(w.s.frames, 0) == -1
    ensures var f := Clock.Victim(Bits(w.s.frames), w.hand);
            && f < |w.s.frames| && w.s.frames[f].page.Some? && w.s.frames[f].page.value in w.s.pages
            && var v := w.s.frames[f].page.value;
            && var b := w.s.pages[v].block;
            && 0 <= b < |w.s.blocks| == |w.s.disk| && w.s.blocks[b].page == Some(v)
            && DiskKept(w.s.disk, w'.s.disk, w.s.pages[v])
            && w'.s.blocks == (if w.s.pages[v].dirty then w.s.blocks[b := w.s.blocks[b].(used := true)] else w.s.blocks)
            && v in w'.s.pages && (w.s.pages[v].dirty ==> v in w'.s.flat && w'.s.flat[v] == w'.s.disk[b])
  {
    hide TablesOK, FramesOK, Clock.Cleared, EvictedMapping;
    var v := w.s.frames[w'.s.pages[k].frame].page.value;
    assert PageOK(w'.s, None, v);
  }

  lemma FaultExplained(w: Whole, w': Whole, k: Key, dumps: map<nat, Dump>, log: seq<Event>, log': seq<Event>)
    requires Inv(w.s, -1, None) && Inv(w'.s, -1, None) && FaultedIn(w, w', k)
    requires Explained(w.s.blocks, w.s.disk, dumps, log, w.s.size) && OnlyAccesses(log, log')
    requires w'.s.flat == Flat(log') && w.hand < |w.s.frames|
    ensures Explained(w'.s.blocks, w'.s.disk, DumpsAfter(w, dumps, log'), log', w.s.size)
  {
    hide Inv;
    AccessesExplained(w.s.blocks, w.s.disk, dumps, log, log', w.s.size);
    if FirstFree(w.s.frames, 0) == -1 {
      VictimIsOut(w, w', k);
      hide FaultedIn;
      var v := w.s.frames[Clock.Victim(Bits(w.s.frames), w.hand)].page.value;
      if w.s.pages[v].dirty {
        EvictExplained(w.s.blocks, w.s.disk, dumps, log', w'.s.disk, w.s.pages[v].block, v);
      } else {
        assert w'.s.disk == w.s.disk;
      }
    }
  }

  /** The last value of the byte at an address. */
  ghost function LastAt(log: seq<Event>, pid: int, addr: int, size: nat): Option<byte>
    requires size > 0 && BASE <= addr
  {
    LastValue(log, KeyAt(pid, addr, size), OffsetInPage(addr, size))
  }

  /** The history ends with this load, which returned the last value stored there. */
  ghost predicate LoadedLast(running: bool, before: seq<Event>, log: seq<Event>, k: Key, o: nat, v: byte) {
    && |log| > 0 && Meanwhile(running, before, log[..|log| - 1])
    && log[|log| - 1] == Loaded(k, o, v) && LastValue(log[..|log| - 1], k, o) == Some(v)
  }

  /** The history ends with this store. */
  ghost predicate StoredLast(running: bool, before: seq<Event>, log: seq<Event>, k: Key, o: nat, v: byte) {
    && |log| > 0 && Meanwhile(running, before, log[..|log| - 1])
    && log[|log| - 1] == Stored(k, o, v)
  }

  lemma NothingMeanwhile(running: bool, log: seq<Event>)
    ensures Meanwhile(running, log, log)
  {
  }

  lemma OneMoreExplained(blocks: seq<BlockNode>, disk: seq<Bytes>, dumps: map<nat, Dump>, log: seq<Event>, e: Event,
                         size: nat)
    requires Explained(blocks, disk, dumps, log, size) && (e.Loaded? || e.Stored?)
    ensures Explained(blocks, disk, dumps, log + [e], size)
  {
    NoAccesses(log);
    OnlyAccessesOneMore(log, log, e);
    AccessesExplained(blocks, disk, dumps, log, log + [e], size);
  }

  lemma UpgradeKeepsTables(s: State, s': State, k: Key)
    requires Upgraded(s, s', k)
    ensures k in s'.pages && s'.tables == s.tables && s'.blocks == s.blocks && s'.disk == s.disk
    ensures k in s.pages && s'.pages[k].isvalid == s.pages[k].isvalid && Writable(s'.mapping, k)
  {
  }

  /** No process, no page, no history. */
  lemma NothingYet(s: State)
    requires s.size > 0 && BASE % s.size == 0 && |s.blocks| == |s.disk| && |s.frames| == |s.pmem|
    requires s.tables == map[] && s.pages == map[] && s.flat == map[] && s.owner == map[]
    requires forall b :: 0 <= b < |s.blocks| ==> s.blocks[b] == BlockNode(false, None)
    requires forall f :: 0 <= f < |s.frames| ==> s.frames[f].pid == -1
    ensures Inv(s, -1, None) && ListOK([], s.tables) && Explained(s.blocks, s.disk, map[], [], s.size)
  {
  }

  lemma UpgradedIs(s: State, k: Key, s': State)
    requires k in s.pages && 0 <= s.pages[k].frame < |s.frames| && k in s.mapping
    requires s' == Marked(s, k).(mapping := s.mapping[k := s.mapping[k].(prot := ReadWrite)],
                                 flat := s'.flat, pmem := s'.pmem)
    ensures Upgraded(s, s', k)
  {
  }

  lemma ServedMeanwhile(a: View, b: View, m: map<Key, Mapping>, m': map<Key, Mapping>)
    requires Served(a, b, m, m', {})
    ensures Meanwhile(a.running, a.log, b.log)
  {
  }

  lemma FaultKeepsTables(w: Whole, w': Whole, k: Key)
    requires FaultedIn(w, w', k)
    ensures w'.s.tables == w.s.tables && w.hand < |w.s.frames|
    ensures k in w'.s.pages && w'.s.pages[k].isvalid && Accessible(w'.s.mapping, k)
  {
  }

  /** A fault makes no page reachable but its own. */
  lemma FaultGains(w: Whole, w': Whole, k: Key)
    requires k in w.s.pages
    requires if w.s.pages[k].isvalid then Upgraded(w.s, w'.s, k) else FaultedIn(w, w', k)
    ensures GainedOnly(w.s.mapping, w'.s.mapping, k)
  {
  }

  /** What servicing one fault at page k comes to. */
  ghost predicate FaultDone(w: Whole, w': Whole, k: Key) {
    k in w.s.pages &&
    if w.s.pages[k].isvalid then Upgraded(w.s, w'.s, k) && w'.hand == w.hand && w'.lastVictim == w.lastVictim
    else FaultedIn(w, w', k)
  }

  /** Page k can be stored to after so many faults: none if it could already, one if it was resident, and
      otherwise two, of which the first brings it in. */
  ghost predicate MadeWritable(w: Whole, w': Whole, k: Key, faults: nat) {
    if Writable(w.s.mapping, k) then faults == 0 && w' == w
    else
      && k in w.s.pages
      && if w.s.pages[k].isvalid then faults == 1 && FaultDone(w, w', k)
         else faults == 2 && exists w1 :: FaultedIn(w, w1, k) && Upgraded(w1.s, w'.s, k)
  }

  lemma {:induction false} MadeWritableBy(w: Whole, w1: Whole, w': Whole, k: Key, faults: nat)
    requires !Writable(w.s.mapping, k) && FaultDone(w, w1, k)
    requires if Writable(w1.s.mapping, k) then faults == 1 && w' == w1 else faults == 2 && FaultDone(w1, w', k)
    ensures MadeWritable(w, w', k, faults)
  {
    FaultLeaves(w, w1, k);
    hide FaultedIn, Upgraded;
  }

  lemma HowManyFaults(w: Whole, w': Whole, k: Key, faults: nat)
    requires MadeWritable(w, w', k, faults)
    ensures Writable(w.s.mapping, k) ==> faults == 0 && w' == w
    ensures !Writable(w.s.mapping, k) ==> k in w.s.pages && faults == if w.s.pages[k].isvalid then 1 else 2
  {
  }

  /** What processes do meanwhile to the contents of pages does not matter. */
  lemma {:induction false} WritableAllTheSame(w: Whole, w': Whole, k: Key, faults: nat, flat: map<Key, Bytes>,
                                              pmem: seq<Bytes>)
    requires MadeWritable(w, w', k, faults)
    ensures !Writable(w.s.mapping, k) ==> MadeWritable(w, w'.(s := w'.s.(flat := flat, pmem := pmem)), k, faults)
  {
    hide FaultedIn;
  }

  /** A resident page is writable and dirty after a fault; one that was out is readable and clean. */
  lemma {:induction false} FaultLeaves(w: Whole, w': Whole, k: Key)
    requires FaultDone(w, w', k)
    ensures k in w'.s.pages && k in w'.s.mapping && w'.s.pages[k].isvalid
    ensures 0 <= w'.s.pages[k].frame < |w'.s.frames| && w'.s.frames[w'.s.pages[k].frame].accessed
    ensures w.s.pages[k].isvalid ==> w'.s.mapping[k].prot == ReadWrite && w'.s.pages[k].dirty
    ensures !w.s.pages[k].isvalid ==> w'.s.mapping[k].prot == ReadOnly && !w'.s.pages[k].dirty
    ensures GainedOnly(w.s.mapping, w'.s.mapping, k)
  {
    hide EvictedMapping, Clock.Cleared;
    FaultGains(w, w', k);
  }

  /** Page v was resident before and is not any more. */
  ghost predicate Left(s: State, s': State, v: Key) {
    v in s.pages && v in s'.pages && s.pages[v].isvalid && !s'.pages[v].isvalid
  }

  /** The blocks and their bytes: a block is marked used exactly if it was before or a dirty page left memory for
      it, and only such a block gets other bytes. */
  ghost predicate BlocksTouched(s: State, s': State) {
    && |s'.blocks| == |s.blocks| == |s'.disk| == |s.disk|
    && forall b :: 0 <= b < |s.blocks| ==>
         && s'.blocks[b].page == s.blocks[b].page
         && (s'.blocks[b].used
             <==> s.blocks[b].used || exists v :: Left(s, s', v) && s.pages[v].dirty && s.pages[v].block == b)
         && (s'.disk[b] != s.disk[b] ==> exists v :: Left(s, s', v) && s.pages[v].dirty && s.pages[v].block == b)
  }

  /** The pages: at most one other than page k is touched, which leaves memory from the frame that page k gets. */
  ghost predicate PagesTouched(s: State, s': State, k: Key) {
    && s'.pages.Keys == s.pages.Keys && k in s.pages
    && (forall v :: v in s.pages && v != k && !Left(s, s', v) ==> s'.pages[v] == s.pages[v])
    && (forall v :: Left(s, s', v) ==>
          v != k && s'.pages[v] == s.pages[v].(isvalid := false) && s.pages[v].frame == s'.pages[k].frame)
  }

  lemma {:induction false} ReplacedTouches(s: State, s': State, k: Key, f: nat)
    requires |s.blocks| == |s.disk| && Replaced(s, s', k, f) && !s.pages[k].isvalid
    requires s.pages[s.frames[f].page.value].isvalid && s.pages[s.frames[f].page.value].frame == f
    ensures PagesTouched(s, s', k) && BlocksTouched(s, s')
  {
    hide EvictedMapping;
    var v := s.frames[f].page.value;
    assert Left(s, s', v);
    forall b | 0 <= b < |s.blocks|
      ensures s'.blocks[b].page == s.blocks[b].page
      ensures s'.blocks[b].used <==> s.blocks[b].used || (s.pages[v].dirty && s.pages[v].block == b)
    {
    }
  }

  lemma {:induction false} NothingTouched(s: State, s': State, k: Key, f: nat)
    requires |s.blocks| == |s.disk| && k in s.pages
    requires if s.pages[k].isvalid then Upgraded(s, s', k) else BroughtIn(s, s', k, f)
    ensures PagesTouched(s, s', k) && BlocksTouched(s, s') && forall v :: !Left(s, s', v)
  {
  }

  lemma {:induction false} OneLeft(s: State, s': State, k: Key, f: nat)
    requires Replaced(s, s', k, f) && s.pages[s.frames[f].page.value].isvalid
    ensures Left(s, s', s.frames[f].page.value)
  {
    hide EvictedMapping;
  }

  lemma InItsFrame(s: State, f: nat)
    requires Inv(s, -1, None) && f < |s.frames| && s.frames[f].pid != -1
    ensures s.frames[f].page.Some? && s.frames[f].page.value in s.pages
    ensures s.pages[s.frames[f].page.value].isvalid && s.pages[s.frames[f].page.value].frame == f
  {
    InFrame(s, f);
  }

  /** What a fault touches; a page leaves memory exactly if another came in and all frames were occupied. */
  lemma {:induction false} FaultTouches(w: Whole, w': Whole, k: Key)
    requires Inv(w.s, -1, None) && FaultDone(w, w', k)
    ensures PagesTouched(w.s, w'.s, k) && BlocksTouched(w.s, w'.s)
    ensures (exists v :: Left(w.s, w'.s, v))
            <==> !w.s.pages[k].isvalid && forall f :: 0 <= f < |w.s.frames| ==> w.s.frames[f].pid != -1
  {
    hide Inv, FaultedIn, Upgraded, BroughtIn, Replaced, BlocksTouched, PagesTouched, Left;
    SizeIsPositive(w.s);
    if w.s.pages[k].isvalid {
      NothingTouched(w.s, w'.s, k, 0);
    } else {
      var f := CameIn(w, w', k);
      if FirstFree(w.s.frames, 0) == -1 {
        InItsFrame(w.s, f);
        ReplacedTouches(w.s, w'.s, k, f);
        OneLeft(w.s, w'.s, k, f);
      } else {
        NothingTouched(w.s, w'.s, k, f);
      }
    }
  }

  lemma {:induction false} CameIn(w: Whole, w': Whole, k: Key) returns (f: nat)
    requires FaultedIn(w, w', k)
    ensures k in w'.s.pages && w'.s.pages[k].frame == f
    ensures if FirstFree(w.s.frames, 0) != -1 then BroughtIn(w.s, w'.s, k, f) else Replaced(w.s, w'.s, k, f)
    ensures f < |w.s.frames| && k in w.s.pages
  {
    assert FirstFree(w.s.frames, 0) != -1 ==> BroughtIn(w.s, w'.s, k, w'.s.pages[k].frame);
    hide BroughtIn, Replaced;
    f := w'.s.pages[k].frame;
  }

  lemma SizeIsPositive(s: State)
    requires Inv(s, -1, None)
    ensures s.size > 0 && |s.blocks| == |s.disk|
  {
  }

  lemma LastIsAccess(running: bool, before: seq<Event>, log: seq<Event>)
    requires |log| > 0 && Meanwhile(running, before, log[..|log| - 1])
    requires log[|log| - 1].Loaded? || log[|log| - 1].Stored?
    ensures OnlyAccesses(before, log)
  {
    OnlyAccessesOneMore(before, log[..|log| - 1], log[|log| - 1]);
    assert log[..|log| - 1] + [log[|log| - 1]] == log;
  }

  class Pager {
    const mmu: Unit
    const frames: array<FrameNode>
    const blocks: array<BlockNode>
    var hand: nat
    /** The list of page tables, with the tables of ended processes. */
    var list: seq<TableRecord>
    /** The pages of every live process, in order of allocation. */
    var tables: map<int, seq<Key>>
    var pages: map<Key, Page>
    /** The frame the last eviction refilled. */
    ghost var lastVictim: Option<nat>
    /** The last dirty eviction to each block. */
    ghost var dumps: map<nat, Dump>

    ghost function S(): State
      reads this, frames, blocks, mmu, mmu.pmem, mmu.disk
    {
      State(frames[..], blocks[..], tables, pages, mmu.pageSize, mmu.mapping, mmu.owner, mmu.flat,
            mmu.pmem[..], mmu.disk[..])
    }

    ghost function Now(): Whole
      reads this, frames, blocks, mmu, mmu.pmem, mmu.disk
    {
      Whole(S(), hand, lastVictim)
    }

    ghost predicate ClockOK()
      reads this, frames
    {
      && hand < frames.Length
      && (lastVictim.Some? ==>
            && lastVictim.value < frames.Length && frames[lastVictim.value].accessed
            && hand == Clock.At(lastVictim.value, 1, frames.Length))
    }

    ghost predicate Sound()
      reads this, frames, blocks, mmu, mmu.pmem, mmu.disk
    {
      mmu.Coherent() && Inv(S(), -1, None) && ClockOK()
    }

    ghost predicate Accounted()
      reads this, blocks, mmu, mmu.disk
    {
      ListOK(list, tables) && Explained(blocks[..], mmu.disk[..], dumps, mmu.log, mmu.pageSize)
    }

    ghost predicate Valid()
      reads this, frames, blocks, mmu, mmu.pmem, mmu.disk
    {
      Sound() && Accounted()
    }

    constructor (nframes: nat, nblocks: nat, pageSize: nat, running: bool)
      requires nframes > 0 && pageSize > 0 && BASE % pageSize == 0
      ensures Valid() && list == [] && tables == map[] && pages == map[] && mmu.log == []
      ensures frames.Length == nframes && blocks.Length == nblocks
      ensures mmu.pageSize == pageSize && mmu.running == running && mmu.mapping == map[]
      ensures fresh(frames) && fresh(blocks) && fresh(mmu) && fresh(mmu.pmem) && fresh(mmu.disk)
      ensures forall b :: 0 <= b < nblocks ==> blocks[b] == BlockNode(false, None)
      ensures forall f :: 0 <= f < nframes ==> frames[f].pid == -1
    {
      mmu := new Unit(nframes, nblocks, pageSize, running);
      var junk: bool := *;
      frames := new FrameNode[nframes](i => FrameNode(-1, junk, None));
      blocks := new BlockNode[nblocks](i => BlockNode(false, None));
      hand, list, tables, pages, lastVictim, dumps := 0, [], map[], map[], None, map[];
      new;
      hide Inv, Explained, ListOK, Unit.Coherent;
      NothingYet(S());
    }

    /** A new process gets an empty page table at the end of the list.  That is in order exactly if no process
        with this number has ended before. */
    method Create(pid: int)
      requires Valid() && pid !in tables && pid != -1
      modifies `list, `tables
      ensures tables == old(tables)[pid := []] && list == old(list) + [TableRecord(pid, true)]
      ensures Valid() <==> !UsedBefore(old(list), pid)
    {
      hide Inv, Unit.Coherent, Explained;
      ghost var s := S();
      if !UsedBefore(list, pid) {
        AddedTable(list, tables, pid);
      } else {
        NotAddedTwice(list, pid, tables[pid := []]);
      }
      list := list + [TableRecord(pid, true)];
      tables := tables[pid := []];
      assert S() == Created(s, pid);
      CreateKeeps(s, pid);
    }

    /** The scan of the list of page tables. */
    method FindPageTable(pid: int) returns (r: nat)
      ensures r == FirstTable(list, pid, 0)
    {
      for i := 0 to |list|
        invariant FirstTable(list, pid, 0) == FirstTable(list, pid, i)
      {
        if list[i].pid == pid {
          return i;
        }
      }
      return |list|;
    }

    method GetNewFrame() returns (f: int)
      ensures f == FirstFree(frames[..], 0)
    {
      for i := 0 to frames.Length
        invariant FirstFree(frames[..], 0) == FirstFree(frames[..], i)
      {
        if frames[i].pid == -1 {
          return i;
        }
      }
      return -1;
    }

    method GetNewBlock() returns (b: int)
      ensures b == -1 <==> forall c :: 0 <= c < blocks.Length ==> blocks[c].page.Some?
      ensures b != -1 ==> 0 <= b < blocks.Length && blocks[b].page == None
      ensures b != -1 ==> forall c :: 0 <= c < b ==> blocks[c].page.Some?
    {
      for i := 0 to blocks.Length
        invariant forall c :: 0 <= c < i ==> blocks[c].page.Some?
      {
        if blocks[i].page == None {
          return i;
        }
      }
      return -1;
    }

    /** The scan of a page table finds the page that holds an address by the page's position. */
    method GetPage(pid: int, addr: int) returns (k: Option<Key>)
      requires Inv(S(), -1, None) && pid in tables
      ensures k == PageAt(tables, mmu.pageSize, pid, addr)
    {
      for i := 0 to |tables[pid]|
        invariant forall j :: 0 <= j < i ==> !Covers(pages[tables[pid][j]], addr, mmu.pageSize)
      {
        var q := tables[pid][i];
        CoversByPosition(S(), pid, addr, i);
        if Covers(pages[q], addr, mmu.pageSize) {
          return Some(q);
        }
      }
      NotCovered(S(), pid, addr);
      return None;
    }

    /** A process gets a new page behind its last one, unless every block is owned.  The page first
        holds zero fill if its block was never written, and otherwise whatever the block holds. */
    method Extend(pid: int) returns (r: Option<int>)
      requires Valid() && pid in tables
      modifies `tables, `pages, blocks, mmu`log, mmu`flat
      ensures Valid()
      ensures r == None <==> forall b :: 0 <= b < blocks.Length ==> old(blocks[b].page).Some?
      ensures r == None ==> S() == old(S()) && mmu.log == old(mmu.log)
      ensures r.Some? ==>
                var k := Key(pid, |old(tables[pid])|);
                && r.value == 0x6000_0000 + |old(tables[pid])| * mmu.pageSize && Grew(old(S()), S(), k)
                && mmu.log == old(mmu.log) + [Grown(k, Backing(old(S()), pages[k]))]
                && (WholePageUsable(S(), k) <==> r.value + mmu.pageSize <= 0x6010_0000)
    {
      hide Inv, Unit.Coherent, ListOK, Explained;
      ghost var s := S();
      var b := GetNewBlock();
      if b == -1 {
        return None;
      }
      LiveIsFound(list, tables, pid);
      var pt := FindPageTable(pid);
      var k := Key(list[pt].pid, |tables[pid]|);
      NextKeyIsNew(s, pid);
      ExtendExplained(blocks[..], mmu.disk[..], dumps, mmu.log, mmu.pageSize, b, k);
      AddPage(k, b);
      ExtendKeeps(s, k, b, pages[k]);
      GrownTable(list, s.tables, pid, tables[pid]);
      NewPageUsable(s, k);
      return Some(pages[k].vaddr);
    }

    lemma NewPageUsable(s: State, k: Key)
      requires mmu.Coherent() && s.mapping == mmu.mapping && s.owner == mmu.owner && Inv(s, -1, None)
      requires Grew(s, S(), k) && k.index == |s.tables[k.pid]|
      ensures VAddr(k.index, s.size) == 0x6000_0000 + k.index * s.size
      ensures WholePageUsable(S(), k) <==> VAddr(k.index, s.size) + s.size <= 0x6010_0000
    {
      hide Inv, FlatMemory, Flat;
      NewPageUsableIff(s, S(), k);
      assert (k.index + 1) * s.size == k.index * s.size + s.size;
    }

    /** The page record of a new page, and its links. */
    method AddPage(k: Key, b: nat)
      requires mmu.Coherent() && k !in mmu.flat && k.pid in tables && b < blocks.Length
      modifies `tables, `pages, blocks, mmu`log, mmu`flat
      ensures mmu.Coherent() && k in pages
      ensures pages[k].block == b && !pages[k].isvalid && pages[k].vaddr == VAddr(k.index, mmu.pageSize)
      ensures S() == Extended(old(S()), k, b, pages[k])
      ensures mmu.log == old(mmu.log) + [Grown(k, Backing(old(S()), pages[k]))]
    {
      ghost var s := S();
      var frame: int := *;
      var dirty: bool := *;
      var page := Page(false, frame, b, dirty, BASE + k.index * mmu.pageSize);
      pages := pages[k := page];
      tables := tables[k.pid := tables[k.pid] + [k]];
      blocks[b] := blocks[b].(page := Some(k));
      mmu.Grow(k, Backing(s, page));
    }

    /** The clock: clears accessed bits until it meets a clear one. */
    method SecondChance() returns (victim: nat)
      requires hand < frames.Length
      modifies `hand, `lastVictim, frames
      ensures hand < frames.Length && lastVictim == None
      ensures victim == Clock.Victim(old(Bits(frames[..])), old(hand)) < frames.Length
      ensures hand == (victim + 1) % frames.Length
      ensures Bits(frames[..]) == Clock.Cleared(old(Bits(frames[..])), old(hand),
                                                Clock.Skips(old(Bits(frames[..])), old(hand), 0))
      ensures forall f :: 0 <= f < frames.Length ==>
                            frames[f] == old(frames[f]).(accessed := frames[f].accessed)
    {
      var n := frames.Length;
      ghost var bits, start, k := Bits(frames[..]), hand, 0;
      ghost var skips := Clock.Skips(bits, start, 0);
      var found := -1;
      while found == -1
        invariant 0 <= k <= n
        invariant found == -1 ==> k <= skips && hand == Clock.At(start, k, n)
        invariant Bits(frames[..]) == Clock.Cleared(bits, start, if found == -1 then k else skips)
        invariant found != -1 ==> found == Clock.At(start, skips, n) && hand == Clock.At(found, 1, n)
        invariant forall f :: 0 <= f < n ==> frames[f] == old(frames[f]).(accessed := frames[f].accessed)
        decreases if found == -1 then n + 1 - k else 0
      {
        var index := hand;
        assert frames[index].accessed == Bits(frames[..])[index];
        Clock.NextIndex(index, n);
        if !frames[index].accessed {
          found := index;
        } else {
          BitsUpdate(frames[..], index, false);
          Clock.ClearOneMore(bits, start, k);
          frames[index] := frames[index].(accessed := false);
          k := k + 1;
        }
        hand := (index + 1) % n;
      }
      lastVictim := None;
      victim := found;
      Clock.NextIndex(victim, n);
    }

    /** The pages of the first n frames have lost their protections since state s, and nothing else happened
        but loads and stores. */
    ghost predicate Revoking(s: State, log: seq<Event>, n: nat)
      reads this, frames, blocks, mmu, mmu.pmem, mmu.disk
    {
      && mmu.Coherent() && Inv(S(), -1, None)
      && S() == s.(mapping := mmu.mapping, flat := mmu.flat, pmem := mmu.pmem[..])
      && mmu.mapping == Revoked(s.mapping, mmu.owner, n)
      && Meanwhile(mmu.running, log, mmu.log)
    }

    /** Take away all protections of all resident pages. */
    method RevokeAll()
      requires mmu.Coherent() && Inv(S(), -1, None)
      requires forall f :: 0 <= f < frames.Length ==> frames[f].pid != -1
      modifies mmu`log, mmu`flat, mmu`mapping, mmu.pmem
      ensures mmu.Coherent() && Inv(S(), -1, None)
      ensures S() == old(S()).(mapping := mmu.mapping, flat := mmu.flat, pmem := mmu.pmem[..])
      ensures mmu.mapping == Revoked(old(mmu.mapping), mmu.owner, frames.Length)
      ensures Meanwhile(mmu.running, old(mmu.log), mmu.log)
    {
      ghost var s := S();
      assert Revoked(mmu.mapping, mmu.owner, 0) == mmu.mapping;
      NoAccesses(mmu.log);
      hide Inv, Unit.Coherent, Revoked, OnlyAccesses;
      for i := 0 to frames.Length
        invariant Revoking(s, old(mmu.log), i)
      {
        RevokeNextFrame(i, s, old(mmu.log));
      }
    }

    method RevokeNextFrame(f: nat, ghost s: State, ghost log: seq<Event>)
      requires f < frames.Length && frames[f].pid != -1 && Revoking(s, log, f)
      modifies mmu`log, mmu`flat, mmu`mapping, mmu.pmem
      ensures Revoking(s, log, f + 1)
    {
      hide Inv, Unit.Coherent, OnlyAccesses;
      InFrame(S(), f);
      var k := frames[f].page.value;
      RevokeNext(s.mapping, mmu.owner, f, k);
      Revoke(k);
      OnlyAccessesTwice(log, old(mmu.log), mmu.log);
    }

    /** mmu_nonresident, or mmu_chprot to PROT_NONE, on any page. */
    method Revoke(k: Key)
      requires mmu.Coherent() && Inv(S(), -1, None) && k in mmu.mapping
      modifies mmu`log, mmu`flat, mmu`mapping, mmu.pmem
      ensures mmu.Coherent() && Inv(S(), -1, None)
      ensures S() == old(S()).(mapping := mmu.mapping, flat := mmu.flat, pmem := mmu.pmem[..])
      ensures mmu.mapping == old(mmu.mapping)[k := old(mmu.mapping)[k].(prot := NoAccess)]
      ensures Meanwhile(mmu.running, old(mmu.log), mmu.log)
    {
      ghost var s, a := S(), mmu.Now();
      mmu.Chprot(k, NoAccess);
      RevokeReprotects(s, s.mapping, k, None);
      ServedKeeps(s, a, mmu.Now(), mmu.mapping, -1, None, {});
    }

    /** If a page is dirty, copy its frame to its block and remember that the block is in use. */
    method WriteBack(f: nat, p: Page)
      requires mmu.Coherent() && f < mmu.pmem.Length && 0 <= p.block < blocks.Length == mmu.disk.Length
      requires !FrameWritable(mmu.mapping, f)
      modifies blocks, mmu`log, mmu`flat, mmu.pmem, mmu.disk
      ensures mmu.Coherent() && Served(old(mmu.Now()), mmu.Now(), mmu.mapping, mmu.mapping, {})
      ensures blocks[..] == (if p.dirty then old(blocks[..])[p.block := old(blocks[p.block]).(used := true)]
                             else old(blocks[..]))
      ensures mmu.disk[..] == (if p.dirty then old(mmu.disk[..])[p.block := old(mmu.pmem[f])]
                               else old(mmu.disk[..]))
    {
      if p.dirty {
        blocks[p.block] := blocks[p.block].(used := true);
        mmu.DiskWrite(f, p.block);
      }
    }

    /** Mark the page of a frame as gone and take it from its process. */
    method TakeFromProcess(f: nat)
      requires mmu.Coherent() && Inv(S(), -1, None) && f < frames.Length && frames[f].pid != -1
      modifies `pages, mmu`log, mmu`flat, mmu`mapping, mmu.pmem
      ensures mmu.Coherent() && Meanwhile(mmu.running, old(mmu.log), mmu.log)
      ensures frames[f].page.Some? && var v := frames[f].page.value;
              && v in old(pages) && v in old(mmu.mapping)
              && pages == old(pages)[v := old(pages[v]).(isvalid := false)]
              && mmu.mapping == old(mmu.mapping)[v := old(mmu.mapping)[v].(prot := NoAccess)]
      ensures S().(pages := old(pages)) == old(S()).(mapping := mmu.mapping, flat := mmu.flat, pmem := mmu.pmem[..])
      ensures Inv(S().(pages := old(pages)), -1, None)
    {
      hide Inv, Unit.Coherent, Reaches, Served, Meanwhile, Reprotected;
      ghost var s, a := S(), mmu.Now();
      InFrame(s, f);
      FrameHolds(f);
      var v := frames[f].page.value;
      pages := pages[v := pages[v].(isvalid := false)];
      mmu.Chprot(v, NoAccess);
      RevokeReprotects(s, s.mapping, v, None);
      ServedKeeps(s, a, mmu.Now(), mmu.mapping, -1, None, {});
      ServedMeanwhile(a, mmu.Now(), s.mapping, mmu.mapping);
      assert S().(pages := s.pages) == s.(mapping := mmu.mapping, flat := mmu.flat, pmem := mmu.pmem[..]);
    }

    /** Write a victim that is out of reach to its block if it is dirty; its frame is then empty. */
    method EmptyFrame(f: nat, ghost s: State)
      requires mmu.Coherent() && Inv(s, -1, None) && f < frames.Length && frames[f].pid != -1
      requires frames[f].page.Some? && frames[f].page.value in s.pages
      requires S() == s.(pages := s.pages[frames[f].page.value := s.pages[frames[f].page.value].(isvalid := false)])
      requires !Accessible(s.mapping, frames[f].page.value)
      modifies blocks, mmu`log, mmu`flat, mmu`owner, mmu.pmem, mmu.disk
      ensures mmu.Coherent() && Meanwhile(mmu.running, old(mmu.log), mmu.log) && Inv(S(), f, None)
      ensures var p := s.pages[frames[f].page.value];
              && 0 <= p.block < blocks.Length
              && blocks[..] == (if p.dirty then old(blocks[..])[p.block := old(blocks[p.block]).(used := true)]
                                else old(blocks[..]))
              && DiskKept(old(mmu.disk[..]), mmu.disk[..], p)
    {
      hide Inv, Served, Unit.Coherent, Reaches, Meanwhile, FrameWritable;
      ghost var b, m := mmu.Now(), mmu.mapping;
      var v := frames[f].page.value;
      InFrame(s, f);
      FrameHolds(f);
      VictimIsSettled(s, f);
      WriteBack(f, pages[v]);
      DropServedKeeps(s, f, b, mmu.Now());
      ServedMeanwhile(b, mmu.Now(), m, m);
      mmu.Evict(f);
      assert S() == Dropped(s, f).(flat := mmu.flat, pmem := mmu.pmem[..]);
    }

    lemma Reaching()
      requires mmu.Coherent()
      ensures Reaches(mmu.mapping, mmu.owner)
    {
    }

    /** What an owned frame holds. */
    lemma FrameHolds(f: nat)
      requires mmu.Coherent() && f in mmu.owner
      ensures Reaches(mmu.mapping, mmu.owner) && f < mmu.pmem.Length
      ensures mmu.owner[f] in mmu.flat && mmu.flat[mmu.owner[f]] == mmu.pmem[f]
    {
    }

    /** Evict the page of a frame when all frames are occupied. */
    method SwapOut(f: nat)
      requires mmu.Coherent() && Inv(S(), -1, None) && f < frames.Length
      requires forall g :: 0 <= g < frames.Length ==> frames[g].pid != -1
      modifies `pages, blocks, mmu`log, mmu`flat, mmu`mapping, mmu`owner, mmu.pmem, mmu.disk
      ensures mmu.Coherent() && Inv(S(), f, None)
      ensures Evicted(old(S()), S(), f)
      ensures Meanwhile(mmu.running, old(mmu.log), mmu.log)
    {
      hide Inv;
      if f == 0 {
        RevokeAll();
      }
      ghost var log1, pages1 := mmu.log, pages;
      TakeFromProcess(f);
      ghost var log2 := mmu.log;
      OnlyAccessesTwice(old(mmu.log), log1, log2);
      EmptyFrame(f, S().(pages := pages1));
      OnlyAccessesTwice(old(mmu.log), log2, mmu.log);
    }

    /** Load a page's contents into a frame nobody can see. */
    method Fill(b: nat, f: nat)
      requires mmu.Coherent() && f < mmu.pmem.Length && f !in mmu.owner && b < blocks.Length == mmu.disk.Length
      modifies mmu`log, mmu`flat, mmu.pmem
      ensures mmu.Coherent() && Served(old(mmu.Now()), mmu.Now(), mmu.mapping, mmu.mapping, {f})
      ensures mmu.pmem[f] == if blocks[b].used then mmu.disk[b] else Filled(mmu.pageSize)
    {
      if blocks[b].used {
        mmu.DiskRead(b, f);
      } else {
        mmu.ZeroFill(f);
      }
    }

    /** Give a page that is not resident an empty frame: record it, load it, and only then map it. */
    method BringIn(k: Key, f: nat)
      requires mmu.Coherent() && Inv(S(), f, None) && f < frames.Length
      requires k in pages && !pages[k].isvalid
      modifies `pages, frames, mmu`log, mmu`flat, mmu`mapping, mmu`owner, mmu.pmem
      ensures mmu.Coherent() && Inv(S(), -1, None) && Meanwhile(mmu.running, old(mmu.log), mmu.log)
      ensures BroughtIn(old(S()), S(), k, f)
    {
      hide Inv, Served, Unit.Coherent, Reaches, Meanwhile;
      ghost var s0 := S();
      Reaching();
      OutOfMemory(s0, f, k);
      ClaimKeeps(s0, f, k);
      frames[f] := FrameNode(k.pid, true, Some(k));
      pages := pages[k := pages[k].(isvalid := true, frame := f, dirty := false)];
      ghost var s1, a := S(), mmu.Now();
      assert s1 == Claimed(s0, f, k);
      Fill(pages[k].block, f);
      ghost var s2, b := S(), mmu.Now();
      FillKeeps(s1, a, b, f, k);
      assert s2 == s1.(flat := b.flat, pmem := b.pmem);
      Install(k, f, old(mmu.log));
    }

    method Install(k: Key, f: nat, ghost log: seq<Event>)
      requires mmu.Coherent() && Inv(S(), f, Some(k)) && f < frames.Length && Meanwhile(mmu.running, log, mmu.log)
      requires k in pages && pages[k].isvalid && pages[k].frame == f && !pages[k].dirty && k.pid != -1
      requires frames[f] == FrameNode(k.pid, true, Some(k)) && mmu.pmem.Length == frames.Length
      requires mmu.pmem[f] == Backing(S(), pages[k]) && f !in mmu.owner && k !in mmu.owner.Values
      modifies mmu`log, mmu`flat, mmu`mapping, mmu`owner, mmu.pmem
      ensures mmu.Coherent() && Inv(S(), -1, None) && Meanwhile(mmu.running, log, mmu.log)
      ensures mmu.mapping == old(mmu.mapping)[k := Mapping(f, ReadOnly)]
    {
      hide Inv;
      ghost var s, a := S(), mmu.Now();
      Incoming(s, f, k);
      mmu.Resident(k, f, ReadOnly);
      InstallKeeps(s, a, mmu.Now(), f, k, ReadOnly);
      OnlyAccessesTwice(log, a.log, mmu.log);
    }

    /** A fault on a resident page: it may be stored to from now on, and counts as dirty and accessed. */
    method Upgrade(k: Key)
      requires Sound() && k in pages && pages[k].isvalid
      modifies `pages, frames, mmu`log, mmu`flat, mmu`mapping, mmu.pmem
      ensures Sound() && Meanwhile(mmu.running, old(mmu.log), mmu.log)
      ensures Upgraded(old(S()), S(), k)
    {
      hide Inv, Served, Reprotected, Reaches, Meanwhile, Unit.Coherent;
      ghost var s, a := S(), mmu.Now();
      Reaching();
      InMemory(s, k);
      MarkKeeps(s, k);
      mmu.Chprot(k, ReadWrite);
      ghost var b, m := mmu.Now(), mmu.mapping;
      MarkUsed(k);
      GrantReprotects(Marked(s, k), k);
      ServedKeeps(Marked(s, k), a, b, m, -1, None, {});
      assert S() == Marked(s, k).(mapping := m, flat := b.flat, pmem := b.pmem);
      UpgradedIs(s, k, S());
      ServedMeanwhile(a, b, s.mapping, m);
    }

    /** The page is dirty and its frame accessed. */
    method MarkUsed(k: Key)
      requires k in pages && 0 <= pages[k].frame < frames.Length && ClockOK()
      modifies `pages, frames
      ensures ClockOK() && S() == Marked(old(S()), k)
    {
      frames[pages[k].frame] := frames[pages[k].frame].(accessed := true);
      pages := pages[k := pages[k].(dirty := true)];
    }

    /** The frame for a page that must come in: the lowest free one, or else the clock's victim, whose
        page is evicted first. */
    method MakeRoom() returns (f: nat)
      requires mmu.Coherent() && Inv(S(), -1, None) && ClockOK()
      modifies `pages, `hand, `lastVictim, frames, blocks, mmu`log, mmu`flat, mmu`mapping, mmu`owner, mmu.pmem, mmu.disk
      ensures mmu.Coherent() && f < frames.Length && Inv(S(), f, None) && Meanwhile(mmu.running, old(mmu.log), mmu.log)
      ensures MadeRoom(old(Now()), Now(), f)
    {
      hide Inv, Unit.Coherent, OnlyAccesses;
      NoAccesses(mmu.log);
      var free := GetNewFrame();
      if free != -1 {
        f := free;
        FreeFrameIsHole(S(), f);
        return;
      }
      ghost var s := S();
      f := SecondChance();
      Clock.NextIndex(f, frames.Length);
      ghost var s1 := S();
      BitsKeep(s, s1.frames);
      assert s1 == s.(frames := s1.frames);
      assert forall g :: 0 <= g < frames.Length ==> frames[g].pid == old(frames[g]).pid;
      SwapOut(f);
    }

    /** Service a fault at an allocated address.  A page that was out comes in, readable; a page that
        was in becomes writable.  No process's memory changes but by its own stores. */
    method Fault(pid: int, addr: int)
      requires Valid() && pid in tables && BASE <= addr < VAddr(|tables[pid]|, mmu.pageSize)
      modifies `pages, `hand, `lastVictim, `dumps, frames, blocks
      modifies mmu`log, mmu`flat, mmu`mapping, mmu`owner, mmu.pmem, mmu.disk
      ensures Valid() && Meanwhile(mmu.running, old(mmu.log), mmu.log)
      ensures tables == old(tables) && list == old(list)
      ensures FaultDone(old(Now()), Now(), KeyAt(pid, addr, mmu.pageSize))
      ensures var k := KeyAt(pid, addr, mmu.pageSize);
              && k in old(pages) && k in pages && pages[k].isvalid && Accessible(mmu.mapping, k)
              && (old(pages[k].isvalid) ==> Writable(mmu.mapping, k))
    {
      hide Inv, FaultedIn, Upgraded, Explained, ListOK, Unit.Coherent;
      PageOfAddress(S(), pid, addr);
      LiveIsFound(list, tables, pid);
      var pt := FindPageTable(pid);
      var key := GetPage(list[pt].pid, addr - addr % mmu.pageSize);
      if pages[key.value].isvalid {
        FaultOnResident(key.value);
      } else {
        FaultOnMissing(key.value);
      }
    }

    /** The branch of a page that is resident. */
    method FaultOnResident(k: Key)
      requires Valid() && k in pages && pages[k].isvalid
      modifies `pages, frames, mmu`log, mmu`flat, mmu`mapping, mmu.pmem
      ensures Valid() && Meanwhile(mmu.running, old(mmu.log), mmu.log)
      ensures Upgraded(old(S()), S(), k)
      ensures k in pages && pages[k].isvalid && Writable(mmu.mapping, k)
    {
      hide Inv, Upgraded, Explained, ListOK, Unit.Coherent;
      ghost var s := S();
      Upgrade(k);
      UpgradeKeepsTables(s, S(), k);
      AccessesExplained(blocks[..], mmu.disk[..], dumps, old(mmu.log), mmu.log, mmu.pageSize);
    }

    /** The branch of a page that is not. */
    method FaultOnMissing(k: Key)
      requires Valid() && k in pages && !pages[k].isvalid
      modifies `pages, `hand, `lastVictim, `dumps, frames, blocks
      modifies mmu`log, mmu`flat, mmu`mapping, mmu`owner, mmu.pmem, mmu.disk
      ensures Valid() && Meanwhile(mmu.running, old(mmu.log), mmu.log)
      ensures FaultedIn(old(Now()), Now(), k)
      ensures k in pages && pages[k].isvalid && Accessible(mmu.mapping, k)
    {
      hide Inv, FaultedIn, Explained, ListOK;
      ghost var w := Now();
      FaultIn(k);
      FaultKeepsTables(w, Now(), k);
      FaultExplained(w, Now(), k, dumps, old(mmu.log), mmu.log);
      dumps := DumpsAfter(w, dumps, mmu.log);
    }

    method FaultIn(k: Key)
      requires Sound() && k in pages && !pages[k].isvalid
      modifies `pages, `hand, `lastVictim, frames, blocks, mmu`log, mmu`flat, mmu`mapping, mmu`owner, mmu.pmem, mmu.disk
      ensures Sound() && Meanwhile(mmu.running, old(mmu.log), mmu.log) && k in pages
      ensures FaultedIn(old(Now()), Now(), k)
    {
      hide Inv, MadeRoom, FaultedIn;
      ghost var w := Now();
      var f := MakeRoom();
      ghost var log, w1 := mmu.log, Now();
      StillOut(w, w1, f, k);
      if FirstFree(w.s.frames, 0) == -1 {
        lastVictim := Some(f);
      }
      BringIn(k, f);
      RoomThenIn(w, w1, Now(), k, f);
      OnlyAccessesTwice(old(mmu.log), log, mmu.log);
    }

    /** pager_syslog: -1 and nothing printed exactly if some byte of the range is not allocated.  The i-th byte
        printed is the i-th behind the start of the frame recorded for its page: on a resident page, the
        process's byte at position i of the page, wherever in the page the range starts.  So the process's own
        bytes are printed if the range starts a page, stays in it, and the page is in memory. */
    method Syslog(pid: int, addr: int, len: nat) returns (r: int, printed: seq<Option<byte>>)
      requires Valid() && pid in tables
      ensures r == 0 || r == -1
      ensures r == 0 <==>
                len == 0 || (0x6000_0000 <= addr && addr + len <= 0x6000_0000 + |tables[pid]| * mmu.pageSize)
      ensures |printed| == if r == 0 then len else 0
      ensures mmu.pageSize > 0
      ensures forall i :: 0 <= i < |printed| ==> HasPage(S(), pid, addr, i) && printed[i] == Taken(S(), pid, addr, i)
      ensures forall i, f, o {:trigger printed[i], mmu.pmem[f][o]} ::
                0 <= i < |printed| && 0 <= f < mmu.pmem.Length && 0 <= o < |mmu.pmem[f]|
                && HasPage(S(), pid, addr, i)
                && f * mmu.pageSize + o == pages[KeyAt(pid, addr + i, mmu.pageSize)].frame * mmu.pageSize + i ==>
                  printed[i] == Some(mmu.pmem[f][o])
      ensures forall i ::
                0 <= i < |printed| && i < mmu.pageSize
                && HasPage(S(), pid, addr, i)
                && pages[KeyAt(pid, addr + i, mmu.pageSize)].isvalid ==>
                  printed[i] == LastValue(mmu.log, KeyAt(pid, addr + i, mmu.pageSize), i)
      ensures r == 0 && 0 < len <= mmu.pageSize && BASE <= addr && OffsetInPage(addr, mmu.pageSize) == 0
              && KeyAt(pid, addr, mmu.pageSize) in pages && pages[KeyAt(pid, addr, mmu.pageSize)].isvalid ==>
                forall i :: 0 <= i < len ==> printed[i] == LastAt(mmu.log, pid, addr + i, mmu.pageSize)
    {
      hide Inv, LastValue, Unit.Coherent, Explained, ListOK, KeyAt, Taken, PhysicalByte, VAddr, OffsetInPage, Now;
      r, printed := 0, [];
      SizeIsPositive(S());
      FrameSizes();
      assert VAddr(|tables[pid]|, mmu.pageSize) == 0x6000_0000 + |tables[pid]| * mmu.pageSize by { EndOf(pid); }
      for i := 0 to len
        invariant i == 0 || (BASE <= addr && addr + i <= VAddr(|tables[pid]|, mmu.pageSize))
        invariant |printed| == i && forall j :: 0 <= j < i ==> printed[j] == Taken(S(), pid, addr, j)
      {
        AllocatedIff(S(), pid, addr + i);
        var k := GetPage(pid, addr + i);
        if k == None {
          return -1, [];
        }
        PageAtIs(S(), pid, addr + i);
        TakenIs(S(), pid, addr, i);
        printed := printed + [PhysicalByte(mmu.pmem[..], mmu.pageSize, pages[k.value].frame, i)];
      }
      TakenIsPrinted(pid, addr, printed);
      if 0 < len <= mmu.pageSize && OffsetInPage(addr, mmu.pageSize) == 0 {
        PrintedIsOwn(pid, addr, len);
      }
    }

    lemma EndOf(pid: int)
      requires pid in tables
      ensures VAddr(|tables[pid]|, mmu.pageSize) == 0x6000_0000 + |tables[pid]| * mmu.pageSize
    {
    }

    /** What Taken means, position by position. */
    lemma TakenIsPrinted(pid: int, addr: int, printed: seq<Option<byte>>)
      requires Valid() && pid in tables
      requires |printed| == 0 || (BASE <= addr && addr + |printed| <= VAddr(|tables[pid]|, mmu.pageSize))
      requires forall i :: 0 <= i < |printed| ==> printed[i] == Taken(S(), pid, addr, i)
      ensures mmu.pageSize > 0
      ensures forall i :: 0 <= i < |printed| ==> HasPage(S(), pid, addr, i) && printed[i] == Taken(S(), pid, addr, i)
      ensures forall i, f, o {:trigger printed[i], mmu.pmem[f][o]} ::
                0 <= i < |printed| && 0 <= f < mmu.pmem.Length && 0 <= o < |mmu.pmem[f]|
                && HasPage(S(), pid, addr, i)
                && f * mmu.pageSize + o == pages[KeyAt(pid, addr + i, mmu.pageSize)].frame * mmu.pageSize + i ==>
                  printed[i] == Some(mmu.pmem[f][o])
      ensures forall i ::
                0 <= i < |printed| && i < mmu.pageSize
                && HasPage(S(), pid, addr, i)
                && pages[KeyAt(pid, addr + i, mmu.pageSize)].isvalid ==>
                  printed[i] == LastValue(mmu.log, KeyAt(pid, addr + i, mmu.pageSize), i)
    {
      hide Inv, LastValue, Explained, ListOK, FlatMemory, Flat, PhysicalByte, Taken, KeyAt, VAddr;
      SizeIsPositive(S());
      FrameSizes();
      forall i | 0 <= i < |printed|
        ensures HasPage(S(), pid, addr, i)
      {
        InTable(S(), pid, addr, |printed|, i);
      }
      forall i, f, o | 0 <= i < |printed| && 0 <= f < mmu.pmem.Length && 0 <= o < |mmu.pmem[f]|
                       && HasPage(S(), pid, addr, i)
                       && f * mmu.pageSize + o == pages[KeyAt(pid, addr + i, mmu.pageSize)].frame * mmu.pageSize + i
        ensures printed[i] == Some(mmu.pmem[f][o])
      {
        TakenAt(S(), pid, addr, i, f, o);
      }
      forall i | 0 <= i < |printed| && i < mmu.pageSize
                 && HasPage(S(), pid, addr, i)
                 && pages[KeyAt(pid, addr + i, mmu.pageSize)].isvalid
        ensures printed[i] == LastValue(mmu.log, KeyAt(pid, addr + i, mmu.pageSize), i)
      {
        TakenOnResident(S(), pid, addr, i);
        FlatIsLastValue(mmu.log, KeyAt(pid, addr + i, mmu.pageSize), i);
      }
    }

    lemma FrameSizes()
      requires mmu.Coherent()
      ensures forall f :: 0 <= f < mmu.pmem.Length ==> |mmu.pmem[f]| == mmu.pageSize
    {
    }

    lemma PrintedIsOwn(pid: int, addr: int, len: nat)
      requires Valid() && pid in tables && OffsetInPage(addr, mmu.pageSize) == 0
      requires 0 < len <= mmu.pageSize && BASE <= addr && addr + len <= VAddr(|tables[pid]|, mmu.pageSize)
      ensures KeyAt(pid, addr, mmu.pageSize) in pages && pages[KeyAt(pid, addr, mmu.pageSize)].isvalid ==>
                forall i :: 0 <= i < len ==> Taken(S(), pid, addr, i) == LastAt(mmu.log, pid, addr + i, mmu.pageSize)
    {
      hide Inv, LastValue, Explained, ListOK, FlatMemory, Flat;
      if KeyAt(pid, addr, mmu.pageSize) in pages && pages[KeyAt(pid, addr, mmu.pageSize)].isvalid {
        forall i | 0 <= i < len
          ensures Taken(S(), pid, addr, i) == LastAt(mmu.log, pid, addr + i, mmu.pageSize)
        {
          SyslogBytes(S(), pid, addr, len, i);
          FlatIsLastValue(mmu.log, KeyAt(pid, addr + i, mmu.pageSize), OffsetInPage(addr + i, mmu.pageSize));
        }
      }
    }

    /** A process has ended: what was its own is released, and its table stays in the list, dead. */
    twostate predicate Gone(pid: int)
      reads this, frames, blocks, mmu, mmu.pmem, mmu.disk
    {
      && S() == Removed(old(S()), pid) && list == WithEnded(old(list), pid)
      && mmu.log == old(mmu.log) + [Ended(pid)]
    }

    /** The process is dead: its frames and blocks are free again.  No unit operation is called. */
    method Destroy(pid: int)
      requires Valid() && pid in tables
      modifies `list, `tables, `pages, frames, blocks, mmu`log, mmu`flat, mmu`mapping, mmu`owner
      ensures Valid() && Gone(pid)
      ensures tables == old(tables) - {pid} && pages == map k | k in old(pages) && k.pid != pid :: old(pages)[k]
      ensures forall f :: 0 <= f < frames.Length ==>
                frames[f] == if old(frames[f]).pid == pid then old(frames[f]).(pid := -1) else old(frames[f])
      ensures forall b :: 0 <= b < blocks.Length ==>
                blocks[b] == if old(blocks[b]).page.Some? && old(blocks[b]).page.value.pid == pid
                             then old(blocks[b]).(page := None) else old(blocks[b])
    {
      hide Inv, Unit.Coherent, Explained, ListOK, Removed;
      ghost var s := S();
      RemovedFrames(s, pid);
      LiveIsFound(list, tables, pid);
      var pt := FindPageTable(pid);
      TearDown(list[pt].pid);
      EndExplained(s.blocks, s.disk, dumps, old(mmu.log), mmu.pageSize, blocks[..], pid);
      EndedTable(list, s.tables, pt);
      list := list[pt := TableRecord(pid, false)];
    }

    method TearDown(pid: int)
      requires Sound() && pid in tables
      modifies `tables, `pages, frames, blocks, mmu`log, mmu`flat, mmu`mapping, mmu`owner
      ensures Sound() && S() == Removed(old(S()), pid)
      ensures tables == old(tables) - {pid} && mmu.disk[..] == old(mmu.disk[..])
      ensures mmu.log == old(mmu.log) + [Ended(pid)]
    {
      hide Inv, Unit.Coherent, Removed;
      ghost var s := S();
      RemovedFrames(s, pid);
      ReleasePages(pid);
      ForgetPages(pid);
      mmu.End(pid);
      RemovedIs(s, pid, S());
      RemoveKeeps(s, pid);
    }

    /** The page table and the pages in it are gone. */
    method ForgetPages(pid: int)
      modifies `tables, `pages
      ensures tables == old(tables) - {pid} && pages == map k | k in old(pages) && k.pid != pid :: old(pages)[k]
    {
      tables := tables - {pid};
      pages := map k | k in pages && k.pid != pid :: pages[k];
    }

    method ReleasePages(pid: int)
      requires Inv(S(), -1, None) && pid in tables
      modifies frames, blocks
      ensures frames[..] == Removed(old(S()), pid).frames
      ensures blocks[..] == Removed(old(S()), pid).blocks
      ensures pid != -1
    {
      hide Inv;
      ghost var s := S();
      WithoutAll(s, pid);
      var list := tables[pid];
      var n: nat := |list|;
      while n > 0
        invariant n <= |list|
        invariant frames[..] == FramesWithout(s, pid, n) && blocks[..] == BlocksWithout(s, pid, n)
      {
        n := n - 1;
        TableEntry(s, pid, n);
        var p := pages[list[n]];
        blocks[p.block] := blocks[p.block].(page := None);
        if p.isvalid {
          frames[p.frame] := frames[p.frame].(pid := -1);
        }
      }
    }

    /** A fault as the process sees it.  Its handler ends it outside the addresses that are let through; the
        unit then destroys it.  Otherwise the pager services the fault. */
    method Segv(pid: int, addr: int) returns (handled: bool)
      requires Valid() && pid in tables
      modifies `list, `tables, `pages, `hand, `lastVictim, `dumps, frames, blocks
      modifies mmu`log, mmu`flat, mmu`mapping, mmu`owner, mmu.pmem, mmu.disk
      ensures Valid()
      ensures handled <==>
                && 0x6000_0000 <= addr <= 0x600F_FFFF
                && addr < 0x6000_0000 + |old(tables)[pid]| * mmu.pageSize
      ensures !handled ==> Gone(pid) && hand == old(hand) && lastVictim == old(lastVictim)
      ensures handled ==>
                && list == old(list) && tables == old(tables) && Meanwhile(mmu.running, old(mmu.log), mmu.log)
                && FaultDone(old(Now()), Now(), KeyAt(pid, addr, mmu.pageSize))
      ensures handled ==>
                var k := KeyAt(pid, addr, mmu.pageSize);
                && k in old(pages) && k in pages && k in mmu.mapping && pages[k].isvalid
                && 0 <= pages[k].frame < frames.Length && frames[pages[k].frame].accessed
                && (old(pages[k].isvalid) ==> mmu.mapping[k].prot == ReadWrite && pages[k].dirty)
                && (!old(pages[k].isvalid) ==> mmu.mapping[k].prot == ReadOnly && !pages[k].dirty)
                && GainedOnly(old(mmu.mapping), mmu.mapping, k)
    {
      hide Inv, Explained, ListOK, FaultDone, Unit.Coherent, Removed;
      if addr < BASE || MAXADDR < addr {
        Destroy(pid);
        return false;
      }
      if VAddr(|tables[pid]|, mmu.pageSize) <= addr {
        Destroy(pid);
        return false;
      }
      ghost var w := Now();
      Fault(pid, addr);
      FaultLeaves(w, Now(), KeyAt(pid, addr, mmu.pageSize));
      return true;
    }

    /** A load instruction.  If no other request is served between its fault and its retry, it needs at most
        one fault, and gets the last value stored there; or else the process is ended. */
    method LoadByte(pid: int, addr: int) returns (v: Option<byte>, faults: nat)
      requires Valid() && pid in tables
      modifies `list, `tables, `pages, `hand, `lastVictim, `dumps, frames, blocks
      modifies mmu`log, mmu`flat, mmu`mapping, mmu`owner, mmu.pmem, mmu.disk
      ensures Valid() && faults <= 1 && mmu.pageSize > 0
      ensures v.Some? <==> CanLoad(old(S()), pid, addr)
      ensures v.Some? <==>
                && 0x6000_0000 <= addr
                && (Accessible(old(mmu.mapping), KeyAt(pid, addr, mmu.pageSize))
                    || (addr <= 0x600F_FFFF && addr < 0x6000_0000 + |old(tables)[pid]| * mmu.pageSize))
      ensures v == None ==> Gone(pid)
      ensures v.Some? ==>
                && tables == old(tables) && list == old(list)
                && GainedOnly(old(mmu.mapping), mmu.mapping, KeyAt(pid, addr, mmu.pageSize))
                && LoadedLast(mmu.running, old(mmu.log), mmu.log, KeyAt(pid, addr, mmu.pageSize),
                              OffsetInPage(addr, mmu.pageSize), v.value)
      ensures v.Some? && Accessible(old(mmu.mapping), KeyAt(pid, addr, mmu.pageSize)) ==>
                faults == 0 && Now() == old(Now()) && mmu.log[..|mmu.log| - 1] == old(mmu.log)
      ensures v.Some? && !Accessible(old(mmu.mapping), KeyAt(pid, addr, mmu.pageSize)) ==>
                faults == 1 && FaultDone(old(Now()), Now(), KeyAt(pid, addr, mmu.pageSize))
      ensures v == None ==> faults == 1
    {
      hide Inv, Explained, ListOK, Meanwhile, FaultDone, Removed;
      SizeIsPositive(S());
      faults := 0;
      assert Meanwhile(mmu.running, mmu.log, mmu.log) by { NothingMeanwhile(mmu.running, mmu.log); }
      if addr < BASE || !Accessible(mmu.mapping, KeyAt(pid, addr, mmu.pageSize)) {
        faults := 1;
        var handled := Segv(pid, addr);
        if !handled {
          return None, faults;
        }
      }
      var byte := LoadMapped(KeyAt(pid, addr, mmu.pageSize), OffsetInPage(addr, mmu.pageSize));
      v := Some(byte);
    }

    /** The load itself. */
    method LoadMapped(k: Key, o: nat) returns (v: byte)
      requires Valid() && Accessible(mmu.mapping, k) && o < mmu.pageSize
      modifies mmu`log, mmu`flat
      ensures Valid() && Now() == old(Now()) && S() == old(S()) && mmu.log == old(mmu.log) + [Loaded(k, o, v)]
      ensures LastValue(old(mmu.log), k, o) == Some(v) && mmu.log[..|mmu.log| - 1] == old(mmu.log)
    {
      hide Inv, Explained, ListOK, LastValue;
      ghost var s, log := S(), mmu.log;
      v := mmu.Load(k, o);
      assert S() == s && mmu.log[..|mmu.log| - 1] == log;
      OneMoreExplained(blocks[..], mmu.disk[..], dumps, log, Loaded(k, o, v), mmu.pageSize);
    }

    /** A store instruction.  If no other request is served between its faults and its retries, it needs at
        most two faults; or else the process is ended. */
    method StoreByte(pid: int, addr: int, v: byte) returns (ok: bool, faults: nat)
      requires Valid() && pid in tables
      modifies `list, `tables, `pages, `hand, `lastVictim, `dumps, frames, blocks
      modifies mmu`log, mmu`flat, mmu`mapping, mmu`owner, mmu.pmem, mmu.disk
      ensures Valid() && faults <= 2 && mmu.pageSize > 0
      ensures ok <==> CanStore(old(S()), pid, addr)
      ensures ok <==>
                && 0x6000_0000 <= addr
                && (Writable(old(mmu.mapping), KeyAt(pid, addr, mmu.pageSize))
                    || (addr <= 0x600F_FFFF && addr < 0x6000_0000 + |old(tables)[pid]| * mmu.pageSize))
      ensures !ok ==> Gone(pid)
      ensures ok ==>
                && tables == old(tables) && list == old(list)
                && GainedOnly(old(mmu.mapping), mmu.mapping, KeyAt(pid, addr, mmu.pageSize))
                && StoredLast(mmu.running, old(mmu.log), mmu.log, KeyAt(pid, addr, mmu.pageSize),
                              OffsetInPage(addr, mmu.pageSize), v)
      ensures ok && old(mmu.pageSize > 0 && Writable(mmu.mapping, KeyAt(pid, addr, mmu.pageSize))) ==>
                faults == 0 && Now() == old(Now()).(s := old(S()).(flat := mmu.flat, pmem := mmu.pmem[..]))
      ensures ok && !old(mmu.pageSize > 0 && Writable(mmu.mapping, KeyAt(pid, addr, mmu.pageSize))) ==>
                var k := KeyAt(pid, addr, mmu.pageSize);
                && k in old(pages) && faults == (if old(pages[k].isvalid) then 1 else 2)
                && MadeWritable(old(Now()), Now(), k, faults)
      ensures !ok ==> faults == 1
    {
      hide Inv, Explained, ListOK, Meanwhile, Removed, MadeWritable, Unit.Coherent, KeyAt, OffsetInPage, GainedOnly,
           Handled;
      SizeIsPositive(S());
      CanStoreIff(S(), pid, addr);
      ok, faults := FaultUntilWritable(pid, addr);
      if ok {
        ghost var w, k := Now(), KeyAt(pid, addr, mmu.pageSize);
        HowManyFaults(old(Now()), w, k, faults);
        StoreMapped(KeyAt(pid, addr, mmu.pageSize), OffsetInPage(addr, mmu.pageSize), v);
        assert Now() == w.(s := w.s.(flat := mmu.flat, pmem := mmu.pmem[..]));
        WritableAllTheSame(old(Now()), w, k, faults, mmu.flat, mmu.pmem[..]);
      }
    }

    /** The store itself. */
    method StoreMapped(k: Key, o: nat, v: byte)
      requires Valid() && Writable(mmu.mapping, k) && o < mmu.pageSize
      modifies mmu`log, mmu`flat, mmu.pmem
      ensures Valid() && S() == old(S()).(flat := mmu.flat, pmem := mmu.pmem[..])
      ensures hand == old(hand) && lastVictim == old(lastVictim)
      ensures mmu.log == old(mmu.log) + [Stored(k, o, v)] && mmu.log[..|mmu.log| - 1] == old(mmu.log)
    {
      hide Inv, Explained, ListOK, Meanwhile, Served;
      ghost var log, s, a := mmu.log, S(), mmu.Now().(running := true);
      assert Accessible(mmu.mapping, k);
      mmu.Store(k, o, v);
      StoreIsServed(a, mmu.Now().(running := true), mmu.mapping, k, o, v);
      SameProtections(s, None);
      ServedKeeps(s, a, mmu.Now().(running := true), mmu.mapping, -1, None, {});
      assert S() == s.(mapping := mmu.mapping, flat := mmu.flat, pmem := mmu.pmem[..]);
      assert mmu.log[..|mmu.log| - 1] == log;
      OneMoreExplained(blocks[..], mmu.disk[..], dumps, log, Stored(k, o, v), mmu.pageSize);
    }

    /** Faults until a store may go on.  The handler can end the process only at the first of them. */
    method FaultUntilWritable(pid: int, addr: int) returns (ok: bool, faults: nat)
      requires Valid() && pid in tables && mmu.pageSize > 0
      modifies `list, `tables, `pages, `hand, `lastVictim, `dumps, frames, blocks
      modifies mmu`log, mmu`flat, mmu`mapping, mmu`owner, mmu.pmem, mmu.disk
      ensures Valid() && faults <= 2
      ensures ok <==> CanStore(old(S()), pid, addr)
      ensures !ok ==> Gone(pid)
      ensures ok ==>
                && tables == old(tables) && list == old(list) && Meanwhile(mmu.running, old(mmu.log), mmu.log)
                && Writable(mmu.mapping, KeyAt(pid, addr, mmu.pageSize))
                && GainedOnly(old(mmu.mapping), mmu.mapping, KeyAt(pid, addr, mmu.pageSize))
      ensures !ok ==> faults == 1
      ensures ok ==>
                && MadeWritable(old(Now()), Now(), KeyAt(pid, addr, mmu.pageSize), faults)
                && (faults == 0 ==> mmu.log == old(mmu.log))
    {
      hide Inv, OnlyAccesses, Explained, ListOK, FaultDone, Removed, Unit.Coherent;
      NoAccesses(mmu.log);
      ok, faults := true, 0;
      ghost var w := Now();
      if addr < BASE || !Writable(mmu.mapping, KeyAt(pid, addr, mmu.pageSize)) {
        faults := 1;
        ok := Segv(pid, addr);
        if !ok {
          return;
        }
        ghost var w1 := Now();
        if !Writable(mmu.mapping, KeyAt(pid, addr, mmu.pageSize)) {
          ghost var log := mmu.log;
          ok := Segv(pid, addr);
          faults := 2;
          OnlyAccessesTwice(old(mmu.log), log, mmu.log);
        }
        MadeWritableBy(w, w1, Now(), KeyAt(pid, addr, mmu.pageSize), faults);
      }
    }

    /** Processes run without needing the pager. */
    method Idle()
      requires Valid()
      modifies mmu`log, mmu`flat, mmu.pmem
      ensures Valid() && Meanwhile(mmu.running, old(mmu.log), mmu.log)
      ensures S() == old(S()).(flat := mmu.flat, pmem := mmu.pmem[..])
    {
      hide Inv, Explained, ListOK;
      ghost var s, a := S(), mmu.Now();
      mmu.Users();
      SameProtections(s, None);
      ServedKeeps(s, a, mmu.Now(), mmu.mapping, -1, None, {});
      assert S() == s.(mapping := mmu.mapping, flat := mmu.flat, pmem := mmu.pmem[..]);
      AccessesExplained(blocks[..], mmu.disk[..], dumps, old(mmu.log), mmu.log, mmu.pageSize);
    }
  }
}
