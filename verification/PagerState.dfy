/** The state of the demand pager: page tables over a small number of frames and a larger number of disk blocks.

    A Page record is named by its process and its position in the process's page table, which is how the
    frame table, the block table and the page tables point at it. */
module PagerState {
  import opened Arith
  import opened Common
  import opened Mmu

  /** UVM_BASEADDR */
  const BASE := 0x6000_0000

  datatype Page = Page(isvalid: bool, frame: int, block: int, dirty: bool, vaddr: int)

  /** pid == -1 marks a free frame. */
  datatype FrameNode = FrameNode(pid: int, accessed: bool, page: Option<Key>)

  datatype BlockNode = BlockNode(used: bool, page: Option<Key>)

  // ---------------------------------------------------------------------------------------------
  // Addresses
  // ---------------------------------------------------------------------------------------------

  function VAddr(i: nat, size: nat): int {
    BASE + i * size
  }

  /** An address lies in the i-th page exactly if dividing by the page size says so. */
  lemma InPage(a: int, i: nat, size: nat)
    requires size > 0
    ensures VAddr(i, size) <= a < VAddr(i, size) + size <==> BASE <= a && (a - BASE) / size == i
  {
    var q := (a - BASE) / size;
    assert a - BASE == q * size + (a - BASE) % size;
    assert (i + 1) * size == i * size + size && (q + 1) * size == q * size + size;
    if q < i { MulGap(q, i, size); }
    if i < q { MulGap(i, q, size); }
  }

  /** Rounding an address down to a multiple of the page size gives its page's first address. */
  lemma RoundDown(a: int, size: nat)
    requires size > 0 && BASE % size == 0 && BASE <= a
    ensures a - a % size == VAddr((a - BASE) / size, size)
  {
    var q, b := (a - BASE) / size, BASE / size;
    assert a - BASE == q * size + (a - BASE) % size;
    assert BASE == b * size;
    assert a == (q + b) * size + (a - BASE) % size;
    DivModUnique(a, size, q + b, (a - BASE) % size);
  }

  /** The page of an address, allocated or not. */
  function KeyAt(pid: int, addr: int, size: nat): Key
    requires size > 0 && BASE <= addr
  {
    Key(pid, (addr - BASE) / size)
  }

  /** The page that holds an address: a process's pages are contiguous from the base on. */
  ghost function PageAt(tables: map<int, seq<Key>>, size: nat, pid: int, addr: int): Option<Key>
    requires pid in tables && size > 0
  {
    if BASE <= addr && (addr - BASE) / size < |tables[pid]|
    then Some(tables[pid][(addr - BASE) / size]) else None
  }

  // ---------------------------------------------------------------------------------------------
  // The paging invariant
  // ---------------------------------------------------------------------------------------------

  /** A snapshot of the pager and of the unit below it. */
  datatype State = State(
    frames: seq<FrameNode>, blocks: seq<BlockNode>, tables: map<int, seq<Key>>, pages: map<Key, Page>,
    size: nat, mapping: map<Key, Mapping>, owner: map<nat, Key>, flat: map<Key, Bytes>,
    pmem: seq<Bytes>, disk: seq<Bytes>)

  /** What a page's block stands for while the page is not resident. */
  ghost function Backing(s: State, p: Page): Bytes {
    if 0 <= p.block < |s.blocks| == |s.disk| && s.blocks[p.block].used then s.disk[p.block] else Filled(s.size)
  }

  /** Page tables list consecutive pages from the base on, and nothing else has memory. */
  ghost predicate TablesOK(s: State) {
    && s.size > 0 && BASE % s.size == 0 && -1 !in s.tables
    && (forall pid, i :: pid in s.tables && 0 <= i < |s.tables[pid]| ==>
                           s.tables[pid][i] == Key(pid, i) && Key(pid, i) in s.pages)
    && (forall k :: k in s.pages ==>
                      && k.pid in s.tables && k.index < |s.tables[k.pid]|
                      && s.pages[k].vaddr == VAddr(k.index, s.size))
    && s.flat.Keys == s.pages.Keys
  }

  /** Pages and owned blocks point at each other. */
  ghost predicate BlocksOK(s: State) {
    && |s.blocks| == |s.disk|
    && (forall k :: k in s.pages ==> 0 <= s.pages[k].block < |s.blocks| && s.blocks[s.pages[k].block].page == Some(k))
    && (forall b :: 0 <= b < |s.blocks| && s.blocks[b].page.Some? ==>
                      s.blocks[b].page.value in s.pages && s.pages[s.blocks[b].page.value].block == b)
  }

  /** A resident page is in a frame that holds its contents; while it is clean, its process cannot store
      to it and the frame equals its backing. */
  ghost predicate Resident(s: State, k: Key)
    requires k in s.pages
  {
    var p := s.pages[k];
    && 0 <= p.frame < |s.frames| == |s.pmem|
    && s.frames[p.frame].page == Some(k) && s.frames[p.frame].pid == k.pid
    && p.frame in s.owner && s.owner[p.frame] == k
    && k in s.mapping && s.mapping[k].frame == p.frame
    && (!p.dirty ==> !Writable(s.mapping, k) && s.pmem[p.frame] == Backing(s, p))
  }

  /** A page that is not resident is out of reach, and its backing is its contents. */
  ghost predicate SwappedOut(s: State, k: Key)
    requires k in s.pages
  {
    && !Accessible(s.mapping, k)
    && k in s.flat && s.flat[k] == Backing(s, s.pages[k])
  }

  /** All pages, but for one that may be on its way into a frame. */
  ghost predicate PagesOK(s: State, incoming: Option<Key>) {
    forall k :: k in s.pages ==> PageOK(s, incoming, k)
  }

  ghost predicate PageOK(s: State, incoming: Option<Key>, k: Key)
    requires k in s.pages
  {
    if s.pages[k].isvalid && incoming != Some(k) then Resident(s, k) else SwappedOut(s, k)
  }

  /** All frames, but for one that may be on its way to a page. */
  ghost predicate FramesOK(s: State, hole: int) {
    && |s.frames| == |s.pmem|
    && (forall f :: f in s.owner ==> f < |s.frames| && f != hole && s.frames[f].pid != -1)
    && (forall f :: 0 <= f < |s.frames| && f != hole && s.frames[f].pid != -1 ==> OccupiedOK(s, f))
  }

  ghost predicate OccupiedOK(s: State, f: nat)
    requires f < |s.frames|
  {
    && s.frames[f].page.Some? && s.frames[f].page.value in s.pages
    && s.frames[f].page.value.pid == s.frames[f].pid
    && s.pages[s.frames[f].page.value].isvalid && s.pages[s.frames[f].page.value].frame == f
    && f in s.owner && s.owner[f] == s.frames[f].page.value
  }

  ghost predicate Inv(s: State, hole: int, incoming: Option<Key>) {
    TablesOK(s) && BlocksOK(s) && PagesOK(s, incoming) && FramesOK(s, hole)
  }

  predicate Covers(p: Page, addr: int, size: nat) {
    p.vaddr <= addr && addr < p.vaddr + size
  }

  lemma CoversByPosition(s: State, pid: int, addr: int, i: nat)
    requires TablesOK(s) && pid in s.tables && i < |s.tables[pid]|
    ensures Covers(s.pages[s.tables[pid][i]], addr, s.size) <==> BASE <= addr && (addr - BASE) / s.size == i
  {
    InPage(addr, i, s.size);
    assert s.tables[pid][i] == Key(pid, i);
  }

  lemma NotCovered(s: State, pid: int, addr: int)
    requires TablesOK(s) && pid in s.tables
    requires forall j :: 0 <= j < |s.tables[pid]| ==> !Covers(s.pages[s.tables[pid][j]], addr, s.size)
    ensures PageAt(s.tables, s.size, pid, addr) == None
  {
    if BASE <= addr && (addr - BASE) / s.size < |s.tables[pid]| {
      CoversByPosition(s, pid, addr, (addr - BASE) / s.size);
    }
  }

  // ---------------------------------------------------------------------------------------------
  // Steps that keep it
  // ---------------------------------------------------------------------------------------------

  /** The protections of pages changed at most like this: frames stay, no swapped-out page becomes
      reachable and no clean page becomes writable. */
  ghost predicate Reprotected(s: State, m': map<Key, Mapping>, incoming: Option<Key>) {
    && (forall k :: k in s.mapping ==> k in m' && m'[k].frame == s.mapping[k].frame)
    && (forall k :: k in s.pages && Accessible(m', k) && !Accessible(s.mapping, k) ==>
                      s.pages[k].isvalid && incoming != Some(k))
    && (forall k :: k in s.pages && Writable(m', k) && !Writable(s.mapping, k) ==>
                      s.pages[k].isvalid && s.pages[k].dirty && incoming != Some(k))
  }

  /** Running processes, under such a change of protections, keep every page. */
  lemma ServedKeeps(s: State, a: View, b: View, m': map<Key, Mapping>, hole: int, incoming: Option<Key>,
                    filled: set<nat>)
    requires Inv(s, hole, incoming) && Reaches(s.mapping, s.owner) && Reaches(m', s.owner)
    requires a.flat == s.flat && a.pmem == s.pmem && forall f :: f in filled ==> f == hole
    requires Served(a, b, s.mapping, m', filled) && Reprotected(s, m', incoming)
    ensures Inv(s.(mapping := m', flat := b.flat, pmem := b.pmem), hole, incoming)
  {
    var s' := s.(mapping := m', flat := b.flat, pmem := b.pmem);
    assert TablesOK(s') && BlocksOK(s');
    assert FramesOK(s', hole) by {
      forall f | 0 <= f < |s'.frames| && f != hole && s'.frames[f].pid != -1 ensures OccupiedOK(s', f) {
        assert OccupiedOK(s, f);
      }
    }
    forall k | k in s.pages
      ensures PageOK(s', incoming, k)
    {
      ServedKeepsPage(s, a, b, m', hole, incoming, filled, k);
    }
  }

  lemma ServedKeepsPage(s: State, a: View, b: View, m': map<Key, Mapping>, hole: int, incoming: Option<Key>,
                        filled: set<nat>, k: Key)
    requires PagesOK(s, incoming) && FramesOK(s, hole) && k in s.pages
    requires Reaches(s.mapping, s.owner) && Reaches(m', s.owner)
    requires a.flat == s.flat && a.pmem == s.pmem && forall f :: f in filled ==> f == hole
    requires Served(a, b, s.mapping, m', filled) && Reprotected(s, m', incoming)
    ensures var s' := s.(mapping := m', flat := b.flat, pmem := b.pmem);
            PageOK(s', incoming, k)
  {
    var p := s.pages[k];
    var s' := s.(mapping := m', flat := b.flat, pmem := b.pmem);
    assert PageOK(s, incoming, k);
    assert Backing(s', p) == Backing(s, p);
    if p.isvalid && incoming != Some(k) {
      assert Resident(s, k);
      OwnerDecides(s.mapping, s.owner, p.frame);
      OwnerDecides(m', s.owner, p.frame);
    } else {
      assert SwappedOut(s, k);
    }
  }

  /** The page sits in the frame its process has it mapped to. */
  predicate Held(m: map<Key, Mapping>, owner: map<nat, Key>, k: Key) {
    k in m && m[k].frame in owner && owner[m[k].frame] == k
  }

  /** The pages held in the first n frames have lost their protections. */
  function Revoked(m: map<Key, Mapping>, owner: map<nat, Key>, n: nat): map<Key, Mapping> {
    map k | k in m :: if Held(m, owner, k) && m[k].frame < n then m[k].(prot := NoAccess) else m[k]
  }

  lemma RevokeNext(m: map<Key, Mapping>, owner: map<nat, Key>, n: nat, k: Key)
    requires n in owner && owner[n] == k && k in m && m[k].frame == n
    ensures Revoked(m, owner, n)[k := Revoked(m, owner, n)[k].(prot := NoAccess)] == Revoked(m, owner, n + 1)
  {
  }

  lemma RevokeReprotects(s: State, m: map<Key, Mapping>, k: Key, incoming: Option<Key>)
    requires m == s.mapping && k in m && Reaches(m, s.owner)
    ensures Reprotected(s, m[k := m[k].(prot := NoAccess)], incoming)
    ensures Reaches(m[k := m[k].(prot := NoAccess)], s.owner)
  {
    var m' := m[k := m[k].(prot := NoAccess)];
    forall q | Accessible(m', q) ensures m'[q].frame in s.owner && s.owner[m'[q].frame] == q {
      assert Accessible(m, q);
    }
  }

  /** The page in an occupied frame. */
  lemma InFrame(s: State, f: nat)
    requires Inv(s, -1, None) && f < |s.frames| && s.frames[f].pid != -1
    ensures |s.frames| == |s.pmem| && |s.blocks| == |s.disk|
    ensures s.frames[f].page.Some? && s.frames[f].page.value in s.pages && s.frames[f].page.value.pid != -1
    ensures var k := s.frames[f].page.value;
            && s.pages[k].isvalid && s.pages[k].frame == f && 0 <= s.pages[k].block < |s.blocks|
            && f in s.owner && s.owner[f] == k
            && k in s.mapping && s.mapping[k].frame == f
  {
    assert OccupiedOK(s, f);
    assert PageOK(s, None, s.frames[f].page.value);
  }

  /** Once the victim's process cannot reach it, nobody can store to the victim's frame, and the frame
      still holds the victim's contents. */
  lemma VictimIsSettled(s: State, f: nat)
    requires Inv(s, -1, None) && f < |s.frames| && s.frames[f].pid != -1 && Reaches(s.mapping, s.owner)
    requires s.frames[f].page.Some? ==> !Accessible(s.mapping, s.frames[f].page.value)
    ensures !FrameWritable(s.mapping, f)
  {
    InFrame(s, f);
    OwnerDecides(s.mapping, s.owner, f);
  }

  /** Dropping the victim, with processes still running, keeps the invariant around the hole. */
  lemma DropServedKeeps(s: State, f: nat, a: View, b: View)
    requires Inv(s, -1, None) && f < |s.frames| && s.frames[f].pid != -1 && Reaches(s.mapping, s.owner)
    requires s.frames[f].page.Some? && !Accessible(s.mapping, s.frames[f].page.value)
    requires s.frames[f].page.value in s.flat && s.flat[s.frames[f].page.value] == s.pmem[f]
    requires a.flat == s.flat && a.pmem == s.pmem && Served(a, b, s.mapping, s.mapping, {})
    ensures s.frames[f].page.value in s.pages && 0 <= s.pages[s.frames[f].page.value].block < |s.blocks| == |s.disk|
    ensures |s.frames| == |s.pmem|
    ensures Inv(Dropped(s, f).(flat := b.flat, pmem := b.pmem), f, None)
  {
    InFrame(s, f);
    DropKeeps(s, f);
    var d := Dropped(s, f);
    assert Reaches(d.mapping, d.owner) by {
      forall k | Accessible(d.mapping, k) ensures d.mapping[k].frame in d.owner && d.owner[d.mapping[k].frame] == k {
      }
    }
    SameProtections(d, None);
    ServedKeeps(d, a, b, d.mapping, f, None, {});
    assert d.(mapping := d.mapping, flat := b.flat, pmem := b.pmem) == d.(flat := b.flat, pmem := b.pmem);
  }

  lemma SameProtections(s: State, incoming: Option<Key>)
    ensures Reprotected(s, s.mapping, incoming)
  {
  }

  /** What an eviction does to the protections: the victim is out of reach, and if the victim is in
      frame 0, so is every page in every frame. */
  function EvictedMapping(s: State, f: nat, v: Key): map<Key, Mapping>
    requires v in s.mapping
  {
    var m := if f == 0 then Revoked(s.mapping, s.owner, |s.frames|) else s.mapping;
    m[v := m[v].(prot := NoAccess)]
  }

  /** A victim page that is out of reach leaves its frame, which becomes a hole; a dirty one leaves a copy
      in its block. */
  ghost function Dropped(s: State, f: nat): State
    requires f < |s.frames| == |s.pmem| && s.frames[f].page.Some? && s.frames[f].page.value in s.pages
    requires var p := s.pages[s.frames[f].page.value]; 0 <= p.block < |s.blocks| == |s.disk|
  {
    var v := s.frames[f].page.value;
    var p := s.pages[v];
    s.(pages := s.pages[v := p.(isvalid := false)],
       blocks := if p.dirty then s.blocks[p.block := s.blocks[p.block].(used := true)] else s.blocks,
       disk := if p.dirty then s.disk[p.block := s.pmem[f]] else s.disk,
       owner := map g | g in s.owner && g != f :: s.owner[g])
  }

  lemma DropKeeps(s: State, f: nat)
    requires Inv(s, -1, None) && f < |s.frames| && s.frames[f].pid != -1
    requires !Accessible(s.mapping, s.frames[f].page.value) && s.flat[s.frames[f].page.value] == s.pmem[f]
    ensures Inv(Dropped(s, f), f, None)
  {
    assert OccupiedOK(s, f);
    var s' := Dropped(s, f);
    DropKeepsTables(s, f);
    DropKeepsFrames(s, f);
    forall k | k in s'.pages ensures PageOK(s', None, k) {
      DropKeepsPage(s, f, k);
    }
  }

  lemma DropKeepsTables(s: State, f: nat)
    requires TablesOK(s) && BlocksOK(s) && f < |s.frames| == |s.pmem|
    requires s.frames[f].page.Some? && s.frames[f].page.value in s.pages
    ensures TablesOK(Dropped(s, f)) && BlocksOK(Dropped(s, f))
  {
    var s' := Dropped(s, f);
    assert s'.pages.Keys == s.pages.Keys;
    DropKeepsBlocks(s, f);
  }

  lemma DropKeepsBlocks(s: State, f: nat)
    requires BlocksOK(s) && f < |s.frames| == |s.pmem|
    requires s.frames[f].page.Some? && s.frames[f].page.value in s.pages
    ensures BlocksOK(Dropped(s, f))
  {
    var s' := Dropped(s, f);
    assert forall b :: 0 <= b < |s.blocks| ==> s'.blocks[b].page == s.blocks[b].page;
    assert forall k :: k in s.pages ==> k in s'.pages && s'.pages[k].block == s.pages[k].block;
  }

  lemma DropKeepsFrames(s: State, f: nat)
    requires Inv(s, -1, None) && f < |s.frames| && s.frames[f].pid != -1
    ensures FramesOK(Dropped(s, f), f)
  {
    assert OccupiedOK(s, f);
    var s' := Dropped(s, f);
    forall g | 0 <= g < |s'.frames| && g != f && s'.frames[g].pid != -1 ensures OccupiedOK(s', g) {
      assert OccupiedOK(s, g);
    }
  }

  lemma DropKeepsPage(s: State, f: nat, k: Key)
    requires Inv(s, -1, None) && f < |s.frames| && s.frames[f].pid != -1 && k in s.pages
    requires !Accessible(s.mapping, s.frames[f].page.value) && s.flat[s.frames[f].page.value] == s.pmem[f]
    ensures var s' := Dropped(s, f); PageOK(s', None, k)
  {
    hide Inv, PageOK;
    InFrame(s, f);
    PageIsOK(s, k);
    if k != s.frames[f].page.value {
      hide BlocksOK;
      DropKeepsOther(s, f, k);
    } else {
      DropPutsOut(s, f, k);
    }
  }

  lemma PageIsOK(s: State, k: Key)
    requires Inv(s, -1, None) && k in s.pages
    ensures PageOK(s, None, k) && BlocksOK(s) && k in s.flat
    ensures s.pages[k].isvalid ==> Resident(s, k)
  {
  }

  lemma DropPutsOut(s: State, f: nat, v: Key)
    requires BlocksOK(s) && f < |s.frames| == |s.pmem| && s.frames[f].page == Some(v) && v in s.pages
    requires Resident(s, v) && s.pages[v].frame == f
    requires !Accessible(s.mapping, v) && v in s.flat && s.flat[v] == s.pmem[f]
    ensures PageOK(Dropped(s, f), None, v)
  {
  }

  lemma DropKeepsOther(s: State, f: nat, k: Key)
    requires BlocksOK(s) && f < |s.frames| == |s.pmem| && s.frames[f].page.Some? && k in s.pages && PageOK(s, None, k)
    requires s.frames[f].page.value in s.pages && k != s.frames[f].page.value
    ensures PageOK(Dropped(s, f), None, k)
  {
    var v := s.frames[f].page.value;
    assert s.pages[k].block != s.pages[v].block;
    assert Backing(Dropped(s, f), s.pages[k]) == Backing(s, s.pages[k]);
    hide Backing;
  }

  /** A swapped-out page claims a hole, which its contents are about to enter. */
  ghost function Claimed(s: State, f: nat, k: Key): State
    requires f < |s.frames| && k in s.pages
  {
    s.(frames := s.frames[f := FrameNode(k.pid, true, Some(k))],
       pages := s.pages[k := s.pages[k].(isvalid := true, frame := f, dirty := false)])
  }

  lemma ClaimKeeps(s: State, f: nat, k: Key)
    requires Inv(s, f, None) && f < |s.frames| && k in s.pages && !s.pages[k].isvalid
    ensures Inv(Claimed(s, f, k), f, Some(k)) && k !in s.owner.Values && f !in s.owner
  {
    var s' := Claimed(s, f, k);
    ClaimKeepsTables(s, f, k);
    ClaimKeepsFrames(s, f, k);
    forall j | j in s'.pages ensures PageOK(s', Some(k), j) {
      ClaimKeepsPage(s, f, k, j);
    }
  }

  lemma ClaimKeepsTables(s: State, f: nat, k: Key)
    requires TablesOK(s) && BlocksOK(s) && f < |s.frames| && k in s.pages
    ensures TablesOK(Claimed(s, f, k)) && BlocksOK(Claimed(s, f, k))
  {
    hide BlocksOK;
    ClaimKeepsBlocks(s, f, k);
  }

  lemma ClaimKeepsBlocks(s: State, f: nat, k: Key)
    requires BlocksOK(s) && f < |s.frames| && k in s.pages
    ensures BlocksOK(Claimed(s, f, k))
  {
  }

  lemma ClaimKeepsFrames(s: State, f: nat, k: Key)
    requires FramesOK(s, f) && f < |s.frames| && k in s.pages && !s.pages[k].isvalid
    ensures FramesOK(Claimed(s, f, k), f) && k !in s.owner.Values
  {
    var s' := Claimed(s, f, k);
    forall g | 0 <= g < |s'.frames| && g != f && s'.frames[g].pid != -1 ensures OccupiedOK(s', g) {
      assert OccupiedOK(s, g);
    }
    forall g | g in s.owner ensures s.owner[g] != k {
      assert OccupiedOK(s, g);
    }
  }

  lemma ClaimKeepsPage(s: State, f: nat, k: Key, j: Key)
    requires Inv(s, f, None) && f < |s.frames| && k in s.pages && !s.pages[k].isvalid && j in s.pages
    ensures PageOK(Claimed(s, f, k), Some(k), j)
  {
    assert PageOK(s, None, j);
    assert Backing(Claimed(s, f, k), s.pages[j]) == Backing(s, s.pages[j]);
  }

  /** Page k has been mapped to frame f, and processes have been running. */
  ghost function Installed(s: State, b: View, f: nat, k: Key, prot: Prot): State {
    s.(mapping := s.mapping[k := Mapping(f, prot)], owner := s.owner[f := k], flat := b.flat, pmem := b.pmem)
  }

  /** The page is in its frame and gets mapped there. */
  lemma InstallKeeps(s: State, a: View, b: View, f: nat, k: Key, prot: Prot)
    requires Inv(s, f, Some(k)) && k in s.pages && k.pid != -1 && prot != ReadWrite
    requires f < |s.frames| && s.frames[f] == FrameNode(k.pid, true, Some(k))
    requires s.pages[k].isvalid && s.pages[k].frame == f && !s.pages[k].dirty && s.pmem[f] == Backing(s, s.pages[k])
    requires Reaches(s.mapping, s.owner) && a.flat == s.flat && a.pmem == s.pmem
    requires Served(a, b, s.mapping, s.mapping[k := Mapping(f, prot)], {})
    ensures Inv(Installed(s, b, f, k, prot), -1, None)
  {
    var s' := Installed(s, b, f, k, prot);
    InstallKeepsTables(s, a, b, f, k, prot);
    InstallKeepsFrames(s, a, b, f, k, prot);
    hide TablesOK, BlocksOK, FramesOK, PageOK, Served, Reaches, Backing;
    forall j | j in s'.pages ensures PageOK(s', None, j) {
      InstallKeepsPage(s, a, b, f, k, prot, j);
    }
  }

  lemma InstallKeepsTables(s: State, a: View, b: View, f: nat, k: Key, prot: Prot)
    requires TablesOK(s) && BlocksOK(s) && a.flat == s.flat
    requires Served(a, b, s.mapping, s.mapping[k := Mapping(f, prot)], {})
    ensures var s' := Installed(s, b, f, k, prot); TablesOK(s') && BlocksOK(s')
  {
    hide OnlyAccesses;
  }

  lemma InstallKeepsFrames(s: State, a: View, b: View, f: nat, k: Key, prot: Prot)
    requires FramesOK(s, f) && k in s.pages && k.pid != -1
    requires f < |s.frames| && s.frames[f] == FrameNode(k.pid, true, Some(k))
    requires s.pages[k].isvalid && s.pages[k].frame == f && a.pmem == s.pmem
    requires Served(a, b, s.mapping, s.mapping[k := Mapping(f, prot)], {})
    ensures var s' := Installed(s, b, f, k, prot); FramesOK(s', -1)
  {
    hide OnlyAccesses;
    var s' := Installed(s, b, f, k, prot);
    forall g | 0 <= g < |s'.frames| && s'.frames[g].pid != -1 ensures OccupiedOK(s', g) {
      assert g != f ==> OccupiedOK(s, g);
    }
  }

  lemma InstallKeepsPage(s: State, a: View, b: View, f: nat, k: Key, prot: Prot, j: Key)
    requires FramesOK(s, f) && PagesOK(s, Some(k)) && k in s.pages && j in s.pages && prot != ReadWrite
    requires f < |s.frames| && s.frames[f] == FrameNode(k.pid, true, Some(k))
    requires s.pages[k].isvalid && s.pages[k].frame == f && !s.pages[k].dirty && s.pmem[f] == Backing(s, s.pages[k])
    requires Reaches(s.mapping, s.owner) && a.flat == s.flat && a.pmem == s.pmem
    requires Served(a, b, s.mapping, s.mapping[k := Mapping(f, prot)], {})
    ensures PageOK(Installed(s, b, f, k, prot), None, j)
  {
    hide Reaches, Served;
    assert PageOK(s, Some(k), j);
    if j == k {
      InstalledPage(s, a, b, f, k, prot);
    } else if s.pages[j].isvalid {
      InstallKeepsResident(s, a, b, f, k, prot, j);
    } else {
      InstallKeepsOut(s, a, b, f, k, prot, j);
    }
  }

  lemma InstalledPage(s: State, a: View, b: View, f: nat, k: Key, prot: Prot)
    requires FramesOK(s, f) && k in s.pages && prot != ReadWrite
    requires f < |s.frames| && s.frames[f] == FrameNode(k.pid, true, Some(k)) && a.pmem == s.pmem
    requires s.pages[k].frame == f && s.pmem[f] == Backing(s, s.pages[k]) && Reaches(s.mapping, s.owner)
    requires Served(a, b, s.mapping, s.mapping[k := Mapping(f, prot)], {})
    ensures Resident(Installed(s, b, f, k, prot), k)
  {
    var s' := Installed(s, b, f, k, prot);
    assert Backing(s', s.pages[k]) == Backing(s, s.pages[k]);
    hide Backing;
    OwnerDecides(s.mapping, s.owner, f);
    forall q ensures !(Writable(s'.mapping, q) && s'.mapping[q].frame == f) {
      assert Writable(s.mapping, q) ==> Accessible(s.mapping, q);
    }
  }

  lemma InstallKeepsResident(s: State, a: View, b: View, f: nat, k: Key, prot: Prot, j: Key)
    requires FramesOK(s, f) && j in s.pages && Resident(s, j) && j != k && prot != ReadWrite
    requires f < |s.frames| && Reaches(s.mapping, s.owner) && a.pmem == s.pmem
    requires Served(a, b, s.mapping, s.mapping[k := Mapping(f, prot)], {})
    ensures Resident(Installed(s, b, f, k, prot), j)
  {
    var s', g := Installed(s, b, f, k, prot), s.pages[j].frame;
    assert Backing(s', s.pages[j]) == Backing(s, s.pages[j]);
    hide Backing;
    if !s.pages[j].dirty {
      OwnerDecides(s.mapping, s.owner, g);
      forall q ensures !(Writable(s'.mapping, q) && s'.mapping[q].frame == g) {
        assert Writable(s.mapping, q) ==> Accessible(s.mapping, q);
      }
    }
  }

  lemma InstallKeepsOut(s: State, a: View, b: View, f: nat, k: Key, prot: Prot, j: Key)
    requires j in s.pages && SwappedOut(s, j) && j != k && a.flat == s.flat
    requires Served(a, b, s.mapping, s.mapping[k := Mapping(f, prot)], {})
    ensures SwappedOut(Installed(s, b, f, k, prot), j)
  {
    var s' := Installed(s, b, f, k, prot);
    assert Backing(s', s.pages[j]) == Backing(s, s.pages[j]);
  }

  ghost function Created(s: State, pid: int): State {
    s.(tables := s.tables[pid := []])
  }

  lemma CreateKeeps(s: State, pid: int)
    requires Inv(s, -1, None) && pid !in s.tables && pid != -1
    ensures Inv(Created(s, pid), -1, None)
  {
    CreateKeepsTables(s, pid);
    CreateKeepsFrames(s, pid);
    hide TablesOK, BlocksOK, FramesOK, PageOK;
    forall j | j in s.pages ensures PageOK(Created(s, pid), None, j) {
      CreateKeepsPage(s, pid, j);
    }
  }

  lemma CreateKeepsPage(s: State, pid: int, j: Key)
    requires PagesOK(s, None) && j in s.pages
    ensures PageOK(Created(s, pid), None, j)
  {
    assert PageOK(s, None, j);
    assert Backing(Created(s, pid), s.pages[j]) == Backing(s, s.pages[j]);
  }

  lemma CreateKeepsTables(s: State, pid: int)
    requires TablesOK(s) && pid !in s.tables && pid != -1
    ensures TablesOK(Created(s, pid))
  {
  }

  lemma CreateKeepsFrames(s: State, pid: int)
    requires FramesOK(s, -1) && BlocksOK(s)
    ensures FramesOK(Created(s, pid), -1) && BlocksOK(Created(s, pid))
  {
    assert forall f :: 0 <= f < |s.frames| && s.frames[f].pid != -1 ==> OccupiedOK(s, f);
  }

  /** A process gets page k, the next of its table, backed by the free block b. */
  ghost function Extended(s: State, k: Key, b: nat, page: Page): State
    requires k.pid in s.tables && b < |s.blocks|
  {
    s.(tables := s.tables[k.pid := s.tables[k.pid] + [k]], pages := s.pages[k := page],
       blocks := s.blocks[b := s.blocks[b].(page := Some(k))], flat := s.flat[k := Backing(s, page)])
  }

  /** What extending does: page k appears, not resident, in the lowest block nobody owns. */
  ghost predicate Grew(s: State, s': State, k: Key) {
    && k !in s.pages && k in s'.pages && k.pid in s.tables
    && var p := s'.pages[k];
    && !p.isvalid && p.vaddr == VAddr(k.index, s.size)
    && 0 <= p.block < |s.blocks| && s.blocks[p.block].page == None
    && (forall c :: 0 <= c < p.block ==> s.blocks[c].page.Some?)
    && s' == Extended(s, k, p.block, p)
  }

  lemma NextKeyIsNew(s: State, pid: int)
    requires Inv(s, -1, None) && pid in s.tables
    ensures Key(pid, |s.tables[pid]|) !in s.pages && Key(pid, |s.tables[pid]|) !in s.flat
    ensures |s.blocks| == |s.disk|
  {
  }

  lemma ExtendKeepsBlocks(s: State, k: Key, b: nat, page: Page)
    requires BlocksOK(s) && k !in s.pages && k.pid in s.tables
    requires b < |s.blocks| && s.blocks[b].page == None && page.block == b
    ensures BlocksOK(Extended(s, k, b, page))
  {
    var s' := Extended(s, k, b, page);
    assert forall c :: 0 <= c < |s.blocks| && c != b ==> s'.blocks[c] == s.blocks[c];
  }

  lemma ExtendKeepsTables(s: State, k: Key, b: nat, page: Page)
    requires TablesOK(s) && k.pid in s.tables && k.index == |s.tables[k.pid]| && b < |s.blocks|
    requires page.vaddr == VAddr(k.index, s.size)
    ensures k !in s.pages && TablesOK(Extended(s, k, b, page))
  {
    hide VAddr, Backing;
  }

  lemma ExtendKeeps(s: State, k: Key, b: nat, page: Page)
    requires Inv(s, -1, None) && Reaches(s.mapping, s.owner)
    requires k.pid in s.tables && k.index == |s.tables[k.pid]| && b < |s.blocks| && s.blocks[b].page == None
    requires page == Page(false, page.frame, b, page.dirty, VAddr(k.index, s.size))
    ensures k !in s.pages && Inv(Extended(s, k, b, page), -1, None)
  {
    var s' := Extended(s, k, b, page);
    ExtendKeepsFrames(s, k, b, page);
    ExtendKeepsTables(s, k, b, page);
    ExtendKeepsBlocks(s, k, b, page);
    hide TablesOK, BlocksOK, FramesOK, PageOK, Reaches, Extended;
    forall j | j in s'.pages ensures PageOK(s', None, j) {
      ExtendKeepsPage(s, k, b, page, j);
    }
  }

  lemma ExtendKeepsFrames(s: State, k: Key, b: nat, page: Page)
    requires FramesOK(s, -1) && TablesOK(s)
    requires k.pid in s.tables && k.index == |s.tables[k.pid]| && b < |s.blocks|
    ensures k !in s.pages && FramesOK(Extended(s, k, b, page), -1)
  {
    var s' := Extended(s, k, b, page);
    forall g | 0 <= g < |s'.frames| && s'.frames[g].pid != -1 ensures OccupiedOK(s', g) {
      assert OccupiedOK(s, g);
    }
  }

  /** Whoever has a page in a frame is a live process. */
  lemma {:induction false} FramesAreLive(s: State, f: nat)
    requires Inv(s, -1, None) && f < |s.frames| && s.frames[f].pid != -1
    ensures s.frames[f].pid in s.tables
  {
    InFrame(s, f);
    assert OccupiedOK(s, f);
  }

  lemma OwnersArePages(s: State)
    requires FramesOK(s, -1)
    ensures forall f :: f in s.owner ==> s.owner[f] in s.pages
  {
    forall f | f in s.owner ensures s.owner[f] in s.pages {
      assert OccupiedOK(s, f);
    }
  }

  /** A page that was there before is where it was, with the same backing. */
  lemma ExtendKeepsOldPage(s: State, k: Key, b: nat, page: Page, j: Key)
    requires PagesOK(s, None) && k !in s.pages && k.pid in s.tables && b < |s.blocks| && j in s.pages
    ensures PageOK(Extended(s, k, b, page), None, j)
  {
    assert PageOK(s, None, j);
    assert Backing(Extended(s, k, b, page), s.pages[j]) == Backing(s, s.pages[j]);
  }

  lemma ExtendKeepsPage(s: State, k: Key, b: nat, page: Page, j: Key)
    requires Inv(s, -1, None) && Reaches(s.mapping, s.owner) && k !in s.pages && k.pid in s.tables
    requires b < |s.blocks| && s.blocks[b].page == None
    requires page == Page(false, page.frame, b, page.dirty, VAddr(k.index, s.size))
    requires j in s.pages || j == k
    ensures PageOK(Extended(s, k, b, page), None, j)
  {
    if j == k {
      OwnersArePages(s);
      hide Inv;
      assert Backing(Extended(s, k, b, page), page) == Backing(s, page);
    } else {
      hide TablesOK, BlocksOK, FramesOK, PagesOK, PageOK, Reaches;
      ExtendKeepsOldPage(s, k, b, page, j);
    }
  }

  /** A process and everything it owned are gone. */
  ghost function Removed(s: State, pid: int): State {
    s.(frames := seq(|s.frames|, f requires 0 <= f < |s.frames| =>
                       if s.frames[f].pid == pid then s.frames[f].(pid := -1) else s.frames[f]),
       blocks := seq(|s.blocks|, b requires 0 <= b < |s.blocks| =>
                       if s.blocks[b].page.Some? && s.blocks[b].page.value.pid == pid
                       then s.blocks[b].(page := None) else s.blocks[b]),
       tables := s.tables - {pid},
       pages := map k | k in s.pages && k.pid != pid :: s.pages[k],
       mapping := map k | k in s.mapping && k.pid != pid :: s.mapping[k],
       owner := map f | f in s.owner && s.owner[f].pid != pid :: s.owner[f],
       flat := map k | k in s.flat && k.pid != pid :: s.flat[k])
  }

  /** What remains is known field by field. */
  lemma RemovedIs(s: State, pid: int, s': State)
    requires s'.frames == Removed(s, pid).frames && s'.blocks == Removed(s, pid).blocks
    requires s'.tables == s.tables - {pid} && s'.size == s.size && s'.pmem == s.pmem && s'.disk == s.disk
    requires s'.pages == (map k | k in s.pages && k.pid != pid :: s.pages[k])
    requires s'.mapping == (map k | k in s.mapping && k.pid != pid :: s.mapping[k])
    requires s'.owner == (map f | f in s.owner && s.owner[f].pid != pid :: s.owner[f])
    requires s'.flat == (map k | k in s.flat && k.pid != pid :: s.flat[k])
    ensures s' == Removed(s, pid)
  {
  }

  lemma RemovedFrames(s: State, pid: int)
    ensures |Removed(s, pid).frames| == |s.frames| && |Removed(s, pid).blocks| == |s.blocks|
    ensures forall f :: 0 <= f < |s.frames| ==>
              Removed(s, pid).frames[f] == if s.frames[f].pid == pid then s.frames[f].(pid := -1) else s.frames[f]
    ensures Removed(s, pid).tables == s.tables - {pid}
    ensures Removed(s, pid).pages == map k | k in s.pages && k.pid != pid :: s.pages[k]
    ensures forall b :: 0 <= b < |s.blocks| ==>
              Removed(s, pid).blocks[b] == if s.blocks[b].page.Some? && s.blocks[b].page.value.pid == pid
                                           then s.blocks[b].(page := None) else s.blocks[b]
  {
  }

  lemma RemoveKeeps(s: State, pid: int)
    requires Inv(s, -1, None) && pid != -1
    ensures Inv(Removed(s, pid), -1, None)
  {
    var s' := Removed(s, pid);
    RemoveKeepsTables(s, pid);
    RemoveKeepsBlocks(s, pid);
    RemoveKeepsFrames(s, pid);
    forall j | j in s'.pages ensures PageOK(s', None, j) {
      RemoveKeepsPage(s, pid, j);
    }
  }

  lemma RemoveKeepsTables(s: State, pid: int)
    requires TablesOK(s)
    ensures TablesOK(Removed(s, pid))
  {
    var s' := Removed(s, pid);
    assert forall q, i :: q in s'.tables && 0 <= i < |s'.tables[q]| ==> Key(q, i) in s.pages && s.tables[q][i] == Key(q, i);
    assert s'.flat.Keys == s'.pages.Keys;
  }

  lemma RemoveKeepsBlocks(s: State, pid: int)
    requires BlocksOK(s)
    ensures BlocksOK(Removed(s, pid))
  {
    var s' := Removed(s, pid);
    forall k | k in s'.pages ensures s'.blocks[s'.pages[k].block].page == Some(k) {
      assert k in s.pages;
    }
  }

  lemma RemoveKeepsPage(s: State, pid: int, j: Key)
    requires BlocksOK(s) && PagesOK(s, None) && j in s.pages && j.pid != pid
    ensures PageOK(Removed(s, pid), None, j)
  {
    assert PageOK(s, None, j);
    assert Backing(Removed(s, pid), s.pages[j]) == Backing(s, s.pages[j]);
  }

  lemma RemoveKeepsFrames(s: State, pid: int)
    requires Inv(s, -1, None) && pid != -1
    ensures FramesOK(Removed(s, pid), -1)
  {
    var s' := Removed(s, pid);
    forall f | f in s'.owner ensures s'.frames[f].pid != -1 {
      assert OccupiedOK(s, f);
    }
    forall g | 0 <= g < |s'.frames| && s'.frames[g].pid != -1 ensures OccupiedOK(s', g) {
      assert OccupiedOK(s, g);
    }
  }

  /** A resident page counts as dirty and its frame as accessed. */
  ghost function Marked(s: State, k: Key): State
    requires k in s.pages && 0 <= s.pages[k].frame < |s.frames|
  {
    var f := s.pages[k].frame;
    s.(pages := s.pages[k := s.pages[k].(dirty := true)], frames := s.frames[f := s.frames[f].(accessed := true)])
  }

  lemma MarkKeeps(s: State, k: Key)
    requires Inv(s, -1, None) && k in s.pages && s.pages[k].isvalid
    ensures 0 <= s.pages[k].frame < |s.frames| && Inv(Marked(s, k), -1, None)
  {
    assert PageOK(s, None, k);
    MarkKeepsTables(s, k);
    MarkKeepsFrames(s, k);
    forall j | j in s.pages ensures PageOK(Marked(s, k), None, j) {
      MarkKeepsPage(s, k, j);
    }
  }

  lemma MarkKeepsPage(s: State, k: Key, j: Key)
    requires PagesOK(s, None) && k in s.pages && s.pages[k].isvalid && 0 <= s.pages[k].frame < |s.frames| && j in s.pages
    ensures PageOK(Marked(s, k), None, j)
  {
    assert PageOK(s, None, j);
    assert Backing(Marked(s, k), s.pages[j]) == Backing(s, s.pages[j]);
  }

  lemma MarkKeepsTables(s: State, k: Key)
    requires TablesOK(s) && BlocksOK(s) && k in s.pages && 0 <= s.pages[k].frame < |s.frames|
    ensures TablesOK(Marked(s, k)) && BlocksOK(Marked(s, k))
  {
    assert Marked(s, k).pages.Keys == s.pages.Keys;
    assert forall j :: j in s.pages ==> Marked(s, k).pages[j].block == s.pages[j].block;
  }

  lemma MarkKeepsFrames(s: State, k: Key)
    requires FramesOK(s, -1) && k in s.pages && 0 <= s.pages[k].frame < |s.frames|
    ensures FramesOK(Marked(s, k), -1)
  {
    var s' := Marked(s, k);
    forall g | 0 <= g < |s'.frames| && s'.frames[g].pid != -1 ensures OccupiedOK(s', g) {
      assert OccupiedOK(s, g);
    }
  }

  /** Where a resident page is, and that its process may get any protection for it. */
  lemma InMemory(s: State, k: Key)
    requires Inv(s, -1, None) && k in s.pages && s.pages[k].isvalid
    ensures |s.frames| == |s.pmem| && 0 <= s.pages[k].frame < |s.frames|
    ensures s.frames[s.pages[k].frame].pid == k.pid && Held(s.mapping, s.owner, k)
  {
    assert PageOK(s, None, k);
  }

  lemma GrantReprotects(s: State, k: Key)
    requires k in s.pages && s.pages[k].isvalid && s.pages[k].dirty && Held(s.mapping, s.owner, k)
    requires Reaches(s.mapping, s.owner)
    ensures Reprotected(s, s.mapping[k := s.mapping[k].(prot := ReadWrite)], None)
    ensures Reaches(s.mapping[k := s.mapping[k].(prot := ReadWrite)], s.owner)
  {
    var m' := s.mapping[k := s.mapping[k].(prot := ReadWrite)];
    forall q | Accessible(m', q) ensures m'[q].frame in s.owner && s.owner[m'[q].frame] == q {
      assert q != k ==> Accessible(s.mapping, q);
    }
  }

  /** A page that is not resident, next to a hole. */
  lemma OutOfMemory(s: State, hole: int, k: Key)
    requires Inv(s, hole, None) && k in s.pages && !s.pages[k].isvalid
    ensures |s.frames| == |s.pmem| && |s.blocks| == |s.disk| && 0 <= s.pages[k].block < |s.blocks|
    ensures k.pid != -1 && hole !in s.owner
    ensures SwappedOut(s, k)
  {
    assert PageOK(s, None, k);
  }

  /** The incoming page's contents are its backing until it is installed. */
  lemma Incoming(s: State, hole: int, k: Key)
    requires Inv(s, hole, Some(k)) && k in s.pages
    ensures SwappedOut(s, k)
  {
    assert PageOK(s, Some(k), k);
  }

  /** A free frame is a hole already. */
  lemma FreeFrameIsHole(s: State, f: nat)
    requires Inv(s, -1, None) && f < |s.frames| && s.frames[f].pid == -1
    ensures Inv(s, f, None)
  {
  }

  /** Filling the hole while processes run. */
  lemma FillKeeps(s: State, a: View, b: View, f: nat, k: Key)
    requires Inv(s, f, Some(k)) && Reaches(s.mapping, s.owner) && k in s.pages
    requires a.flat == s.flat && a.pmem == s.pmem && Served(a, b, s.mapping, s.mapping, {f})
    ensures Inv(s.(flat := b.flat, pmem := b.pmem), f, Some(k)) && Meanwhile(a.running, a.log, b.log)
  {
    hide Inv;
    SameProtections(s, Some(k));
    ServedKeeps(s, a, b, s.mapping, f, Some(k), {f});
    assert s.(mapping := s.mapping, flat := b.flat, pmem := b.pmem) == s.(flat := b.flat, pmem := b.pmem);
  }

  /** The page behind an address of a process, and the call address the client is told. */
  lemma PageOfAddress(s: State, pid: int, addr: int)
    requires Inv(s, -1, None) && pid in s.tables && BASE <= addr < VAddr(|s.tables[pid]|, s.size)
    ensures PageAt(s.tables, s.size, pid, addr) == PageAt(s.tables, s.size, pid, addr - addr % s.size)
    ensures PageAt(s.tables, s.size, pid, addr) == Some(Key(pid, (addr - BASE) / s.size))
    ensures Key(pid, (addr - BASE) / s.size) in s.pages
  {
    var i := (addr - BASE) / s.size;
    InPage(addr, i, s.size);
    if i >= |s.tables[pid]| {
      MulGap(|s.tables[pid]| - 1, i, s.size);
      assert false;
    }
    RoundDown(addr, s.size);
    InPage(addr - addr % s.size, i, s.size);
    assert s.tables[pid][i] == Key(pid, i);
  }

  lemma BitsKeep(s: State, frames: seq<FrameNode>)
    requires Inv(s, -1, None) && |frames| == |s.frames|
    requires forall f :: 0 <= f < |frames| ==> frames[f] == s.frames[f].(accessed := frames[f].accessed)
    ensures Inv(s.(frames := frames), -1, None)
  {
    var s' := s.(frames := frames);
    BitsKeepFrames(s, frames);
    forall j | j in s.pages ensures PageOK(s', None, j) {
      assert PageOK(s, None, j);
      assert Backing(s', s.pages[j]) == Backing(s, s.pages[j]);
    }
  }

  lemma BitsKeepFrames(s: State, frames: seq<FrameNode>)
    requires TablesOK(s) && BlocksOK(s) && FramesOK(s, -1) && |frames| == |s.frames|
    requires forall f :: 0 <= f < |frames| ==> frames[f] == s.frames[f].(accessed := frames[f].accessed)
    ensures var s' := s.(frames := frames); TablesOK(s') && BlocksOK(s') && FramesOK(s', -1)
  {
    assert forall f :: 0 <= f < |s.frames| && s.frames[f].pid != -1 ==> OccupiedOK(s, f);
  }

  // ---------------------------------------------------------------------------------------------
  // What a fault does
  // ---------------------------------------------------------------------------------------------

  /** Only the block of a dirty page got other bytes. */
  ghost predicate DiskKept(disk: seq<Bytes>, disk': seq<Bytes>, p: Page) {
    && |disk'| == |disk|
    && forall c :: 0 <= c < |disk| && !(p.dirty && c == p.block) ==> disk'[c] == disk[c]
  }

  /** Frame f was emptied: its page v is out, v's block is in use if v was dirty. */
  ghost predicate Evicted(s: State, s': State, f: nat) {
    && f < |s.frames| && s.frames[f].page.Some?
    && var v := s.frames[f].page.value;
    && v in s.pages && v in s.mapping && 0 <= s.pages[v].block < |s.blocks|
    && s'.pages == s.pages[v := s.pages[v].(isvalid := false)]
    && s'.mapping == EvictedMapping(s, f, v)
    && s'.blocks == (if s.pages[v].dirty
                     then s.blocks[s.pages[v].block := s.blocks[s.pages[v].block].(used := true)] else s.blocks)
    && DiskKept(s.disk, s'.disk, s.pages[v])
    && s'.tables == s.tables
  }

  lemma EvictedStillOut(s: State, s': State, f: nat, k: Key)
    requires Inv(s, -1, None) && Evicted(s, s', f) && s.frames[f].pid != -1
    requires k in s.pages && !s.pages[k].isvalid
    ensures k in s'.pages && s'.pages[k] == s.pages[k] && k != s.frames[f].page.value
  {
    InFrame(s, f);
  }

  /** Page k was put in frame f, clean and readable. */
  ghost predicate BroughtIn(s: State, s': State, k: Key, f: nat) {
    && f < |s.frames| && k in s.pages
    && s'.pages == s.pages[k := s.pages[k].(isvalid := true, frame := f, dirty := false)]
    && s'.frames == s.frames[f := FrameNode(k.pid, true, Some(k))]
    && s'.mapping == s.mapping[k := Mapping(f, ReadOnly)]
    && s'.blocks == s.blocks && s'.disk == s.disk && s'.tables == s.tables
  }

  /** Frame f went from its page to page k; other frames changed at most their accessed bits. */
  ghost predicate Replaced(s: State, s': State, k: Key, f: nat) {
    && f < |s.frames| && s.frames[f].page.Some? && k in s.pages
    && var v := s.frames[f].page.value;
    && v != k && v in s.pages && v in s.mapping && 0 <= s.pages[v].block < |s.blocks|
    && s'.pages == s.pages[v := s.pages[v].(isvalid := false)]
                          [k := s.pages[k].(isvalid := true, frame := f, dirty := false)]
    && s'.mapping == EvictedMapping(s, f, v)[k := Mapping(f, ReadOnly)]
    && s'.blocks == (if s.pages[v].dirty
                     then s.blocks[s.pages[v].block := s.blocks[s.pages[v].block].(used := true)] else s.blocks)
    && DiskKept(s.disk, s'.disk, s.pages[v])
    && s'.tables == s.tables
    && |s'.frames| == |s.frames| && s'.frames[f] == FrameNode(k.pid, true, Some(k))
    && forall g :: 0 <= g < |s.frames| && g != f ==>
                     s'.frames[g] == s.frames[g].(accessed := s'.frames[g].accessed)
  }

  /** Resident page k became writable, dirty and accessed. */
  ghost predicate Upgraded(s: State, s': State, k: Key) {
    && k in s.pages && 0 <= s.pages[k].frame < |s.frames| && k in s.mapping
    && s'.pages == s.pages[k := s.pages[k].(dirty := true)]
    && s'.frames == s.frames[s.pages[k].frame := s.frames[s.pages[k].frame].(accessed := true)]
    && s'.mapping == s.mapping[k := s.mapping[k].(prot := ReadWrite)]
    && s'.blocks == s.blocks && s'.disk == s.disk && s'.tables == s.tables
  }

  /** An address is allocated exactly if it lies between the base and the end of the last page. */
  lemma AllocatedIff(s: State, pid: int, addr: int)
    requires Inv(s, -1, None) && pid in s.tables
    ensures PageAt(s.tables, s.size, pid, addr).Some? <==> BASE <= addr < VAddr(|s.tables[pid]|, s.size)
  {
    if BASE <= addr {
      var i, n := (addr - BASE) / s.size, |s.tables[pid]|;
      InPage(addr, i, s.size);
      if i < n {
        MulGap(i, n, s.size);
        assert (i + 1) * s.size == i * s.size + s.size;
      } else if n < i {
        MulGap(n, i, s.size);
        assert (n + 1) * s.size == n * s.size + s.size;
      }
    }
  }

  /** pager_syslog takes its i-th byte from position i of the frame of that byte's page.  That is the
      byte's own position for the whole range exactly if the range starts a page and stays in it. */
  lemma SyslogOffsets(addr: int, len: nat, size: nat)
    requires size > 0 && BASE <= addr
    ensures (forall i :: 0 <= i < len ==> OwnPosition(addr, i, size))
       <==> len == 0 || (OffsetInPage(addr, size) == 0 && len <= size)
  {
    assert OwnPosition(addr, 0, size) ==> OffsetInPage(addr, size) == 0;
    assert !OwnPosition(addr, size, size);
    if OffsetInPage(addr, size) == 0 && len <= size {
      forall i | 0 <= i < len ensures OwnPosition(addr, i, size) {
        BehindFirst(addr, i, size);
      }
    }
  }

  /** The byte at position i behind the start of a frame, which may lie in another frame, or in none. */
  function PhysicalByte(pmem: seq<Bytes>, size: nat, frame: int, i: nat): Option<byte>
    requires size > 0 && forall f :: 0 <= f < |pmem| ==> |pmem[f]| == size
  {
    var p := frame * size + i;
    if 0 <= p && p / size < |pmem| then Some(pmem[p / size][p % size]) else None
  }

  lemma ByteOfFrame(pmem: seq<Bytes>, size: nat, f: nat, i: nat)
    requires f < |pmem| && i < size && forall g :: 0 <= g < |pmem| ==> |pmem[g]| == size
    ensures PhysicalByte(pmem, size, f, i) == Some(pmem[f][i])
  {
    DivModUnique(f * size + i, size, f, i);
  }

  /** Addresses behind the first one of a page are at their distance from it. */
  lemma BehindFirst(addr: int, i: nat, size: nat)
    requires i < size && BASE <= addr && OffsetInPage(addr, size) == 0
    ensures OffsetInPage(addr + i, size) == i && (addr + i - BASE) / size == (addr - BASE) / size
  {
    var q := (addr - BASE) / size;
    assert addr + i - BASE == q * size + i;
    DivModUnique(addr + i - BASE, size, q, i);
  }

  /** What pager_syslog takes as the i-th byte of a range: the i-th of the frame recorded for its page. */
  ghost function Taken(s: State, pid: int, addr: int, i: nat): Option<byte> {
    if s.size > 0 && (forall f :: 0 <= f < |s.pmem| ==> |s.pmem[f]| == s.size)
       && BASE <= addr + i && KeyAt(pid, addr + i, s.size) in s.pages
    then PhysicalByte(s.pmem, s.size, s.pages[KeyAt(pid, addr + i, s.size)].frame, i) else None
  }

  /** The address so far behind another one has a page. */
  ghost predicate HasPage(s: State, pid: int, addr: int, i: nat) {
    s.size > 0 && BASE <= addr + i && KeyAt(pid, addr + i, s.size) in s.pages
  }

  lemma TakenIs(s: State, pid: int, addr: int, i: nat)
    requires s.size > 0 && BASE <= addr + i && KeyAt(pid, addr + i, s.size) in s.pages
    requires forall f :: 0 <= f < |s.pmem| ==> |s.pmem[f]| == s.size
    ensures Taken(s, pid, addr, i) == PhysicalByte(s.pmem, s.size, s.pages[KeyAt(pid, addr + i, s.size)].frame, i)
  {
  }

  lemma InTable(s: State, pid: int, addr: int, len: nat, i: nat)
    requires Inv(s, -1, None) && pid in s.tables && s.size > 0 && i < len
    requires BASE <= addr && addr + len <= VAddr(|s.tables[pid]|, s.size)
    ensures HasPage(s, pid, addr, i)
  {
    hide Inv;
    AllocatedIff(s, pid, addr + i);
    PageAtIs(s, pid, addr + i);
  }

  /** In other words: position o of frame f, if the two add up to the i-th position behind that frame's start. */
  lemma {:induction false} TakenAt(s: State, pid: int, addr: int, i: nat, f: nat, o: nat)
    requires s.size > 0 && BASE <= addr + i && KeyAt(pid, addr + i, s.size) in s.pages
    requires f < |s.pmem| && o < s.size && forall g :: 0 <= g < |s.pmem| ==> |s.pmem[g]| == s.size
    requires f * s.size + o == s.pages[KeyAt(pid, addr + i, s.size)].frame * s.size + i
    ensures Taken(s, pid, addr, i) == Some(s.pmem[f][o])
  {
    DivModUnique(f * s.size + o, s.size, f, o);
  }

  /** On a resident page that is the process's byte at position i of the page, not that of address addr + i. */
  lemma {:induction false} TakenOnResident(s: State, pid: int, addr: int, i: nat)
    requires Inv(s, -1, None) && BASE <= addr + i && s.size > 0 && i < s.size
    requires KeyAt(pid, addr + i, s.size) in s.pages && s.pages[KeyAt(pid, addr + i, s.size)].isvalid
    requires forall f :: f in s.owner ==> f < |s.pmem| && s.owner[f] in s.flat && s.pmem[f] == s.flat[s.owner[f]]
    requires forall f :: 0 <= f < |s.pmem| ==> |s.pmem[f]| == s.size
    ensures var k := KeyAt(pid, addr + i, s.size);
            k in s.flat && |s.flat[k]| == s.size && Taken(s, pid, addr, i) == Some(s.flat[k][i])
  {
    hide PhysicalByte;
    var k := KeyAt(pid, addr + i, s.size);
    assert PageOK(s, None, k);
    ByteOfFrame(s.pmem, s.size, s.pages[k].frame, i);
  }

  lemma PageAtIs(s: State, pid: int, addr: int)
    requires Inv(s, -1, None) && pid in s.tables && PageAt(s.tables, s.size, pid, addr).Some?
    ensures BASE <= addr && PageAt(s.tables, s.size, pid, addr) == Some(KeyAt(pid, addr, s.size))
    ensures KeyAt(pid, addr, s.size) in s.pages
  {
    assert s.tables[pid][(addr - BASE) / s.size] == Key(pid, (addr - BASE) / s.size);
  }

  /** If the range starts a page, stays in it, and the page is in memory, the bytes taken are the process's own. */
  lemma {:induction false} SyslogBytes(s: State, pid: int, addr: int, len: nat, i: nat)
    requires Inv(s, -1, None) && pid in s.tables && BASE <= addr < VAddr(|s.tables[pid]|, s.size)
    requires forall f :: f in s.owner ==> f < |s.pmem| && s.owner[f] in s.flat && s.pmem[f] == s.flat[s.owner[f]]
    requires forall f :: 0 <= f < |s.pmem| ==> |s.pmem[f]| == s.size
    requires OffsetInPage(addr, s.size) == 0 && len <= s.size && i < len
    ensures var k := KeyAt(pid, addr + i, s.size);
            && k == KeyAt(pid, addr, s.size) && k in s.pages && OffsetInPage(addr + i, s.size) == i
            && (s.pages[k].isvalid ==>
                  && k in s.flat && |s.flat[k]| == s.size
                  && Taken(s, pid, addr, i) == Some(s.flat[k][OffsetInPage(addr + i, s.size)]))
  {
    hide VAddr, PhysicalByte;
    BehindFirst(addr, i, s.size);
    PageOfAddress(s, pid, addr);
    var k := KeyAt(pid, addr, s.size);
    if s.pages[k].isvalid {
      InMemory(s, k);
      assert PageOK(s, None, k);
      ByteOfFrame(s.pmem, s.size, s.pages[k].frame, i);
    }
  }

  predicate OwnPosition(addr: int, i: nat, size: nat)
    requires size > 0
  {
    OffsetInPage(addr + i, size) == i
  }

  function OffsetInPage(addr: int, size: nat): (o: nat)
    requires size > 0
    ensures o < size
  {
    (addr - BASE) % size
  }

  /** The contents of an ended process's swapped-out page are the first contents of the next page that gets
      its block, because ending a process does not clear the used marks of its blocks. */
  lemma {:induction false} EndedProcessShowsThrough(s: State, pid: int, k: Key, q: Key, page: Page)
    requires Inv(s, -1, None) && k in s.pages && k.pid == pid && pid != q.pid && q.pid in s.tables
    requires s.blocks[s.pages[k].block].used && !s.pages[k].isvalid && page.block == s.pages[k].block
    ensures q.pid in Removed(s, pid).tables
    ensures Removed(s, pid).blocks[page.block].page == None
    ensures Extended(Removed(s, pid), q, page.block, page).flat[q] == s.flat[k]
  {
    assert PageOK(s, None, k);
  }

  // ---------------------------------------------------------------------------------------------
  // Tearing down a process, page by page
  // ---------------------------------------------------------------------------------------------

  /** The frames once the pages of a process from position n on are gone. */
  ghost function FramesWithout(s: State, pid: int, n: nat): (r: seq<FrameNode>)
    ensures |r| == |s.frames|
  {
    seq(|s.frames|, f requires 0 <= f < |s.frames| =>
      var x := s.frames[f];
      if x.pid == pid && x.page.Some? && n <= x.page.value.index then x.(pid := -1) else x)
  }

  ghost function BlocksWithout(s: State, pid: int, n: nat): (r: seq<BlockNode>)
    ensures |r| == |s.blocks|
  {
    seq(|s.blocks|, b requires 0 <= b < |s.blocks| =>
      var x := s.blocks[b];
      if x.page.Some? && x.page.value.pid == pid && n <= x.page.value.index then x.(page := None) else x)
  }

  lemma TableEntry(s: State, pid: int, i: nat)
    requires Inv(s, -1, None) && pid in s.tables && i < |s.tables[pid]|
    ensures s.tables[pid][i] == Key(pid, i) && Key(pid, i) in s.pages
    ensures var p := s.pages[Key(pid, i)];
            && 0 <= p.block < |s.blocks|
            && BlocksWithout(s, pid, i) ==
               BlocksWithout(s, pid, i + 1)[p.block := BlocksWithout(s, pid, i + 1)[p.block].(page := None)]
            && (p.isvalid ==>
                  && 0 <= p.frame < |s.frames|
                  && FramesWithout(s, pid, i) ==
                     FramesWithout(s, pid, i + 1)[p.frame := FramesWithout(s, pid, i + 1)[p.frame].(pid := -1)])
            && (!p.isvalid ==> FramesWithout(s, pid, i) == FramesWithout(s, pid, i + 1))
  {
    var k := Key(pid, i);
    assert s.tables[pid][i] == k;
    assert PageOK(s, None, k);
    forall f | 0 <= f < |s.frames| && s.frames[f].pid == pid
      ensures s.frames[f].page.Some? && s.frames[f].page.value.pid == pid
      ensures s.frames[f].page.value.index == i ==> s.pages[k].isvalid && s.pages[k].frame == f
    {
      assert OccupiedOK(s, f);
    }
    TableEntryBlock(s, pid, i);
  }

  lemma TableEntryBlock(s: State, pid: int, i: nat)
    requires BlocksOK(s) && Key(pid, i) in s.pages
    ensures var b := s.pages[Key(pid, i)].block;
            BlocksWithout(s, pid, i) ==
            BlocksWithout(s, pid, i + 1)[b := BlocksWithout(s, pid, i + 1)[b].(page := None)]
  {
    assert forall b :: 0 <= b < |s.blocks| && s.blocks[b].page == Some(Key(pid, i)) ==>
                         b == s.pages[Key(pid, i)].block;
  }

  lemma WithoutAll(s: State, pid: int)
    requires Inv(s, -1, None) && pid in s.tables
    ensures pid != -1
    ensures FramesWithout(s, pid, 0) == Removed(s, pid).frames
    ensures BlocksWithout(s, pid, 0) == Removed(s, pid).blocks
    ensures FramesWithout(s, pid, |s.tables[pid]|) == s.frames
    ensures BlocksWithout(s, pid, |s.tables[pid]|) == s.blocks
  {
    FramesOfProcess(s, pid);
    BlocksOfProcess(s, pid);
    hide Inv;
  }

  lemma BlocksOfProcess(s: State, pid: int)
    requires Inv(s, -1, None) && pid in s.tables
    ensures forall b :: 0 <= b < |s.blocks| && s.blocks[b].page.Some? && s.blocks[b].page.value.pid == pid ==>
              s.blocks[b].page.value.index < |s.tables[pid]|
  {
  }

  lemma FramesOfProcess(s: State, pid: int)
    requires Inv(s, -1, None) && pid in s.tables
    ensures pid != -1
    ensures forall f :: 0 <= f < |s.frames| && s.frames[f].pid == pid ==>
              s.frames[f].page.Some? && s.frames[f].page.value.index < |s.tables[pid]|
  {
    forall f | 0 <= f < |s.frames| && s.frames[f].pid == pid
      ensures s.frames[f].page.Some? && s.frames[f].page.value.index < |s.tables[pid]|
    {
      assert OccupiedOK(s, f);
    }
  }
}
