/** The memory-management unit below the pager: physical frames, disk blocks and the mapping that each
    client process has installed.  Client processes keep running while the pager works, so every operation
    here lets them make any number of permitted loads and stores before and after its own effect.

    The ghost log records every page grown, every byte loaded and stored, and every process that ended.
    It is the history against which the flat memory promised to a process is stated. */
module Mmu {

  import opened Common

  type Bytes = seq<byte>

  /** mmu_zero_fill writes the character '0'. */
  const FILL: byte := 48

  datatype Prot = NoAccess | ReadOnly | ReadWrite

  /** A page of one process: the page at position index of the process's managed addresses. */
  datatype Key = Key(pid: int, index: nat)

  datatype Mapping = Mapping(frame: nat, prot: Prot)

  datatype Event =
    | Grown(key: Key, init: Bytes)
    | Stored(key: Key, off: nat, value: byte)
    | Loaded(key: Key, off: nat, value: byte)
    | Ended(pid: int)

  function Filled(n: nat): (b: Bytes)
    ensures |b| == n && forall i :: 0 <= i < n ==> b[i] == FILL
  {
    seq(n, i => FILL)
  }

  // ---------------------------------------------------------------------------------------------
  // Flat memory, operationally and declaratively
  // ---------------------------------------------------------------------------------------------

  /** The memory of every process after a history, computed forwards. */
  ghost function After(m: map<Key, Bytes>, e: Event): map<Key, Bytes> {
    match e
    case Grown(k, init) => m[k := init]
    case Stored(k, o, v) => if k in m && o < |m[k]| then m[k := m[k][o := v]] else m
    case Loaded(_, _, _) => m
    case Ended(pid) => map k | k in m && k.pid != pid :: m[k]
  }

  ghost function Flat(log: seq<Event>): map<Key, Bytes> {
    if log == [] then map[] else After(Flat(log[..|log| - 1]), log[|log| - 1])
  }

  /** The value a byte must have after a history, found backwards: the last store to it, or else
      what its page held when it was grown; None if the page does not exist. */
  ghost function LastValue(log: seq<Event>, k: Key, o: nat): Option<byte> {
    if log == [] then None else
    var e := log[|log| - 1];
    if e.Stored? && e.key == k && e.off == o then Some(e.value)
    else if e.Grown? && e.key == k then (if o < |e.init| then Some(e.init[o]) else None)
    else if e.Ended? && e.pid == k.pid then None
    else LastValue(log[..|log| - 1], k, o)
  }

  /** A history a flat memory could have produced: pages are grown once, only existing bytes are
      touched, and every load returns the last value of its byte. */
  ghost predicate Possible(log: seq<Event>, e: Event) {
    match e
    case Grown(k, _) => k !in Flat(log)
    case Stored(k, o, _) => LastValue(log, k, o).Some?
    case Loaded(k, o, v) => LastValue(log, k, o) == Some(v)
    case Ended(_) => true
  }

  ghost predicate FlatMemory(log: seq<Event>) {
    forall i :: 0 <= i < |log| ==> Possible(log[..i], log[i])
  }

  /** The forward and the backward reading of a history agree, byte by byte. */
  lemma {:induction false} FlatIsLastValue(log: seq<Event>, k: Key, o: nat)
    requires FlatMemory(log)
    ensures LastValue(log, k, o).Some? <==> k in Flat(log) && o < |Flat(log)[k]|
    ensures LastValue(log, k, o).Some? ==> LastValue(log, k, o).value == Flat(log)[k][o]
  {
    if log != [] {
      var pre, e := log[..|log| - 1], log[|log| - 1];
      FlatMemoryPrefix(log, |log| - 1);
      FlatIsLastValue(pre, k, o);
      assert Possible(log[..|log| - 1], log[|log| - 1]);
      if e.Stored? {
        FlatIsLastValue(pre, e.key, e.off);
      }
    }
  }

  lemma FlatMemoryPrefix(log: seq<Event>, n: nat)
    requires FlatMemory(log) && n <= |log|
    ensures FlatMemory(log[..n])
  {
    forall i | 0 <= i < n ensures Possible(log[..n][..i], log[..n][i]) {
      assert log[..n][..i] == log[..i];
    }
  }

  lemma FlatMemoryExtend(log: seq<Event>, e: Event)
    requires FlatMemory(log) && Possible(log, e)
    ensures FlatMemory(log + [e])
    ensures Flat(log + [e]) == After(Flat(log), e)
  {
    var log' := log + [e];
    assert log'[..|log|] == log;
    forall i | 0 <= i < |log'| ensures Possible(log'[..i], log'[i]) {
      if i < |log| {
        assert log'[..i] == log[..i];
      }
    }
  }

  /** The events between two points of a history are only loads and stores of running processes. */
  ghost predicate OnlyAccesses(before: seq<Event>, after: seq<Event>) {
    && |before| <= |after| && after[..|before|] == before
    && forall i :: |before| <= i < |after| ==> after[i].Stored? || after[i].Loaded?
  }

  /** What happens between two points of an operation: loads and stores if processes run meanwhile, and
      nothing if they are paused. */
  ghost predicate Meanwhile(running: bool, before: seq<Event>, after: seq<Event>) {
    OnlyAccesses(before, after) && (!running ==> after == before)
  }

  // ---------------------------------------------------------------------------------------------
  // The unit itself
  // ---------------------------------------------------------------------------------------------

  /** Whatever a process can reach, it reaches in the frame that holds its page. */
  ghost predicate Reaches(m: map<Key, Mapping>, owner: map<nat, Key>) {
    forall k :: Accessible(m, k) ==> m[k].frame in owner && owner[m[k].frame] == k
  }

  /** No page is in two frames. */
  ghost predicate OneFrameEach(owner: map<nat, Key>) {
    forall f, g :: f in owner && g in owner && owner[f] == owner[g] ==> f == g
  }

  /** Mapping a page that no frame holds to a frame without a page keeps both. */
  lemma {:induction false} ResidentReaches(m: map<Key, Mapping>, owner: map<nat, Key>, f: nat, k: Key, prot: Prot)
    requires Reaches(m, owner) && OneFrameEach(owner) && f !in owner && k !in owner.Values
    ensures Reaches(m[k := Mapping(f, prot)], owner[f := k]) && OneFrameEach(owner[f := k])
  {
    var m' := m[k := Mapping(f, prot)];
    forall q | Accessible(m', q) ensures m'[q].frame in owner[f := k] && owner[f := k][m'[q].frame] == q {
      assert q != k ==> Accessible(m, q);
    }
    assert forall g :: g in owner ==> owner[g] in owner.Values;
  }

  predicate Accessible(m: map<Key, Mapping>, k: Key) {
    k in m && m[k].prot != NoAccess
  }

  predicate Writable(m: map<Key, Mapping>, k: Key) {
    k in m && m[k].prot == ReadWrite
  }

  ghost predicate FrameWritable(m: map<Key, Mapping>, f: nat) {
    exists k :: Writable(m, k) && m[k].frame == f
  }

  /** What running processes can change: the history, the flat memory it means, and the frames. */
  datatype View = View(log: seq<Event>, flat: map<Key, Bytes>, pmem: seq<Bytes>, running: bool)

  /** What running processes may have done while the mapping went from m to m': a page or a frame
      changes only if a writable mapping, or the unit itself (the frames filled), allowed it. */
  ghost predicate Served(a: View, b: View, m: map<Key, Mapping>, m': map<Key, Mapping>, filled: set<nat>) {
    && Meanwhile(a.running, a.log, b.log)
    && a.flat.Keys == b.flat.Keys
    && |a.pmem| == |b.pmem|
    && (forall k :: k in a.flat && !Writable(m, k) && !Writable(m', k) ==> b.flat[k] == a.flat[k])
    && (forall f :: 0 <= f < |a.pmem| && f !in filled && !FrameWritable(m, f) && !FrameWritable(m', f) ==>
                      b.pmem[f] == a.pmem[f])
  }

  lemma ServedTwice(a: View, b: View, b': View, c: View, m: map<Key, Mapping>, m': map<Key, Mapping>,
                    filled: set<nat>)
    requires Served(a, b, m, m, {}) && Served(b', c, m', m', {})
    requires b'.log == b.log && b'.flat == b.flat && |b'.pmem| == |b.pmem| && b'.running == a.running
    requires forall f :: 0 <= f < |b.pmem| && f !in filled ==> b'.pmem[f] == b.pmem[f]
    ensures Served(a, c, m, m', filled)
  {
    OnlyAccessesTwice(a.log, b.log, c.log);
    forall f | 0 <= f < |a.pmem| && f !in filled && !FrameWritable(m, f) && !FrameWritable(m', f)
      ensures c.pmem[f] == a.pmem[f]
    {
      assert b.pmem[f] == a.pmem[f];
      assert c.pmem[f] == b'.pmem[f];
    }
  }

  lemma OnlyAccessesTwice(a: seq<Event>, b: seq<Event>, c: seq<Event>)
    requires OnlyAccesses(a, b) && OnlyAccesses(b, c)
    ensures OnlyAccesses(a, c)
  {
    assert a == b[..|a|] == c[..|b|][..|a|] == c[..|a|];
    forall i | |a| <= i < |c| ensures c[i].Stored? || c[i].Loaded? {
      if i < |b| {
        assert c[i] == c[..|b|][i] == b[i];
      }
    }
  }

  /** Only the owner of a frame can have it mapped writable. */
  lemma OwnerDecides(m: map<Key, Mapping>, owner: map<nat, Key>, f: nat)
    requires Reaches(m, owner)
    ensures FrameWritable(m, f) ==> f in owner && Writable(m, owner[f])
  {
    if FrameWritable(m, f) {
      var k :| Writable(m, k) && m[k].frame == f;
      assert Accessible(m, k);
    }
  }

  lemma OnlyAccessesOneMore(a: seq<Event>, b: seq<Event>, e: Event)
    requires OnlyAccesses(a, b) && (e.Stored? || e.Loaded?)
    ensures OnlyAccesses(a, b + [e]) && (b + [e])[..|b|] == b
  {
  }

  lemma NoAccesses(a: seq<Event>)
    ensures OnlyAccesses(a, a)
  {
  }

  lemma StoreIsServed(a: View, b: View, m: map<Key, Mapping>, k: Key, o: nat, v: byte)
    requires Writable(m, k) && k in a.flat && o < |a.flat[k]| && |b.pmem| == |a.pmem|
    requires a.running && b.log == a.log + [Stored(k, o, v)] && b.flat == a.flat[k := a.flat[k][o := v]]
    requires forall f :: 0 <= f < |a.pmem| && f != m[k].frame ==> b.pmem[f] == a.pmem[f]
    ensures Served(a, b, m, m, {})
  {
    assert FrameWritable(m, m[k].frame);
  }

  /** Running processes leave a page out of reach and a frame without a writable mapping alone. */
  lemma StillThere(a: View, b: View, m: map<Key, Mapping>, k: Key, f: nat)
    requires Served(a, b, m, m, {}) && k in a.flat && f < |a.pmem|
    requires !Accessible(m, k) && !FrameWritable(m, f)
    ensures k in b.flat && b.flat[k] == a.flat[k] && |b.pmem| == |a.pmem| && b.pmem[f] == a.pmem[f]
  {
  }

  class Unit {
    const pageSize: nat
    const pmem: array<Bytes>
    const disk: array<Bytes>
    /** Whether processes run while the pager works, or only between its operations. */
    const running: bool
    var mapping: map<Key, Mapping>
    ghost var log: seq<Event>
    /** The memory promised to the processes: what the history means. */
    ghost var flat: map<Key, Bytes>
    /** The page whose current contents each frame holds; frames in transit have no owner. */
    ghost var owner: map<nat, Key>

    ghost predicate Coherent()
      reads this, pmem, disk
    {
      && pmem != disk
      && FlatMemory(log) && flat == Flat(log)
      && (forall f :: 0 <= f < pmem.Length ==> |pmem[f]| == pageSize)
      && (forall b :: 0 <= b < disk.Length ==> |disk[b]| == pageSize)
      && (forall k :: k in flat ==> |flat[k]| == pageSize)
      && Reaches(mapping, owner)
      && (forall f :: f in owner ==>
                        f < pmem.Length && owner[f] in flat && pmem[f] == flat[owner[f]])
      && OneFrameEach(owner)
    }

    ghost function Now(): View
      reads this, pmem
    {
      View(log, flat, pmem[..], running)
    }

    constructor (nframes: nat, nblocks: nat, pageSize: nat, running: bool)
      ensures Coherent() && log == [] && owner == map[] && mapping == map[]
      ensures pmem.Length == nframes && disk.Length == nblocks
      ensures this.pageSize == pageSize && this.running == running
      ensures fresh(pmem) && fresh(disk)
    {
      this.pageSize, this.running := pageSize, running;
      pmem := new Bytes[nframes](i => seq(pageSize, j => 122));  // 'z'
      disk := new Bytes[nblocks](i => Filled(pageSize));
      mapping, log, flat, owner := map[], [], map[], map[];
    }

    /** A load the mapping permits returns the byte of the flat memory. */
    method Load(k: Key, o: nat) returns (v: byte)
      requires Coherent() && Accessible(mapping, k) && o < pageSize
      modifies `log, `flat
      ensures Coherent()
      ensures LastValue(old(log), k, o) == Some(v)
      ensures log == old(log) + [Loaded(k, o, v)] && flat == old(flat)
    {
      v := pmem[mapping[k].frame][o];
      FlatIsLastValue(log, k, o);
      FlatMemoryExtend(log, Loaded(k, o, v));
      log := log + [Loaded(k, o, v)];
    }

    /** A store the mapping permits changes that byte of the flat memory and no other. */
    method Store(k: Key, o: nat, v: byte)
      requires Coherent() && Writable(mapping, k) && o < pageSize
      modifies `log, `flat, pmem
      ensures Coherent()
      ensures log == old(log) + [Stored(k, o, v)]
      ensures k in old(flat) && flat == old(flat)[k := old(flat)[k][o := v]]
      ensures forall f :: 0 <= f < pmem.Length && f != mapping[k].frame ==> pmem[f] == old(pmem[f])
    {
      assert Accessible(mapping, k);
      FlatIsLastValue(log, k, o);
      FlatMemoryExtend(log, Stored(k, o, v));
      pmem[mapping[k].frame] := pmem[mapping[k].frame][o := v];
      log, flat := log + [Stored(k, o, v)], flat[k := flat[k][o := v]];
    }

    /** A process tries to load or store one byte; without permission nothing happens here. */
    method Access(k: Key, o: nat, v: byte, store: bool)
      requires Coherent() && o < pageSize && running
      modifies `log, `flat, pmem
      ensures Coherent()
      ensures Served(old(Now()), Now(), mapping, mapping, {})
    {
      if store && Writable(mapping, k) {
        Store(k, o, v);
      } else if !store && Accessible(mapping, k) {
        var _ := Load(k, o);
      }
    }

    /** Any number of such accesses by any processes, if they are not paused. */
    method Users()
      requires Coherent()
      modifies `log, `flat, pmem
      ensures Coherent()
      ensures Served(old(Now()), Now(), mapping, mapping, {})
    {
      var more: nat := *;
      if !running {
        more := 0;
      }
      while 0 < more
        invariant Coherent() && (0 < more ==> running)
        invariant Served(old(Now()), Now(), mapping, mapping, {})
      {
        more := more - 1;
        var k: Key := *;
        var o: nat := *;
        var v: byte := *;
        var store: bool := *;
        if o < pageSize {
          ghost var b := Now();
          Access(k, o, v, store);
          ServedTwice(old(Now()), b, b, Now(), mapping, mapping, {});
        }
      }
    }

    /** mmu_chprot, and mmu_nonresident, which is mmu_chprot to NoAccess: the client's mapping stays,
        with another protection. */
    method Chprot(k: Key, prot: Prot)
      requires Coherent() && k in mapping
      requires prot != NoAccess ==> mapping[k].frame in owner && owner[mapping[k].frame] == k
      modifies `log, `flat, `mapping, pmem
      ensures Coherent()
      ensures mapping == old(mapping)[k := old(mapping)[k].(prot := prot)]
      ensures Served(old(Now()), Now(), old(mapping), mapping, {})
    {
      Users();
      ghost var b1 := Now();
      mapping := mapping[k := mapping[k].(prot := prot)];
      ghost var b2 := Now();
      Users();
      ServedTwice(old(Now()), b1, b2, Now(), old(mapping), mapping, {});
    }

    /** mmu_resident: map a page that no frame holds yet to a frame that already holds its contents. */
    method Resident(k: Key, f: nat, prot: Prot)
      requires Coherent() && f < pmem.Length && f !in owner && k !in owner.Values
      requires k in flat && pmem[f] == flat[k] && !Accessible(mapping, k)
      modifies `log, `flat, `mapping, `owner, pmem
      ensures Coherent()
      ensures mapping == old(mapping)[k := Mapping(f, prot)] && owner == old(owner)[f := k]
      ensures Served(old(Now()), Now(), old(mapping), mapping, {})
    {
      hide Served, Meanwhile, FlatMemory, Flat, LastValue;
      OwnerDecides(mapping, owner, f);
      ghost var b0 := Now();
      Users();
      ghost var b1 := Now();
      StillThere(b0, b1, mapping, k, f);
      ResidentReaches(mapping, owner, f, k, prot);
      hide Reaches, OneFrameEach;
      mapping, owner := mapping[k := Mapping(f, prot)], owner[f := k];
      ghost var b2 := Now();
      Users();
      ServedTwice(old(Now()), b1, b2, Now(), old(mapping), mapping, {});
    }

    /** mmu_disk_read: only into a frame no process can see. */
    method DiskRead(b: nat, f: nat)
      requires Coherent() && b < disk.Length && f < pmem.Length && f !in owner
      modifies `log, `flat, pmem
      ensures Coherent() && Served(old(Now()), Now(), mapping, mapping, {f})
      ensures pmem[f] == disk[b]
    {
      OwnerDecides(mapping, owner, f);
      Users();
      ghost var b1 := Now();
      pmem[f] := disk[b];
      ghost var b2 := Now();
      Users();
      ServedTwice(old(Now()), b1, b2, Now(), mapping, mapping, {f});
    }

    /** mmu_zero_fill: only into a frame no process can see. */
    method ZeroFill(f: nat)
      requires Coherent() && f < pmem.Length && f !in owner
      modifies `log, `flat, pmem
      ensures Coherent() && Served(old(Now()), Now(), mapping, mapping, {f})
      ensures pmem[f] == Filled(pageSize)
      ensures |pmem[f]| == pageSize && forall o :: 0 <= o < pageSize ==> pmem[f][o] as int == '0' as int
    {
      OwnerDecides(mapping, owner, f);
      Users();
      ghost var b1 := Now();
      pmem[f] := Filled(pageSize);
      ghost var b2 := Now();
      Users();
      ServedTwice(old(Now()), b1, b2, Now(), mapping, mapping, {f});
    }

    /** mmu_disk_write: the copy is the frame's final contents only if no process can still store
        to the frame. */
    method DiskWrite(f: nat, b: nat)
      requires Coherent() && b < disk.Length && f < pmem.Length && !FrameWritable(mapping, f)
      modifies `log, `flat, pmem, disk
      ensures Coherent() && Served(old(Now()), Now(), mapping, mapping, {})
      ensures disk[b] == pmem[f] == old(pmem[f])
      ensures forall c :: 0 <= c < disk.Length && c != b ==> disk[c] == old(disk[c])
    {
      Users();
      ghost var b1 := Now();
      disk[b] := pmem[f];
      ghost var b2 := Now();
      Users();
      ServedTwice(old(Now()), b1, b2, Now(), mapping, mapping, {});
    }

    /** The page of a frame that its process can no longer reach leaves the frame. */
    ghost method Evict(f: nat)
      requires Coherent() && f in owner && !Accessible(mapping, owner[f])
      modifies `owner
      ensures Coherent() && owner == map g | g in old(owner) && g != f :: old(owner)[g]
    {
      owner := map g | g in owner && g != f :: owner[g];
    }

    /** A process gets a page with the given first contents. */
    ghost method Grow(k: Key, init: Bytes)
      requires Coherent() && k !in flat && |init| == pageSize
      modifies `log, `flat
      ensures Coherent()
      ensures log == old(log) + [Grown(k, init)] && flat == old(flat)[k := init]
    {
      FlatMemoryExtend(log, Grown(k, init));
      log, flat := log + [Grown(k, init)], flat[k := init];
    }

    /** A process ends: its address space is gone, and so are its pages. */
    method End(pid: int)
      requires Coherent()
      modifies `log, `flat, `mapping, `owner
      ensures Coherent()
      ensures log == old(log) + [Ended(pid)]
      ensures flat == map k | k in old(flat) && k.pid != pid :: old(flat)[k]
      ensures mapping == map k | k in old(mapping) && k.pid != pid :: old(mapping)[k]
      ensures owner == map f | f in old(owner) && old(owner)[f].pid != pid :: old(owner)[f]
    {
      FlatMemoryExtend(log, Ended(pid));
      log, flat := log + [Ended(pid)], After(flat, Ended(pid));
      mapping := map k | k in mapping && k.pid != pid :: mapping[k];
      owner := map f | f in owner && owner[f].pid != pid :: owner[f];
    }
  }
}
