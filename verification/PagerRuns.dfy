/** Runs of the pager: any sequence of requests, with processes loading and storing before, during and after
    each of them.  A run leaves an account of itself, one pair of moments for every request, and what the
    requests were answered can be read off the history. */
module PagerRuns {
  import opened Common
  import opened Mmu
  import opened PageTables
  import opened PagerHistory
  import opened PagerState
  import opened PagerReach
  import opened Paging

  /** Segv is a fault on its own: whatever else is served before the process tries again is another request.
      Read and Write are accesses with nothing else served between their faults and their retries. */
  datatype Request =
    | Start(pid: int)
    | Allocate(pid: int)
    | Segv(pid: int, addr: int)
    | Read(pid: int, addr: int)
    | Write(pid: int, addr: int, value: byte)
    | Log(pid: int, addr: int, len: nat)
    | Exit(pid: int)

  /** Refused stands for a request that never reaches the pager: a process number that was used before or
      is not in use.  Killed stands for a fault at which the process's own handler ends it. */
  datatype Answer =
    | Refused
    | Started
    | NewPage(addr: Option<int>)
    | Serviced
    | Got(value: byte)
    | Put
    | Code(status: int)
    | Gone
    | Killed

  /** The pager's state, its clock, its list of page tables, and the history. */
  datatype Moment = Moment(s: State, hand: nat, lastVictim: Option<nat>, list: seq<TableRecord>, log: seq<Event>,
                           running: bool)

  function Clocked(m: Moment): Whole {
    Whole(m.s, m.hand, m.lastVictim)
  }

  predicate LowestUnowned(blocks: seq<BlockNode>, b: nat) {
    b < |blocks| && blocks[b].page == None && forall c :: 0 <= c < b ==> blocks[c].page.Some?
  }

  /** What a page in block b starts with. */
  ghost function FirstBytes(s: State, b: nat): Bytes
    requires b < |s.blocks|
  {
    if s.blocks[b].used && b < |s.disk| then s.disk[b] else Filled(s.size)
  }

  /** The page tables once a request has been answered. */
  ghost function TablesAfter(tables: map<int, seq<Key>>, r: Request, a: Answer): map<int, seq<Key>> {
    if r.Start? && a == Started then tables[r.pid := []]
    else if r.Allocate? && r.pid in tables && a.NewPage? && a.addr.Some? then
      tables[r.pid := tables[r.pid] + [Key(r.pid, |tables[r.pid]|)]]
    else if a == Gone || a == Killed then tables - {r.pid}
    else tables
  }

  ghost function ListAfter(list: seq<TableRecord>, r: Request, a: Answer): seq<TableRecord> {
    if r.Start? && a == Started then list + [TableRecord(r.pid, true)]
    else if a == Gone || a == Killed then WithEnded(list, r.pid)
    else list
  }

  /** Request r, made at moment m and served at m', was answered a. */
  ghost predicate Answered(m: Moment, r: Request, a: Answer, m': Moment) {
    && AnsweredWith(m, r, a, m') && InOrder(m.s) && GainsInReach(m.s, m'.s)
    && m'.s.tables == TablesAfter(m.s.tables, r, a) && m'.list == ListAfter(m.list, r, a) && m'.s.size == m.s.size
  }

  ghost predicate InOrder(s: State) {
    Inv(s, -1, None) && Reaches(s.mapping, s.owner)
  }

  /** What became reachable starts before the last address. */
  ghost predicate GainsInReach(s: State, s': State) {
    forall k :: Accessible(s'.mapping, k) ==> Accessible(s.mapping, k) || VAddr(k.index, s.size) <= MAXADDR
  }

  ghost predicate AnsweredWith(m: Moment, r: Request, a: Answer, m': Moment) {
    m.s.size > 0 &&
    match r
    case Start(pid) =>
      && a == (if pid != -1 && !UsedBefore(m.list, pid) then Started else Refused)
      && m'.log == m.log
    case Allocate(pid) => AnsweredAllocate(m, pid, a, m')
    case Segv(pid, addr) =>
      if pid in m.s.tables && 0x6000_0000 <= addr <= 0x600F_FFFF && addr < 0x6000_0000 + |m.s.tables[pid]| * m.s.size
      then a == Serviced && AnsweredFault(m, KeyAt(pid, addr, m.s.size), m')
      else Stopped(m, pid, a, m')
    case Read(pid, addr) =>
      if pid in m.s.tables && CanLoad(m.s, pid, addr)
      then a.Got?
           && LoadedLast(m.running, m.log, m'.log, KeyAt(pid, addr, m.s.size), OffsetInPage(addr, m.s.size), a.value)
           && ReadLeaves(Clocked(m), KeyAt(pid, addr, m.s.size), Clocked(m'))
      else Stopped(m, pid, a, m')
    case Write(pid, addr, v) =>
      if pid in m.s.tables && CanStore(m.s, pid, addr)
      then a == Put && StoredLast(m.running, m.log, m'.log, KeyAt(pid, addr, m.s.size), OffsetInPage(addr, m.s.size), v)
           && WriteLeaves(Clocked(m), KeyAt(pid, addr, m.s.size), Clocked(m'))
      else Stopped(m, pid, a, m')
    case Log(pid, addr, len) =>
      && m'.log == m.log
      && a == (if pid !in m.s.tables then Refused
               else if len == 0 || (BASE <= addr && addr + len <= VAddr(|m.s.tables[pid]|, m.s.size)) then Code(0)
               else Code(-1))
    case Exit(pid) =>
      if pid in m.s.tables
      then a == Gone && m'.log == m.log + [Ended(pid)]
      else a == Refused && m'.log == m.log
  }

  /** A load on a page that can be reached changes nothing; on any other it takes one fault. */
  ghost predicate ReadLeaves(w: Whole, k: Key, w': Whole) {
    if Accessible(w.s.mapping, k) then w' == w else FaultDone(w, w', k)
  }

  /** A store on a page that can be stored to changes only contents; on any other it takes one fault if the page
      is resident, and otherwise two. */
  ghost predicate WriteLeaves(w: Whole, k: Key, w': Whole) {
    if Writable(w.s.mapping, k) then w' == w.(s := w.s.(flat := w'.s.flat, pmem := w'.s.pmem))
    else k in w.s.pages && MadeWritable(w, w', k, if w.s.pages[k].isvalid then 1 else 2)
  }

  /** A fault is serviced: a page that was in memory is writable and dirty now, and one that was out came in,
      readable and clean; and nothing else happened but what Fault does. */
  ghost predicate AnsweredFault(m: Moment, k: Key, m': Moment) {
    && Meanwhile(m.running, m.log, m'.log) && k in m.s.pages && FaultDone(Clocked(m), Clocked(m'), k)
    && k in m'.s.pages && m'.s.pages[k].isvalid && k in m'.s.mapping
    && 0 <= m'.s.pages[k].frame < |m'.s.frames| && m'.s.frames[m'.s.pages[k].frame].accessed
    && if m.s.pages[k].isvalid then m'.s.mapping[k].prot == ReadWrite && m'.s.pages[k].dirty
       else m'.s.mapping[k].prot == ReadOnly && !m'.s.pages[k].dirty
  }

  /** A fault that the handler does not let through. */
  ghost predicate Stopped(m: Moment, pid: int, a: Answer, m': Moment) {
    if pid in m.s.tables then a == Killed && m'.log == m.log + [Ended(pid)] else a == Refused && m'.log == m.log
  }

  ghost predicate AnsweredAllocate(m: Moment, pid: int, a: Answer, m': Moment) {
    if pid !in m.s.tables then a == Refused && m'.log == m.log
    else if forall b :: 0 <= b < |m.s.blocks| ==> m.s.blocks[b].page.Some? then a == NewPage(None) && m'.log == m.log
    else
      && a == NewPage(Some(VAddr(|m.s.tables[pid]|, m.s.size)))
      && exists b :: LowestUnowned(m.s.blocks, b)
                     && m'.log == m.log + [Grown(Key(pid, |m.s.tables[pid]|), FirstBytes(m.s, b))]
  }

  /** Between requests processes load and store, and the pager's own state stays. */
  ghost predicate Between(m: Moment, m': Moment) {
    && m'.list == m.list && m'.hand == m.hand && m'.lastVictim == m.lastVictim
    && m'.s == m.s.(flat := m'.s.flat, pmem := m'.s.pmem) && OnlyAccesses(m.log, m'.log)
  }

  /** The account of a run from moment m to moment m': the moments before and after each request. */
  ghost predicate Told(m: Moment, requests: seq<Request>, answers: seq<Answer>, account: seq<(Moment, Moment)>, m': Moment)
    decreases |requests|
  {
    && |answers| == |requests| && |account| == |requests|
    && if requests == [] then Between(m, m')
       else
         var n := |requests| - 1;
         && Told(m, requests[..n], answers[..n], account[..n], account[n].0)
         && Answered(account[n].0, requests[n], answers[n], account[n].1)
         && Between(account[n].1, m')
  }

  ghost function Here(p: Pager): Moment
    reads p, p.frames, p.blocks, p.mmu, p.mmu.pmem, p.mmu.disk
  {
    Moment(p.S(), p.hand, p.lastVictim, p.list, p.mmu.log, p.mmu.running)
  }

  // ---------------------------------------------------------------------------------------------
  // Serving requests
  // ---------------------------------------------------------------------------------------------

  method Serve(p: Pager, r: Request) returns (a: Answer)
    requires p.Valid()
    modifies p, p.frames, p.blocks, p.mmu`log, p.mmu`flat, p.mmu`mapping, p.mmu`owner, p.mmu.pmem, p.mmu.disk
    ensures p.Valid() && Answered(old(Here(p)), r, a, Here(p))
  {
    hide Inv, Unit.Coherent, ListOK, Explained, FaultDone, MadeWritable, ReadLeaves, WriteLeaves, LoadedLast,
         StoredLast, Removed, AnsweredAllocate, InOrder, CanLoad, CanStore, GainsInReach;
    SizeIsPositive(p.S());
    ItsOrder(p);
    SameGains(p.S(), p.S());
    a := Refused;
    match r
    case Start(pid) =>
      var pt := p.FindPageTable(pid);
      UsedIff(p.list, p.tables, pid);
      if pid != -1 && pt == |p.list| {
        p.Create(pid);
        a := Started;
      }
      SameGains(old(p.S()), p.S());
    case Allocate(pid) =>
      a := ServeAllocate(p, pid);
      SameGains(old(p.S()), p.S());
    case Segv(pid, addr) =>
      if pid in p.tables {
        a := ServeFault(p, pid, addr);
      }
    case Read(pid, addr) =>
      if pid in p.tables {
        a := ServeRead(p, pid, addr);
      }
    case Write(pid, addr, v) =>
      if pid in p.tables {
        a := ServeWrite(p, pid, addr, v);
      }
    case Log(pid, addr, len) =>
      if pid in p.tables {
        var code, _ := p.Syslog(pid, addr, len);
        a := Code(code);
      }
    case Exit(pid) =>
      if pid in p.tables {
        RemovedTables(p.S(), pid);
        p.Destroy(pid);
        a := Gone;
      }
  }

  method ServeFault(p: Pager, pid: int, addr: int) returns (a: Answer)
    requires p.Valid() && pid in p.tables
    modifies p, p.frames, p.blocks, p.mmu`log, p.mmu`flat, p.mmu`mapping, p.mmu`owner, p.mmu.pmem, p.mmu.disk
    ensures p.Valid() && Answered(old(Here(p)), Segv(pid, addr), a, Here(p))
  {
    hide Inv, Unit.Coherent, ListOK, Explained, Removed, InOrder, GainsInReach, GainedOnly;
    ghost var s := p.S();
    SizeIsPositive(s);
    ItsOrder(p);
    RemovedTables(s, pid);
    var handled := p.Segv(pid, addr);
    if handled {
      GainInReach(s, p.S(), pid, addr);
    }
    a := if handled then Serviced else Killed;
  }

  method ServeRead(p: Pager, pid: int, addr: int) returns (a: Answer)
    requires p.Valid() && pid in p.tables
    modifies p, p.frames, p.blocks, p.mmu`log, p.mmu`flat, p.mmu`mapping, p.mmu`owner, p.mmu.pmem, p.mmu.disk
    ensures p.Valid() && Answered(old(Here(p)), Read(pid, addr), a, Here(p))
  {
    hide Inv, Unit.Coherent, ListOK, Explained, Removed, InOrder, GainsInReach, GainedOnly, LoadedLast, FaultDone;
    ghost var s := p.S();
    ItsOrder(p);
    RemovedTables(s, pid);
    var v, _ := p.LoadByte(pid, addr);
    if v.Some? {
      GainInReach(s, p.S(), pid, addr);
      a := Got(v.value);
    } else {
      a := Killed;
    }
  }

  method ServeWrite(p: Pager, pid: int, addr: int, v: byte) returns (a: Answer)
    requires p.Valid() && pid in p.tables
    modifies p, p.frames, p.blocks, p.mmu`log, p.mmu`flat, p.mmu`mapping, p.mmu`owner, p.mmu.pmem, p.mmu.disk
    ensures p.Valid() && Answered(old(Here(p)), Write(pid, addr, v), a, Here(p))
  {
    hide Inv, Unit.Coherent, ListOK, Explained, Removed, InOrder, GainsInReach, GainedOnly, StoredLast, MadeWritable;
    ghost var s := p.S();
    ItsOrder(p);
    RemovedTables(s, pid);
    var ok, _ := p.StoreByte(pid, addr, v);
    if ok {
      GainInReach(s, p.S(), pid, addr);
    }
    a := if ok then Put else Killed;
  }

  lemma ItsOrder(p: Pager)
    requires p.Valid()
    ensures InOrder(p.S())
  {
    hide Inv, ListOK, Explained, FlatMemory, Flat;
  }

  lemma SameGains(s: State, s': State)
    requires s'.mapping == s.mapping
    ensures GainsInReach(s, s')
  {
  }

  /** Only a fault that was let through makes a page reachable. */
  lemma GainInReach(s: State, s': State, pid: int, addr: int)
    requires s.size > 0 && BASE <= addr && GainedOnly(s.mapping, s'.mapping, KeyAt(pid, addr, s.size))
    requires Accessible(s.mapping, KeyAt(pid, addr, s.size)) || addr <= MAXADDR
    ensures GainsInReach(s, s')
  {
    InPage(addr, (addr - BASE) / s.size, s.size);
  }

  lemma UsedIff(list: seq<TableRecord>, tables: map<int, seq<Key>>, pid: int)
    requires ListOK(list, tables)
    ensures FirstTable(list, pid, 0) == |list| <==> !UsedBefore(list, pid)
    ensures !UsedBefore(list, pid) ==> pid !in tables
  {
  }

  lemma RemovedTables(s: State, pid: int)
    ensures Removed(s, pid).tables == s.tables - {pid} && Removed(s, pid).size == s.size
    ensures GainsInReach(s, Removed(s, pid))
  {
  }

  method ServeAllocate(p: Pager, pid: int) returns (a: Answer)
    requires p.Valid()
    modifies p`tables, p`pages, p.blocks, p.mmu`log, p.mmu`flat
    ensures p.Valid() && AnsweredAllocate(old(Here(p)), pid, a, Here(p))
    ensures p.tables == TablesAfter(old(p.tables), Allocate(pid), a)
    ensures !a.Gone? && !a.Killed?
  {
    hide Inv, Unit.Coherent, ListOK, Explained;
    SizeIsPositive(p.S());
    a := Refused;
    if pid in p.tables {
      ghost var m := Here(p);
      var r := p.Extend(pid);
      a := NewPage(r);
      if r.Some? {
        ExtendAnswered(m, pid, Here(p));
      }
    }
  }

  lemma ExtendAnswered(m: Moment, pid: int, m': Moment)
    requires pid in m.s.tables && |m.s.blocks| == |m.s.disk|
    requires var k := Key(pid, |m.s.tables[pid]|);
             Grew(m.s, m'.s, k) && m'.log == m.log + [Grown(k, Backing(m.s, m'.s.pages[k]))]
    ensures AnsweredAllocate(m, pid, NewPage(Some(VAddr(|m.s.tables[pid]|, m.s.size))), m')
    ensures m'.s.tables == m.s.tables[pid := m.s.tables[pid] + [Key(pid, |m.s.tables[pid]|)]]
  {
    var b := m'.s.pages[Key(pid, |m.s.tables[pid]|)].block;
    assert LowestUnowned(m.s.blocks, b);
  }

  /**
   * Any sequence of requests.  The history only grows; the account says what every request was answered;
   * all of the history is one that flat, private memories could have produced; and every page in it
   * started as zero fill, or with what a page of an ended process held at some moment before it ended.
   */
  method Run(p: Pager, requests: seq<Request>) returns (answers: seq<Answer>, ghost account: seq<(Moment, Moment)>)
    requires p.Valid()
    modifies p, p.frames, p.blocks, p.mmu`log, p.mmu`flat, p.mmu`mapping, p.mmu`owner, p.mmu.pmem, p.mmu.disk
    ensures p.Valid() && |answers| == |requests|
    ensures Told(old(Here(p)), requests, answers, account, Here(p))
    ensures Extends(old(p.mmu.log), p.mmu.log)
    ensures FlatMemory(p.mmu.log) && FirstContents(p.mmu.log, p.mmu.pageSize)
  {
    hide Answered, Between, Told, Inv, Unit.Coherent, ListOK, Explained, Extends, FlatMemory, FirstContents;
    answers, account := [], [];
    ghost var start := Here(p);
    Rest(p);
    ToldNothing(start, Here(p));
    assert requests[..0] == [];
    for i := 0 to |requests|
      invariant p.Valid() && |answers| == i && |account| == i
      invariant Told(start, requests[..i], answers, account, Here(p))
    {
      ghost var before := Here(p);
      var a;
      ghost var after;
      a, after := ServeAndRest(p, requests[i]);
      ToldMore(start, requests[..i], answers, account, before, requests[i], a, after, Here(p));
      answers, account := answers + [a], account + [(before, after)];
      assert requests[..i] + [requests[i]] == requests[..i + 1];
    }
    assert requests[..|requests|] == requests;
    HistoryGrows(start, requests, answers, account, Here(p));
    HistoryIsFlat(p);
  }

  /** One request, and then processes run on. */
  method ServeAndRest(p: Pager, r: Request) returns (a: Answer, ghost after: Moment)
    requires p.Valid()
    modifies p, p.frames, p.blocks, p.mmu`log, p.mmu`flat, p.mmu`mapping, p.mmu`owner, p.mmu.pmem, p.mmu.disk
    ensures p.Valid() && Answered(old(Here(p)), r, a, after) && Between(after, Here(p))
  {
    hide Answered, Between, Inv, Unit.Coherent, ListOK, Explained;
    a := Serve(p, r);
    after := Here(p);
    Rest(p);
  }

  method Rest(p: Pager)
    requires p.Valid()
    modifies p.mmu`log, p.mmu`flat, p.mmu.pmem
    ensures p.Valid() && Between(old(Here(p)), Here(p))
  {
    hide Inv, Unit.Coherent, ListOK, Explained;
    p.Idle();
    BetweenIdle(old(Here(p)), Here(p));
  }

  lemma HistoryIsFlat(p: Pager)
    requires p.Valid()
    ensures FlatMemory(p.mmu.log) && FirstContents(p.mmu.log, p.mmu.pageSize)
  {
    hide Inv, ListOK, FlatMemory, FirstContents;
  }

  lemma BetweenIdle(m: Moment, m': Moment)
    requires m'.list == m.list && m'.hand == m.hand && m'.lastVictim == m.lastVictim
    requires m'.s == m.s.(flat := m'.s.flat, pmem := m'.s.pmem)
    requires Meanwhile(m.running, m.log, m'.log)
    ensures Between(m, m')
  {
  }

  lemma ToldNothing(m: Moment, m': Moment)
    requires Between(m, m')
    ensures Told(m, [], [], [], m')
  {
  }

  lemma ToldMore(m: Moment, requests: seq<Request>, answers: seq<Answer>, account: seq<(Moment, Moment)>,
                 before: Moment, r: Request, a: Answer, after: Moment, m': Moment)
    requires Told(m, requests, answers, account, before) && Answered(before, r, a, after) && Between(after, m')
    ensures Told(m, requests + [r], answers + [a], account + [(before, after)], m')
  {
    hide Answered, Between;
    assert (requests + [r])[..|requests|] == requests;
    assert (answers + [a])[..|requests|] == answers;
    assert (account + [(before, after)])[..|requests|] == account;
  }

  // ---------------------------------------------------------------------------------------------
  // What an account says about the history
  // ---------------------------------------------------------------------------------------------

  lemma AnswerExtends(m: Moment, r: Request, a: Answer, m': Moment)
    requires Answered(m, r, a, m')
    ensures Extends(m.log, m'.log)
  {
    hide LastValue, InOrder, GainsInReach, CanLoad, CanStore, ReadLeaves, WriteLeaves, FaultDone;
    if a.Got? || a == Put {
      LastIsAccess(m.running, m.log, m'.log);
    }
  }

  lemma ExtendsTwice(a: seq<Event>, b: seq<Event>, c: seq<Event>)
    requires Extends(a, b) && Extends(b, c)
    ensures Extends(a, c)
  {
    assert c[..|a|] == c[..|b|][..|a|];
  }

  /** The history after each request is a prefix of the history after the run. */
  lemma {:induction false} HistoryGrows(m: Moment, requests: seq<Request>, answers: seq<Answer>,
                                        account: seq<(Moment, Moment)>, m': Moment)
    requires Told(m, requests, answers, account, m')
    ensures Extends(m.log, m'.log)
    ensures forall i :: 0 <= i < |account| ==> Extends(account[i].0.log, account[i].1.log) && Extends(account[i].1.log, m'.log)
    decreases |requests|
  {
    hide Answered;
    if requests != [] {
      var n := |requests| - 1;
      var before, after := account[n].0, account[n].1;
      HistoryGrows(m, requests[..n], answers[..n], account[..n], before);
      AnswerExtends(before, requests[n], answers[n], after);
      ExtendsTwice(before.log, after.log, m'.log);
      ExtendsTwice(m.log, before.log, m'.log);
      forall i | 0 <= i < n
        ensures Extends(account[i].0.log, account[i].1.log) && Extends(account[i].1.log, m'.log)
      {
        assert account[..n][i] == account[i];
        ExtendsTwice(account[i].1.log, before.log, m'.log);
      }
    }
  }

  lemma {:induction false} EachAnswered(m: Moment, requests: seq<Request>, answers: seq<Answer>,
                                        account: seq<(Moment, Moment)>, m': Moment, i: nat)
    requires Told(m, requests, answers, account, m') && i < |requests|
    ensures |answers| == |account| == |requests|
    ensures Answered(account[i].0, requests[i], answers[i], account[i].1)
    decreases |requests|
  {
    hide Answered;
    var n := |requests| - 1;
    if i < n {
      EachAnswered(m, requests[..n], answers[..n], account[..n], account[n].0, i);
    }
  }

  lemma ReadLoads(m: Moment, pid: int, addr: int, a: Answer, m': Moment)
    requires Answered(m, Read(pid, addr), a, m') && pid in m.s.tables && CanLoad(m.s, pid, addr)
    ensures m.s.size > 0 && a.Got?
    ensures LoadedLast(m.running, m.log, m'.log, KeyAt(pid, addr, m.s.size), OffsetInPage(addr, m.s.size), a.value)
  {
    hide ReadLeaves, InOrder, GainsInReach;
  }

  /** Every read of a run at an address that can be loaded from is a load in the history, and it was answered
      with the last value stored to that byte before it. */
  lemma {:induction false} ReadsReturnLastValues(m: Moment, requests: seq<Request>, answers: seq<Answer>,
                                                 account: seq<(Moment, Moment)>, m': Moment, i: nat)
    requires Told(m, requests, answers, account, m') && i < |requests| && requests[i].Read?
    requires i < |account| && requests[i].pid in account[i].0.s.tables
    requires CanLoad(account[i].0.s, requests[i].pid, requests[i].addr)
    ensures i < |answers| && answers[i].Got? && account[i].0.s.size > 0
    ensures var size := account[i].0.s.size;
            var k, o := KeyAt(requests[i].pid, requests[i].addr, size), OffsetInPage(requests[i].addr, size);
            exists q :: |account[i].0.log| <= q < |account[i].1.log| <= |m'.log|
                        && m'.log[q] == Loaded(k, o, answers[i].value)
                        && LastValue(m'.log[..q], k, o) == Some(answers[i].value)
  {
    EachAnswered(m, requests, answers, account, m', i);
    HistoryGrows(m, requests, answers, account, m');
    hide Told, LastValue, Answered, CanLoad;
    ReadLoads(account[i].0, requests[i].pid, requests[i].addr, answers[i], account[i].1);
    var log := account[i].1.log;
    var q := |log| - 1;
    assert m'.log[..|log|] == log;
    assert m'.log[q] == m'.log[..|log|][q] == log[q];
    assert m'.log[..q] == m'.log[..|log|][..q] == log[..q];
  }

  /** The end of a process is an answer to its own exit, or to its own fault. */
  predicate EndOf(r: Request, a: Answer, pid: int) {
    r == Exit(pid) || (r.pid == pid && a == Killed)
  }

  /** Between the moments of a request, and between requests, everything is loads and stores except for the
      page that an allocation made and the end of a process. */
  lemma {:induction false} EventsAreAnswers(m: Moment, requests: seq<Request>, answers: seq<Answer>,
                                            account: seq<(Moment, Moment)>, m': Moment, q: nat)
    requires Told(m, requests, answers, account, m') && |m.log| <= q < |m'.log|
    requires m'.log[q].Grown? || m'.log[q].Ended?
    ensures exists i :: 0 <= i < |requests| == |account| == |answers| && q == |account[i].0.log| && |account[i].1.log| == q + 1
                        && account[i].1.log[q] == m'.log[q]
                        && (m'.log[q].Grown? ==> requests[i] == Allocate(m'.log[q].key.pid))
                        && (m'.log[q].Ended? ==> EndOf(requests[i], answers[i], m'.log[q].pid))
    decreases |requests|
  {
    if requests != [] {
      var n := |requests| - 1;
      var before, after := account[n].0, account[n].1;
      HistoryGrows(m, requests, answers, account, m');
      if q < |before.log| {
        assert m'.log[q] == m'.log[..|after.log|][q] == after.log[q] == after.log[..|before.log|][q] == before.log[q];
        hide Answered, Between;
        EventsAreAnswers(m, requests[..n], answers[..n], account[..n], before, q);
        var i :| 0 <= i < n && q == |account[..n][i].0.log| && |account[..n][i].1.log| == q + 1
                 && account[..n][i].1.log[q] == before.log[q]
                 && (before.log[q].Grown? ==> requests[..n][i] == Allocate(before.log[q].key.pid))
                 && (before.log[q].Ended? ==> EndOf(requests[..n][i], answers[..n][i], before.log[q].pid));
        assert account[i] == account[..n][i] && requests[i] == requests[..n][i] && answers[i] == answers[..n][i];
      } else {
        AnswerEvent(before, requests[n], answers[n], after, m'.log, q);
      }
    }
  }

  /** One request makes at most one event that is not a load or a store, its first. */
  lemma {:induction false} AnswerEvent(m: Moment, r: Request, a: Answer, m': Moment, log: seq<Event>, q: nat)
    requires Answered(m, r, a, m') && OnlyAccesses(m'.log, log) && |m.log| <= q < |log|
    requires log[q].Grown? || log[q].Ended?
    ensures q == |m.log| && |m'.log| == q + 1 && m'.log[q] == log[q]
    ensures log[q].Grown? ==> r == Allocate(log[q].key.pid)
    ensures log[q].Ended? ==> EndOf(r, a, log[q].pid)
  {
    hide LastValue, InOrder, GainsInReach, CanLoad, CanStore, ReadLeaves, WriteLeaves, FaultDone;
    assert q < |m'.log| ==> log[q] == log[..|m'.log|][q] == m'.log[q];
    if a.Got? || a == Put {
      LastIsAccess(m.running, m.log, m'.log);
    }
  }

  // ---------------------------------------------------------------------------------------------
  // What processes can use
  // ---------------------------------------------------------------------------------------------

  lemma {:induction false} StaysInReach(s: State, s': State)
    requires InReach(s) && GainsInReach(s, s') && s'.size == s.size
    ensures InReach(s')
  {
  }

  /** In a run, no process ever reaches a page beyond the last address. */
  lemma {:induction false} InReachThroughout(m: Moment, requests: seq<Request>, answers: seq<Answer>,
                                             account: seq<(Moment, Moment)>, m': Moment)
    requires Told(m, requests, answers, account, m') && InReach(m.s)
    ensures InReach(m'.s) && forall i :: 0 <= i < |account| ==> InReach(account[i].0.s) && InReach(account[i].1.s)
    decreases |requests|
  {
    hide AnsweredWith, InOrder, InReach, GainsInReach;
    if requests == [] {
      SameGains(m.s, m'.s);
      StaysInReach(m.s, m'.s);
    } else {
      var n := |requests| - 1;
      var before, after := account[n].0, account[n].1;
      InReachThroughout(m, requests[..n], answers[..n], account[..n], before);
      StaysInReach(before.s, after.s);
      SameGains(after.s, m'.s);
      StaysInReach(after.s, m'.s);
      forall i | 0 <= i < n ensures InReach(account[i].0.s) && InReach(account[i].1.s) {
        assert account[i] == account[..n][i];
      }
    }
  }

  /** So in a run, with pages that fill the space, an access by a live process succeeds exactly at its
      allocated addresses up to the last one, and ends the process at all others. */
  lemma {:induction false} AccessesSucceedIff(m: Moment, requests: seq<Request>, answers: seq<Answer>,
                                              account: seq<(Moment, Moment)>, m': Moment, i: nat)
    requires Told(m, requests, answers, account, m') && InReach(m.s) && i < |requests| == |account| == |answers|
    requires (requests[i].Read? || requests[i].Write?) && requests[i].pid in account[i].0.s.tables
    requires account[i].0.s.size > 0 && 0x10_0000 % account[i].0.s.size == 0
    ensures answers[i].Got? || answers[i] == Put
            <==> 0x6000_0000 <= requests[i].addr <= 0x600F_FFFF
                 && requests[i].addr < 0x6000_0000 + |account[i].0.s.tables[requests[i].pid]| * account[i].0.s.size
    ensures answers[i].Got? || answers[i] == Put || answers[i] == Killed
    ensures answers[i] == Killed ==> account[i].1.log == account[i].0.log + [Ended(requests[i].pid)]
  {
    EachAnswered(m, requests, answers, account, m', i);
    InReachThroughout(m, requests, answers, account, m');
    hide Told, Inv, Reaches, LoadedLast, StoredLast, GainsInReach, ReadLeaves, WriteLeaves;
    UsableIff(account[i].0.s, requests[i].pid, requests[i].addr);
  }
}
