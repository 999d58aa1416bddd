/** The changes that a fault makes, as a list for the handshake, and that the list comes to what the pager
    records. */
module FaultScripts {
  import opened Common
  import opened Mmu
  import opened PagerState
  import opened Handshake
  import opened Refinement
  import P = Protocol
  import opened ProtocolProofs

  const PROT_NONE := 0
  const PROT_READ := 1
  const PROT_READ_WRITE := 3

  /** The client that runs a process. */
  function ClientOf(pids: seq<int>, pid: int, i: nat): nat
    requires i <= |pids|
    ensures i <= ClientOf(pids, pid, i) <= |pids|
    decreases |pids| - i
  {
    if i == |pids| || pids[i] == pid then i else ClientOf(pids, pid, i + 1)
  }

  function Protect(pids: seq<int>, size: nat, k: Key, prot: int): P.Call {
    P.Chprot(ClientOf(pids, k.pid, 0), VAddr(k.index, size), prot)
  }

  function MapTo(pids: seq<int>, size: nat, k: Key, frame: nat): P.Call {
    P.Remap(ClientOf(pids, k.pid, 0), VAddr(k.index, size), frame, PROT_READ)
  }

  /** The loop that takes the protections of the pages in the first n frames. */
  ghost function RevokeCalls(s: State, pids: seq<int>, n: nat): seq<P.Call>
    requires n <= |s.frames|
  {
    if n == 0 then []
    else RevokeCalls(s, pids, n - 1) +
         (if s.frames[n - 1].page.Some? then [Protect(pids, s.size, s.frames[n - 1].page.value, PROT_NONE)] else [])
  }

  /** What an eviction of the page in frame f does. */
  ghost function EvictCalls(s: State, pids: seq<int>, f: nat): seq<P.Call>
    requires f < |s.frames| && s.frames[f].page.Some?
  {
    (if f == 0 then RevokeCalls(s, pids, |s.frames|) else []) + [Protect(pids, s.size, s.frames[f].page.value, PROT_NONE)]
  }

  /** Every live process is run by some client. */
  ghost predicate Serving(s: State, pids: seq<int>) {
    forall pid :: pid in s.tables ==> pid in pids
  }

  lemma {:induction false} ClientFound(pids: seq<int>, pid: int, i: nat)
    requires i <= |pids| && pid in pids[i..]
    ensures ClientOf(pids, pid, i) < |pids| && pids[ClientOf(pids, pid, i)] == pid
    decreases |pids| - i
  {
    if pids[i] != pid {
      assert pids[i..][1..] == pids[i + 1..];
      ClientFound(pids, pid, i + 1);
    }
  }

  /** One more change. */
  lemma {:induction false} ChangedByOneMore(m: map<Key, Mapping>, pids: seq<int>, size: nat, calls: seq<P.Call>, call: P.Call)
    requires size > 0 && call.target < |pids|
    ensures ChangedBy(m, pids, size, calls + [call])
            == Changed(ChangedBy(m, pids, size, calls), pids[call.target], size, call)
  {
    assert (calls + [call])[..|calls|] == calls;
  }

  lemma {:induction false} KeyOfCall(k: Key, size: nat)
    requires size > 0
    ensures StartsPage(VAddr(k.index, size), size) && KeyAt(k.pid, VAddr(k.index, size), size) == k
  {
    InPage(VAddr(k.index, size), k.index, size);
  }

  lemma {:induction false} ProtectIs(m: map<Key, Mapping>, pids: seq<int>, size: nat, calls: seq<P.Call>, k: Key, prot: int)
    requires size > 0 && k.pid in pids && k in ChangedBy(m, pids, size, calls)
    ensures var m1 := ChangedBy(m, pids, size, calls);
            ChangedBy(m, pids, size, calls + [Protect(pids, size, k, prot)]) == m1[k := m1[k].(prot := ProtOf(prot))]
  {
    hide VAddr;
    ClientFound(pids, k.pid, 0);
    KeyOfCall(k, size);
    ChangedByOneMore(m, pids, size, calls, Protect(pids, size, k, prot));
  }

  lemma {:induction false} MapToIs(m: map<Key, Mapping>, pids: seq<int>, size: nat, calls: seq<P.Call>, k: Key, f: nat)
    requires size > 0 && k.pid in pids
    ensures ChangedBy(m, pids, size, calls + [MapTo(pids, size, k, f)])
            == ChangedBy(m, pids, size, calls)[k := Mapping(f, ReadOnly)]
  {
    hide VAddr;
    ClientFound(pids, k.pid, 0);
    KeyOfCall(k, size);
    ChangedByOneMore(m, pids, size, calls, MapTo(pids, size, k, f));
  }

  lemma {:induction false} OccupantIs(s: State, f: nat)
    requires Inv(s, -1, None) && f < |s.frames| && s.frames[f].pid != -1
    ensures s.size > 0 && s.frames[f].page.Some?
    ensures var k := s.frames[f].page.value;
            && k.pid == s.frames[f].pid && k.pid in s.tables && f in s.owner && s.owner[f] == k
            && k in s.mapping && s.mapping[k].frame == f
  {
    InFrame(s, f);
    FramesAreLive(s, f);
    assert OccupiedOK(s, f);
  }

  /** The loop comes to what the pager records. */
  lemma {:induction false} RevokeCallsGive(s: State, pids: seq<int>, n: nat)
    requires Inv(s, -1, None) && Serving(s, pids) && n <= |s.frames| && s.size > 0
    requires forall f :: 0 <= f < |s.frames| ==> s.frames[f].pid != -1
    ensures ChangedBy(s.mapping, pids, s.size, RevokeCalls(s, pids, n)) == Revoked(s.mapping, s.owner, n)
  {
    hide Inv, VAddr, Protect, Changed, ChangedBy, Revoked;
    if n > 0 {
      RevokeCallsGive(s, pids, n - 1);
      OccupantIs(s, n - 1);
      var k := s.frames[n - 1].page.value;
      RevokeNext(s.mapping, s.owner, n - 1, k);
      StillMapped(s.mapping, s.owner, n - 1, k);
      ProtectIs(s.mapping, pids, s.size, RevokeCalls(s, pids, n - 1), k, PROT_NONE);
    } else {
      NothingRevoked(s.mapping, s.owner, pids, s.size);
    }
  }

  lemma StillMapped(m: map<Key, Mapping>, owner: map<nat, Key>, n: nat, k: Key)
    ensures k in Revoked(m, owner, n) <==> k in m
  {
  }

  lemma NothingRevoked(m: map<Key, Mapping>, owner: map<nat, Key>, pids: seq<int>, size: nat)
    requires size > 0
    ensures Revoked(m, owner, 0) == m == ChangedBy(m, pids, size, [])
  {
  }

  /** So does an eviction. */
  lemma {:induction false} EvictCallsGive(s: State, pids: seq<int>, f: nat)
    requires Inv(s, -1, None) && Serving(s, pids) && f < |s.frames|
    requires forall g :: 0 <= g < |s.frames| ==> s.frames[g].pid != -1
    ensures s.size > 0 && s.frames[f].page.Some? && s.frames[f].page.value in s.mapping
    ensures ChangedBy(s.mapping, pids, s.size, EvictCalls(s, pids, f)) == EvictedMapping(s, f, s.frames[f].page.value)
  {
    OccupantIs(s, f);
    RevokeCallsGive(s, pids, |s.frames|);
    StillMapped(s.mapping, s.owner, |s.frames|, s.frames[f].page.value);
    NothingRevoked(s.mapping, s.owner, pids, s.size);
    hide Inv, Protect, RevokeCalls, Changed, ChangedBy, Revoked;
    var before := if f == 0 then RevokeCalls(s, pids, |s.frames|) else [];
    ProtectIs(s.mapping, pids, s.size, before, s.frames[f].page.value, PROT_NONE);
  }

  /** The list of changes of a fault: on a resident page, on one that goes to a free frame, and on one that takes
      the frame of a victim. */
  ghost function FaultCalls(s: State, pids: seq<int>, k: Key, f: nat): seq<P.Call>
    requires k in s.pages && f < |s.frames|
  {
    if s.pages[k].isvalid then [Protect(pids, s.size, k, PROT_READ_WRITE)]
    else if s.frames[f].pid == -1 || s.frames[f].page == None then [MapTo(pids, s.size, k, f)]
    else EvictCalls(s, pids, f) + [MapTo(pids, s.size, k, f)]
  }

  lemma OfLiveProcess(s: State, k: Key)
    requires Inv(s, -1, None) && k in s.pages
    ensures k.pid in s.tables && s.size > 0
  {
  }

  lemma {:induction false} ReplaceCallsGive(s: State, s': State, pids: seq<int>, k: Key, f: nat)
    requires Inv(s, -1, None) && Serving(s, pids) && k in s.pages && f < |s.frames|
    requires Replaced(s, s', k, f) && forall g :: 0 <= g < |s.frames| ==> s.frames[g].pid != -1
    ensures s.size > 0 && s.frames[f].page.Some? && k.pid in s.tables
    ensures s'.mapping == ChangedBy(s.mapping, pids, s.size, EvictCalls(s, pids, f) + [MapTo(pids, s.size, k, f)])
  {
    OfLiveProcess(s, k);
    EvictCallsGive(s, pids, f);
    hide Inv, MapTo, Changed, ChangedBy, EvictCalls, EvictedMapping;
    MapToIs(s.mapping, pids, s.size, EvictCalls(s, pids, f), k, f);
  }

  lemma {:induction false} RevokeCallsProtect(s: State, pids: seq<int>, n: nat)
    requires n <= |s.frames|
    ensures forall j :: 0 <= j < |RevokeCalls(s, pids, n)| ==>
              RevokeCalls(s, pids, n)[j].Chprot? && RevokeCalls(s, pids, n)[j].prot == 0
  {
    if n > 0 {
      RevokeCallsProtect(s, pids, n - 1);
    }
  }

  /** PROT_NONE for every page that loses its protection, and then PROT_READ | PROT_WRITE for a page that was
      resident, or PROT_READ, in its frame, for one that was not. */
  lemma {:induction false} FaultCallsAre(s: State, pids: seq<int>, k: Key, f: nat)
    requires k in s.pages && f < |s.frames|
    ensures var calls := FaultCalls(s, pids, k, f);
            && calls != []
            && (forall j :: 0 <= j < |calls| - 1 ==> calls[j].Chprot? && calls[j].prot == 0)
            && calls[|calls| - 1] ==
               var target, page := ClientOf(pids, k.pid, 0), 0x6000_0000 + k.index * s.size;
               if s.pages[k].isvalid then P.Chprot(target, page, 3) else P.Remap(target, page, f, 1)
  {
    RevokeCallsProtect(s, pids, |s.frames|);
  }

  /** The list of a fault comes to the mapping that the pager has after it. */
  lemma {:induction false} FaultCallsGive(s: State, s': State, pids: seq<int>, k: Key, f: nat)
    requires Inv(s, -1, None) && Serving(s, pids) && k in s.pages && f < |s.frames|
    requires if s.pages[k].isvalid then Upgraded(s, s', k)
             else if s.frames[f].pid == -1 then BroughtIn(s, s', k, f)
             else Replaced(s, s', k, f) && forall g :: 0 <= g < |s.frames| ==> s.frames[g].pid != -1
    ensures s.size > 0 && s'.mapping == ChangedBy(s.mapping, pids, s.size, FaultCalls(s, pids, k, f))
  {
    hide Inv, Protect, MapTo, Changed, ChangedBy, EvictCalls, Replaced, Revoked;
    OfLiveProcess(s, k);
    NothingRevoked(s.mapping, s.owner, pids, s.size);
    if s.pages[k].isvalid {
      ProtectIs(s.mapping, pids, s.size, [], k, PROT_READ_WRITE);
      assert [] + [Protect(pids, s.size, k, PROT_READ_WRITE)] == FaultCalls(s, pids, k, f);
    } else if s.frames[f].pid == -1 {
      MapToIs(s.mapping, pids, s.size, [], k, f);
      assert [] + [MapTo(pids, s.size, k, f)] == FaultCalls(s, pids, k, f);
    } else {
      ReplaceCallsGive(s, s', pids, k, f);
    }
  }

  // ---------------------------------------------------------------------------------------------
  // A fault under the handshake
  // ---------------------------------------------------------------------------------------------

  /** A change for the faulting process, or for one with a page in a frame. */
  ghost predicate Concerned(s: State, pids: seq<int>, pid: int, calls: seq<P.Call>) {
    forall j :: 0 <= j < |calls| ==> calls[j].target < |pids| && Concerns(s, pid, pids[calls[j].target])
  }

  lemma {:induction false} RevokeCallsConcern(s: State, pids: seq<int>, pid: int, n: nat)
    requires Inv(s, -1, None) && Serving(s, pids) && n <= |s.frames|
    requires forall f :: 0 <= f < |s.frames| ==> s.frames[f].pid != -1
    ensures Concerned(s, pids, pid, RevokeCalls(s, pids, n)) && |RevokeCalls(s, pids, n)| <= n
  {
    hide Inv, VAddr;
    if n > 0 {
      RevokeCallsConcern(s, pids, pid, n - 1);
      OccupantIs(s, n - 1);
      ClientFound(pids, s.frames[n - 1].page.value.pid, 0);
    }
  }

  lemma {:induction false} EvictCallsConcern(s: State, pids: seq<int>, pid: int, f: nat)
    requires Inv(s, -1, None) && Serving(s, pids) && f < |s.frames|
    requires forall g :: 0 <= g < |s.frames| ==> s.frames[g].pid != -1
    ensures s.frames[f].page.Some? && Concerned(s, pids, pid, EvictCalls(s, pids, f))
    ensures |EvictCalls(s, pids, f)| <= |s.frames| + 1
  {
    hide Inv, VAddr, RevokeCalls, ClientOf;
    OccupantIs(s, f);
    ClientFound(pids, s.frames[f].page.value.pid, 0);
    RevokeCallsConcern(s, pids, pid, |s.frames|);
  }

  lemma {:induction false} FaultCallsConcern(s: State, pids: seq<int>, k: Key, f: nat)
    requires Inv(s, -1, None) && Serving(s, pids) && k in s.pages && f < |s.frames|
    requires s.frames[f].pid != -1 ==> s.pages[k].isvalid || forall g :: 0 <= g < |s.frames| ==> s.frames[g].pid != -1
    ensures k.pid in s.tables && Concerned(s, pids, k.pid, FaultCalls(s, pids, k, f))
    ensures |FaultCalls(s, pids, k, f)| <= |s.frames| + 2
  {
    hide Inv, VAddr, RevokeCalls, EvictCalls, ClientOf;
    OfLiveProcess(s, k);
    ClientFound(pids, k.pid, 0);
    if !s.pages[k].isvalid && s.frames[f].pid != -1 {
      OccupantIs(s, f);
      EvictCallsConcern(s, pids, k.pid, f);
    }
  }

  /** How the pager's state goes over a fault at page k that used or emptied frame f. */
  ghost predicate Faulted(s: State, s': State, k: Key, f: nat) {
    && k in s.pages && f < |s.frames|
    && if s.pages[k].isvalid then Upgraded(s, s', k)
       else if s.frames[f].pid == -1 then BroughtIn(s, s', k, f)
       else Replaced(s, s', k, f) && forall g :: 0 <= g < |s.frames| ==> s.frames[g].pid != -1
  }

  /** A thread that services a fault may enter the pager with the fault's list of changes, and when it leaves,
      whatever all other threads did meanwhile, the clients have mapped what the pager's state says. */
  lemma {:induction false} FaultRefines(states: seq<P.State>, steps: seq<P.Step>, limit: nat, pids: seq<int>, i: nat, k: nat,
                                        h: nat, s: State, s': State, page: Key, f: nat)
    requires Inv(s, -1, None) && Faulted(s, s', page, f)
    requires Run(states, steps, limit) && P.Inv(states[0]) && i < k < |steps| && limit >= |s.frames| + 2
    requires Agrees(s.mapping, states[i], pids, s.size) && SameProcesses(s, states[i], pids)
    ensures P.Admissible(states[i], FaultCalls(s, pids, page, f), limit)
    ensures steps[i] == P.Enter(h, FaultCalls(s, pids, page, f)) && steps[k] == P.LeavePager(h)
            && (forall j :: i < j < k ==> steps[j] != P.LeavePager(h))
            && h < |states[k].clients|
            && states[k].clients[h].server.Inside? && states[k].clients[h].server.kind != P.Exit ==>
              Agrees(s'.mapping, states[k + 1], pids, s.size)
  {
    hide Inv, P.Inv, P.Enabled, P.Next, Agrees, FaultCalls, ChangedBy, BroughtIn, Replaced, Upgraded;
    AllServed(s, states[i], pids);
    FaultCallsConcern(s, pids, page, f);
    var calls := FaultCalls(s, pids, page, f);
    FaultsAreAdmissible(s, states[i], pids, page.pid, calls, limit);
    if steps[i] == P.Enter(h, calls) && steps[k] == P.LeavePager(h)
       && (forall j :: i < j < k ==> steps[j] != P.LeavePager(h)) {
      SectionRefines(states, steps, limit, pids, s.size, s.mapping, h, calls, i, k);
      FaultCallsGive(s, s', pids, page, f);
    }
  }

  lemma AllServed(s: State, p: P.State, pids: seq<int>)
    requires SameProcesses(s, p, pids)
    ensures Serving(s, pids) && |pids| == |p.clients|
  {
    forall pid | pid in s.tables ensures pid in pids {
      var i: nat :| Connected(p, pids, i, pid);
      assert pids[i] == pid;
    }
  }
}
