/** The pager's own view of the clients' mappings, in which each change is one atomic step, is what the
    handshake achieves with messages, acknowledgements, and threads that run in any order. */
module Refinement {
  import opened Common
  import opened Mmu
  import opened PagerState
  import opened Handshake
  import P = Protocol
  import opened ProtocolProofs

  /** PROT_NONE, PROT_READ, and PROT_READ | PROT_WRITE */
  function ProtOf(prot: int): Prot {
    if prot == 0 then NoAccess else if prot == 1 then ReadOnly else ReadWrite
  }

  /** What a client has mapped at an address. */
  function SeenAt(view: map<int, P.Seen>, page: int): Option<Mapping> {
    if page in view && view[page].frame.Some? then Some(Mapping(view[page].frame.value, ProtOf(view[page].prot))) else None
  }

  function MappedAt(m: map<Key, Mapping>, k: Key): Option<Mapping> {
    if k in m then Some(m[k]) else None
  }

  /** Every connected client has mapped what the pager's view says. */
  ghost predicate Agrees(m: map<Key, Mapping>, s: P.State, pids: seq<int>, size: nat) {
    && |pids| == |s.clients| && size > 0
    && (forall i, j :: 0 <= i < j < |pids| ==> pids[i] != pids[j])
    && (forall i: nat :: i < |s.clients| && s.clients[i].registered ==> ClientAgrees(m, s.clients[i].view, pids[i], size))
    && forall k :: k in m ==> exists i: nat :: Connected(s, pids, i, k.pid)
  }

  ghost predicate ClientAgrees(m: map<Key, Mapping>, view: map<int, P.Seen>, pid: int, size: nat) {
    forall index: nat :: MappedAt(m, Key(pid, index)) == SeenAt(view, VAddr(index, size))
  }

  /** The page that starts at an address. */
  predicate StartsPage(page: int, size: nat)
    requires size > 0
  {
    BASE <= page && VAddr((page - BASE) / size, size) == page
  }

  /** One change, as mmu_chprot, mmu_nonresident or mmu_resident makes it. */
  function Changed(m: map<Key, Mapping>, pid: int, size: nat, call: P.Call): map<Key, Mapping>
    requires size > 0
  {
    if !StartsPage(call.page, size) then m
    else
      var k := KeyAt(pid, call.page, size);
      match call
      case Remap(_, _, frame, prot) => m[k := Mapping(frame, ProtOf(prot))]
      case Chprot(_, _, prot) => if k in m then m[k := m[k].(prot := ProtOf(prot))] else m
  }

  /** A list of changes, one after the other. */
  function ChangedBy(m: map<Key, Mapping>, pids: seq<int>, size: nat, calls: seq<P.Call>): map<Key, Mapping>
    requires size > 0
    decreases |calls|
  {
    if calls == [] then m
    else
      var n := |calls| - 1;
      var m1 := ChangedBy(m, pids, size, calls[..n]);
      if calls[n].target < |pids| then Changed(m1, pids[calls[n].target], size, calls[n]) else m1
  }

  // ---------------------------------------------------------------------------------------------
  // One step
  // ---------------------------------------------------------------------------------------------

  /** A handler takes a change from its queue and applies it. */
  predicate Applies(s: P.State, a: P.Step) {
    a.Dispatch? && a.i < |s.clients| && s.clients[a.i].down != [] && s.clients[a.i].down[0].Change?
  }

  predicate Disconnects(s: P.State, a: P.Step) {
    a.LeavePager? && a.i < |s.clients| && s.clients[a.i].server.Inside? && s.clients[a.i].server.kind == P.Exit
  }

  /** What a step does to the pager's view: a change when a handler applies it, and the end of a process. */
  function Effect(m: map<Key, Mapping>, s: P.State, pids: seq<int>, size: nat, a: P.Step): map<Key, Mapping>
    requires size > 0 && a.i < |pids|
  {
    if Applies(s, a) then Changed(m, pids[a.i], size, s.clients[a.i].down[0].call)
    else if Disconnects(s, a) then map k | k in m && k.pid != pids[a.i] :: m[k]
    else m
  }

  lemma InRange(s: P.State, a: P.Step, limit: nat)
    requires P.Enabled(s, a, limit)
    ensures a.i < |s.clients|
  {
  }

  lemma OwnView(c: P.Client, a: P.Step)
    ensures P.Own(c, a).view
            == if a.Dispatch? && c.down != [] && c.down[0].Change? then P.Apply(c.view, c.down[0].call) else c.view
    ensures P.Own(c, a).registered == (c.registered && !(a.LeavePager? && c.server.Inside? && c.server.kind == P.Exit))
  {
  }

  lemma OtherView(t: P.Client, a: P.Step, server: P.Server)
    ensures P.Other(t, a, server).view == t.view && P.Other(t, a, server).registered == t.registered
  {
  }

  /** A client's mappings change only when its own handler applies a change. */
  lemma {:induction false} ViewAfter(s: P.State, a: P.Step, limit: nat, j: nat)
    requires P.Enabled(s, a, limit) && j < |s.clients|
    ensures |P.Next(s, a).clients| == |s.clients|
    ensures P.Next(s, a).clients[j].view
            == if Applies(s, a) && j == a.i then P.Apply(s.clients[j].view, s.clients[j].down[0].call) else s.clients[j].view
    ensures P.Next(s, a).clients[j].registered == (s.clients[j].registered && !(Disconnects(s, a) && j == a.i))
  {
    InRange(s, a, limit);
    hide P.Own, P.Other, P.Enabled;
    OwnView(s.clients[a.i], a);
    OtherView(if j == a.i then P.Own(s.clients[j], a) else s.clients[j], a, s.clients[a.i].server);
  }

  /** Applying a change at the client is the same change in the pager's view. */
  lemma {:induction false} ChangeAgrees(m: map<Key, Mapping>, view: map<int, P.Seen>, pid: int, size: nat, call: P.Call)
    requires size > 0 && ClientAgrees(m, view, pid, size)
    ensures ClientAgrees(Changed(m, pid, size, call), P.Apply(view, call), pid, size)
  {
    var m', view' := Changed(m, pid, size, call), P.Apply(view, call);
    forall index: nat
      ensures MappedAt(m', Key(pid, index)) == SeenAt(view', VAddr(index, size))
    {
      assert MappedAt(m, Key(pid, index)) == SeenAt(view, VAddr(index, size));
      if VAddr(index, size) == call.page {
        InPage(call.page, index, size);
      }
    }
  }

  /** Other clients are not concerned. */
  lemma ChangeElsewhere(m: map<Key, Mapping>, pid: int, size: nat, call: P.Call, k: Key)
    requires size > 0
    ensures k.pid != pid ==> MappedAt(Changed(m, pid, size, call), k) == MappedAt(m, k)
    ensures k in Changed(m, pid, size, call) ==> k in m || k.pid == pid
  {
  }

  /** The change that a handler takes is the one that the pager waits for. */
  lemma {:induction false} AppliedIsInFlight(s: P.State, a: P.Step, limit: nat)
    requires P.Inv(s) && P.Enabled(s, a, limit) && Applies(s, a)
    ensures P.InFlight(s, a.i) == Some(s.clients[a.i].down[0].call) && s.clients[a.i].registered
    ensures !P.HasAck(s.clients[a.i].up) && !s.clients[a.i].handler.Changed?
  {
    var c, call := s.clients[a.i], P.InFlight(s, a.i);
    assert P.ClientOK(c, call);
    assert P.Mixed(c.down, P.ReplyDown(c), P.ChangeDown(c, call));
    assert c.down[0] in P.List(P.ReplyDown(c)) + P.List(P.ChangeDown(c, call));
  }

  /** What client i has mapped after a step that did not disconnect it. */
  lemma {:induction false} ClientStays(m: map<Key, Mapping>, s: P.State, pids: seq<int>, size: nat, a: P.Step, i: nat)
    requires Agrees(m, s, pids, size) && a.i < |s.clients| && i < |s.clients| && s.clients[i].registered
    requires !(Disconnects(s, a) && i == a.i)
    ensures var view := s.clients[i].view;
            ClientAgrees(Effect(m, s, pids, size, a),
                         if Applies(s, a) && i == a.i then P.Apply(view, s.clients[i].down[0].call) else view, pids[i], size)
  {
    var view := s.clients[i].view;
    if Applies(s, a) {
      var call := s.clients[a.i].down[0].call;
      if i == a.i {
        ChangeAgrees(m, view, pids[i], size, call);
      } else {
        forall index: nat
          ensures MappedAt(Changed(m, pids[a.i], size, call), Key(pids[i], index)) == SeenAt(view, VAddr(index, size))
        {
          ChangeElsewhere(m, pids[a.i], size, call, Key(pids[i], index));
          assert MappedAt(m, Key(pids[i], index)) == SeenAt(view, VAddr(index, size));
        }
      }
    } else if Disconnects(s, a) {
      forall index: nat
        ensures MappedAt(Effect(m, s, pids, size, a), Key(pids[i], index)) == SeenAt(view, VAddr(index, size))
      {
        assert MappedAt(m, Key(pids[i], index)) == SeenAt(view, VAddr(index, size));
      }
    }
  }

  /** Only pages of connected clients are mapped after a step. */
  lemma {:induction false} StaysConnected(m: map<Key, Mapping>, s: P.State, pids: seq<int>, size: nat, a: P.Step, limit: nat,
                                          k: Key)
    requires P.Enabled(s, a, limit) && Agrees(m, s, pids, size) && (Applies(s, a) ==> s.clients[a.i].registered)
    requires k in Effect(m, s, pids, size, a)
    ensures exists i: nat :: Connected(P.Next(s, a), pids, i, k.pid)
  {
    InRange(s, a, limit);
    hide P.Next, P.Enabled, ClientAgrees;
    var i: nat;
    if Applies(s, a) && k.pid == pids[a.i] {
      i := a.i;
    } else {
      if Applies(s, a) {
        ChangeElsewhere(m, pids[a.i], size, s.clients[a.i].down[0].call, k);
      }
      i :| Connected(s, pids, i, k.pid);
    }
    ViewAfter(s, a, limit, i);
    assert Connected(P.Next(s, a), pids, i, k.pid);
  }

  /** Every step of every thread refines a step of the pager's view, or leaves it alone. */
  lemma {:induction false} StepRefines(m: map<Key, Mapping>, s: P.State, pids: seq<int>, size: nat, a: P.Step, limit: nat)
    requires P.Inv(s) && P.Enabled(s, a, limit) && Agrees(m, s, pids, size)
    ensures a.i < |pids| && Agrees(Effect(m, s, pids, size, a), P.Next(s, a), pids, size)
  {
    hide P.Inv, P.Enabled, P.Next, P.Apply, Changed, ClientAgrees, Effect;
    InRange(s, a, limit);
    var s', m' := P.Next(s, a), Effect(m, s, pids, size, a);
    if Applies(s, a) {
      AppliedIsInFlight(s, a, limit);
    }
    forall i: nat | i < |s.clients|
      ensures |s'.clients| == |s.clients|
      ensures s'.clients[i].registered ==> ClientAgrees(m', s'.clients[i].view, pids[i], size)
    {
      ViewAfter(s, a, limit, i);
      if s'.clients[i].registered {
        ClientStays(m, s, pids, size, a, i);
      }
    }
    ViewAfter(s, a, limit, a.i);
    forall k | k in m' ensures exists i: nat :: Connected(s', pids, i, k.pid) {
      StaysConnected(m, s, pids, size, a, limit, k);
    }
  }

  // ---------------------------------------------------------------------------------------------
  // A thread's stay in the pager
  // ---------------------------------------------------------------------------------------------

  /** The change that the pager waits for has been applied, although the pager may not know yet. */
  predicate IsApplied(c: P.Client) {
    P.HasAck(c.up) || c.handler.Changed?
  }

  /** So many changes of the list have been applied, with the rest of the list left to be sent. */
  function Done(script: seq<P.Call>, server: P.Server, applied: bool): int
    requires server.Inside?
  {
    |script| - |server.script| - if server.phase.Ready? || applied then 0 else 1
  }

  /** A thread entered the pager with the given list of changes.  What it has left of the list is left, what the
      pager waits for is the last change sent, and the pager's view is what it was at first with the changes
      applied so far. */
  ghost predicate InSection(m0: map<Key, Mapping>, script: seq<P.Call>, server: P.Server, applied: bool,
                            m: map<Key, Mapping>, pids: seq<int>, size: nat)
  {
    && size > 0 && server.Inside?
    && |server.script| <= |script| && script[|script| - |server.script|..] == server.script
    && (!server.phase.Ready? ==> |server.script| < |script| && server.phase.call == script[|script| - |server.script| - 1])
    && m == ChangedBy(m0, pids, size, script[..Done(script, server, applied)])
  }

  lemma {:induction false} ChangeSentOff(m0: map<Key, Mapping>, script: seq<P.Call>, server: P.Server, applied: bool,
                                         m: map<Key, Mapping>, pids: seq<int>, size: nat)
    requires InSection(m0, script, server, applied, m, pids, size) && server.phase.Ready? && server.script != []
    ensures InSection(m0, script, server.(script := server.script[1..], phase := P.Awaiting(server.script[0])), false,
                      m, pids, size)
  {
    hide ChangedBy;
    assert script[|script| - |server.script|] == server.script[0];
    assert script[|script| - |server.script| + 1..] == server.script[1..];
  }

  lemma {:induction false} ChangeTaken(m0: map<Key, Mapping>, script: seq<P.Call>, server: P.Server,
                                       m: map<Key, Mapping>, pids: seq<int>, size: nat)
    requires InSection(m0, script, server, true, m, pids, size) && !server.phase.Ready?
    ensures forall applied :: InSection(m0, script, server.(phase := P.Ready), applied, m, pids, size)
  {
  }

  lemma {:induction false} ChangeSeen(m0: map<Key, Mapping>, script: seq<P.Call>, server: P.Server, applied: bool,
                                      m: map<Key, Mapping>, pids: seq<int>, size: nat)
    requires InSection(m0, script, server, applied, m, pids, size) && !server.phase.Ready?
    ensures InSection(m0, script, server.(phase := P.SeenAck(server.phase.call)), applied, m, pids, size)
  {
  }

  lemma {:induction false} ChangeMade(m0: map<Key, Mapping>, script: seq<P.Call>, server: P.Server,
                                      m: map<Key, Mapping>, pids: seq<int>, size: nat)
    requires InSection(m0, script, server, false, m, pids, size) && !server.phase.Ready?
    requires server.phase.call.target < |pids|
    ensures InSection(m0, script, server, true, Changed(m, pids[server.phase.call.target], size, server.phase.call),
                      pids, size)
  {
    hide Changed;
    var n := Done(script, server, false);
    assert script[..n + 1][..n] == script[..n] && script[..n + 1][n] == server.phase.call;
  }

  predicate CallApplied(s: P.State, h: nat)
    requires h < |s.clients| && s.clients[h].server.Inside?
  {
    var phase := s.clients[h].server.phase;
    !phase.Ready? && phase.call.target < |s.clients| && IsApplied(s.clients[phase.call.target])
  }

  /** Thread h is in the pager in this way. */
  ghost predicate Staying(m0: map<Key, Mapping>, script: seq<P.Call>, h: nat, m: map<Key, Mapping>, s: P.State,
                          pids: seq<int>, size: nat)
  {
    && h < |s.clients| && s.clients[h].server.Inside?
    && InSection(m0, script, s.clients[h].server, CallApplied(s, h), m, pids, size)
  }

  lemma {:induction false} StayStarts(m: map<Key, Mapping>, s: P.State, pids: seq<int>, size: nat, h: nat,
                                      script: seq<P.Call>, limit: nat)
    requires P.Enabled(s, P.Enter(h, script), limit) && size > 0 && h < |pids|
    ensures Staying(m, script, h, m, P.Next(s, P.Enter(h, script)), pids, size)
    ensures Effect(m, s, pids, size, P.Enter(h, script)) == m
  {
    assert script[0..] == script && script[..0] == [];
  }

  lemma {:induction false} OwnApplied(c: P.Client, a: P.Step, call: Option<P.Call>)
    requires P.ClientOK(c, call) && Can(c, a)
    ensures IsApplied(P.Own(c, a)) <==> IsApplied(c) || (a.Dispatch? && c.down[0].Change?)
  {
    if a.Send? || a.Leave? {
      AfterPush(c.up, P.Request(if a.Send? then c.app.kind else P.Exit));
    } else if a.Acknowledge? {
      AfterPush(c.up, P.AckOf(c.handler.call));
    } else if a.Receive? {
      AfterPop(c.up);
    }
  }

  lemma OtherApplied(t: P.Client, a: P.Step, server: P.Server)
    requires !a.TakeAck?
    ensures IsApplied(P.Other(t, a, server)) == IsApplied(t)
  {
  }

  /** A change counts as applied from its handler's step on until the pager takes the acknowledgement. */
  lemma {:induction false} AppliedAfter(s: P.State, a: P.Step, limit: nat, t: nat)
    requires P.Inv(s) && P.Enabled(s, a, limit) && t < |s.clients| && !a.TakeAck?
    ensures a.i < |s.clients| && t < |P.Next(s, a).clients|
    ensures IsApplied(P.Next(s, a).clients[t]) <==> IsApplied(s.clients[t]) || (Applies(s, a) && a.i == t)
  {
    hide P.ClientOK, P.Own, P.Other, IsApplied;
    EnabledIsCan(s, a, limit);
    hide P.Enabled;
    var c := s.clients[a.i];
    OwnApplied(c, a, P.InFlight(s, a.i));
    OtherApplied(if t == a.i then P.Own(c, a) else s.clients[t], a, c.server);
  }

  lemma {:induction false} NothingApplied(s: P.State, t: nat)
    requires P.Inv(s) && t < |s.clients| && P.InFlight(s, t) == None
    ensures !IsApplied(s.clients[t])
  {
    assert P.ClientOK(s.clients[t], None);
  }

  /** Which steps can happen while thread h is in the pager. */
  lemma WhileInside(s: P.State, a: P.Step, limit: nat, h: nat)
    requires P.Inv(s) && P.Enabled(s, a, limit) && h < |s.clients| && s.clients[h].server.Inside?
    ensures s.lock == Some(h) && !a.Enter?
    ensures a.SendChange? || a.SeeAck? || a.TakeAck? || a.LeavePager? ==> a.i == h
    ensures a.i == h ==> !a.ServerPeek? && !a.Receive? && !a.SendReply?
  {
  }

  /** The server thread that is in the pager, after a step that does not take it out. */
  lemma {:induction false} HolderServer(s: P.State, a: P.Step, limit: nat, h: nat)
    requires P.Inv(s) && P.Enabled(s, a, limit) && h < |s.clients| && s.clients[h].server.Inside? && !a.LeavePager?
    ensures a.i < |s.clients| && |P.Next(s, a).clients| == |s.clients|
    ensures P.Next(s, a).clients[h].server
            == var server := s.clients[h].server;
               if a.SendChange? && server.script != [] then
                 server.(script := server.script[1..], phase := P.Awaiting(server.script[0]))
               else if a.SeeAck? && server.phase.Awaiting? then server.(phase := P.SeenAck(server.phase.call))
               else if a.TakeAck? then server.(phase := P.Ready) else server
    ensures a.SendChange? ==> s.clients[h].server.script != [] && s.clients[h].server.phase.Ready?
    ensures a.SeeAck? ==> s.clients[h].server.phase.Awaiting?
    ensures a.TakeAck? ==> s.clients[h].server.phase.SeenAck?
  {
    hide P.ClientOK, P.ScriptOK, P.Other;
    WhileInside(s, a, limit, h);
    ServerAfter(s, a, limit, h);
  }

  /** The thread's own steps in the pager. */
  lemma {:induction false} StayOwn(m0: map<Key, Mapping>, script: seq<P.Call>, h: nat, m: map<Key, Mapping>, s: P.State,
                                   pids: seq<int>, size: nat, a: P.Step, limit: nat)
    requires P.Inv(s) && P.Enabled(s, a, limit) && Staying(m0, script, h, m, s, pids, size) && h < |pids|
    requires a.i == h && (a.SendChange? || a.SeeAck? || a.TakeAck?)
    ensures Staying(m0, script, h, m, P.Next(s, a), pids, size) && Effect(m, s, pids, size, a) == m
  {
    assert size > 0;
    hide P.Inv, P.Enabled, P.Next, IsApplied, InSection, Effect;
    HolderServer(s, a, limit, h);
    NoEffect(m, s, pids, size, a);
    var server := s.clients[h].server;
    if a.SendChange? {
      FreshChange(s, a, limit);
      ChangeSentOff(m0, script, server, CallApplied(s, h), m, pids, size);
    } else if a.SeeAck? {
      CallStays(s, a, limit, h);
      ChangeSeen(m0, script, server, CallApplied(s, h), m, pids, size);
    } else {
      AckIsApplied(s, a, limit);
      ChangeTaken(m0, script, server, m, pids, size);
    }
  }

  lemma NoEffect(m: map<Key, Mapping>, s: P.State, pids: seq<int>, size: nat, a: P.Step)
    requires size > 0 && a.i < |pids| && !a.Dispatch? && !a.LeavePager?
    ensures Effect(m, s, pids, size, a) == m && !Applies(s, a)
  {
  }

  /** A change just sent has not been applied. */
  lemma {:induction false} FreshChange(s: P.State, a: P.Step, limit: nat)
    requires P.Inv(s) && P.Enabled(s, a, limit) && a.SendChange?
    ensures a.i < |s.clients| && s.clients[a.i].server.Inside? && s.clients[a.i].server.script != []
    ensures var t := s.clients[a.i].server.script[0].target;
            t < |P.Next(s, a).clients| && !IsApplied(P.Next(s, a).clients[t])
  {
    hide P.ClientOK, P.ScriptOK, P.Next, P.Own, P.Other;
    EnabledIsCan(s, a, limit);
    var t := s.clients[a.i].server.script[0].target;
    NothingApplied(s, t);
    AppliedAfter(s, a, limit, t);
  }

  /** Whoever takes an acknowledgement finds the change applied. */
  lemma {:induction false} AckIsApplied(s: P.State, a: P.Step, limit: nat)
    requires P.Inv(s) && P.Enabled(s, a, limit) && a.TakeAck?
    ensures a.i < |s.clients| && s.clients[a.i].server.Inside? && s.clients[a.i].server.phase.SeenAck?
    ensures var t := s.clients[a.i].server.phase.call.target; t < |s.clients| && IsApplied(s.clients[t])
  {
    hide P.ClientOK, P.Next;
    EnabledIsCan(s, a, limit);
    assert P.HasAck(s.clients[s.clients[a.i].server.phase.call.target].up);
  }

  /** Whether the change that the pager waits for has been applied is decided by its handler alone. */
  lemma {:induction false} CallStays(s: P.State, a: P.Step, limit: nat, h: nat)
    requires P.Inv(s) && P.Enabled(s, a, limit) && h < |s.clients| && s.clients[h].server.Inside?
    requires !s.clients[h].server.phase.Ready? && !a.TakeAck?
    ensures a.i < |s.clients|
    ensures var t := s.clients[h].server.phase.call.target;
            && t < |s.clients| == |P.Next(s, a).clients|
            && (IsApplied(P.Next(s, a).clients[t]) <==> IsApplied(s.clients[t]) || Applies(s, a))
            && (Applies(s, a) ==> a.i == t && s.clients[a.i].down[0].call == s.clients[h].server.phase.call
                                  && !IsApplied(s.clients[t]))
  {
    hide P.ClientOK, P.Next, P.Enabled;
    WhileInside(s, a, limit, h);
    InRange(s, a, limit);
    var t := s.clients[h].server.phase.call.target;
    assert P.ScriptOK(s, s.clients[h].server);
    AppliedAfter(s, a, limit, t);
    ViewAfter(s, a, limit, t);
    if Applies(s, a) {
      AppliedIsInFlight(s, a, limit);
    }
  }

  /** Without a change in flight, no handler applies one. */
  lemma {:induction false} NoneApplies(s: P.State, a: P.Step, limit: nat, h: nat)
    requires P.Inv(s) && P.Enabled(s, a, limit) && h < |s.clients| && s.clients[h].server.Inside?
    requires s.clients[h].server.phase.Ready?
    ensures !Applies(s, a)
  {
    hide P.ClientOK, P.Next, P.Enabled;
    WhileInside(s, a, limit, h);
    if Applies(s, a) {
      AppliedIsInFlight(s, a, limit);
    }
  }

  /** Steps of all other threads meanwhile. */
  lemma {:induction false} StayOther(m0: map<Key, Mapping>, script: seq<P.Call>, h: nat, m: map<Key, Mapping>, s: P.State,
                                     pids: seq<int>, size: nat, a: P.Step, limit: nat)
    requires P.Inv(s) && P.Enabled(s, a, limit) && Staying(m0, script, h, m, s, pids, size) && |pids| == |s.clients|
    requires !a.SendChange? && !a.SeeAck? && !a.TakeAck? && !a.LeavePager?
    ensures a.i < |pids| && Staying(m0, script, h, Effect(m, s, pids, size, a), P.Next(s, a), pids, size)
  {
    hide P.Inv, P.Enabled, P.Next, IsApplied, InSection, Changed;
    HolderServer(s, a, limit, h);
    var server := s.clients[h].server;
    if server.phase.Ready? {
      NoneApplies(s, a, limit, h);
    } else {
      CallStays(s, a, limit, h);
      if Applies(s, a) {
        ChangeMade(m0, script, server, m, pids, size);
      }
    }
  }

  // ---------------------------------------------------------------------------------------------
  // Runs
  // ---------------------------------------------------------------------------------------------

  /** While thread h is in the pager, whatever all other threads do, the clients have mapped what they had mapped
      when it entered, with the changes on its list applied so far: each at once, in order, and no other. */
  lemma {:induction false} StayRefines(states: seq<P.State>, steps: seq<P.Step>, limit: nat, pids: seq<int>, size: nat,
                                       m0: map<Key, Mapping>, h: nat, script: seq<P.Call>, i: nat, k: nat)
      returns (m: map<Key, Mapping>)
    requires Run(states, steps, limit) && P.Inv(states[0]) && i < k <= |steps| && steps[i] == P.Enter(h, script)
    requires forall j :: i < j < k ==> steps[j] != P.LeavePager(h)
    requires Agrees(m0, states[i], pids, size)
    ensures Agrees(m, states[k], pids, size) && Staying(m0, script, h, m, states[k], pids, size)
    decreases k
  {
    hide P.Inv, P.Enabled, P.Next, Agrees, Staying, Effect;
    RunKeeps(states, steps, limit, k - 1);
    if k == i + 1 {
      StepRefines(m0, states[i], pids, size, steps[i], limit);
      SizeOf(m0, states[i], pids, size);
      StayStarts(m0, states[i], pids, size, h, script, limit);
      m := m0;
    } else {
      var m1 := StayRefines(states, steps, limit, pids, size, m0, h, script, i, k - 1);
      StepRefines(m1, states[k - 1], pids, size, steps[k - 1], limit);
      SizeOf(m1, states[k - 1], pids, size);
      m := Effect(m1, states[k - 1], pids, size, steps[k - 1]);
      StayStep(m0, script, h, m1, states[k - 1], pids, size, steps[k - 1], limit);
    }
  }

  lemma SizeOf(m: map<Key, Mapping>, s: P.State, pids: seq<int>, size: nat)
    requires Agrees(m, s, pids, size)
    ensures size > 0 && |pids| == |s.clients|
  {
  }

  /** One step of any thread while h is in the pager and does not leave it. */
  lemma {:induction false} StayStep(m0: map<Key, Mapping>, script: seq<P.Call>, h: nat, m: map<Key, Mapping>, s: P.State,
                                    pids: seq<int>, size: nat, a: P.Step, limit: nat)
    requires P.Inv(s) && P.Enabled(s, a, limit) && Staying(m0, script, h, m, s, pids, size) && |pids| == |s.clients|
    requires a != P.LeavePager(h)
    ensures a.i < |pids| && Staying(m0, script, h, Effect(m, s, pids, size, a), P.Next(s, a), pids, size)
  {
    WhileInside(s, a, limit, h);
    if a.SendChange? || a.SeeAck? || a.TakeAck? {
      StayOwn(m0, script, h, m, s, pids, size, a, limit);
    } else {
      StayOther(m0, script, h, m, s, pids, size, a, limit);
    }
  }

  /** From entering the pager to leaving it, a thread makes exactly the changes on its list, and if its client
      exits, the client's pages are gone. */
  lemma {:induction false} SectionRefines(states: seq<P.State>, steps: seq<P.Step>, limit: nat, pids: seq<int>, size: nat,
                                          m0: map<Key, Mapping>, h: nat, script: seq<P.Call>, i: nat, k: nat)
    requires Run(states, steps, limit) && P.Inv(states[0]) && i < k < |steps|
    requires steps[i] == P.Enter(h, script) && steps[k] == P.LeavePager(h)
    requires forall j :: i < j < k ==> steps[j] != P.LeavePager(h)
    requires Agrees(m0, states[i], pids, size)
    ensures size > 0 && h < |states[k].clients| && states[k].clients[h].server.Inside? && h < |pids|
    ensures var m := ChangedBy(m0, pids, size, script);
            Agrees(if states[k].clients[h].server.kind == P.Exit then map q | q in m && q.pid != pids[h] :: m[q] else m,
                   states[k + 1], pids, size)
  {
    hide P.Inv, P.Next, Agrees, ChangedBy;
    var m := StayRefines(states, steps, limit, pids, size, m0, h, script, i, k);
    RunKeeps(states, steps, limit, k);
    StepRefines(m, states[k], pids, size, steps[k], limit);
    SizeOf(m, states[k], pids, size);
    assert script[..|script|] == script;
  }
}
