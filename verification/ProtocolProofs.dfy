/** What the handshake guarantees in every reachable state. */
module ProtocolProofs {
  import opened Common
  import opened Protocol

  // ---------------------------------------------------------------------------------------------
  // One client at a time
  // ---------------------------------------------------------------------------------------------

  /** What a client must be ready for. */
  ghost predicate Can(c: Client, a: Step) {
    match a
    case Ask(_, kind) => c.app == Running && c.mutex == Free && kind != Exit
    case Send(_) => c.app.Locked?
    case Wait(_) => c.app.Sent?
    case Resume(_) => c.app.Woken? && c.mutex == Free
    case Return(_) => c.app.Returning?
    case Leave(_) => c.app == Running || c.app == Locked(Segv)
    case Join(_) => c.app == Exiting && c.handler == Stopped
    case HandlerPeek(_) => c.handler == Listening && c.down != []
    case HandlerLock(_) => c.handler == Saw && c.mutex == Free
    case Dispatch(_) => c.handler == Holding && c.down != []
    case Acknowledge(_) => c.handler.Changed?
    case HandlerUnlock(_) => c.handler == Releasing
    case ServerPeek(_) => c.server == Idle && c.up != [] && c.up[0].Request?
    case Receive(_) => c.server.Peeked? && c.up != []
    case Enter(_, _) => c.server.Got?
    case SendChange(_) => c.server.Inside? && c.server.script != []
    case SeeAck(_) => c.server.Inside? && c.server.phase.Awaiting?
    case TakeAck(_) => c.server.Inside? && c.server.phase.SeenAck?
    case LeavePager(_) => c.server.Inside?
    case SendReply(_) => c.server.Done?
  }

  lemma MutexKeeps(c: Client, a: Step, call: Option<Call>)
    requires ClientOK(c, call) && Can(c, a)
    ensures MutexOK(Own(c, a))
  {
    hide QueuesOK, HistoryOK, ChangeOK;
  }

  lemma HistoryKeeps(c: Client, a: Step, call: Option<Call>)
    requires ClientOK(c, call) && Can(c, a)
    ensures HistoryOK(Own(c, a))
  {
  }

  predicate ByAppThread(a: Step) {
    a.Ask? || a.Send? || a.Wait? || a.Resume? || a.Return? || a.Leave? || a.Join?
  }

  predicate ByHandlerThread(a: Step) {
    a.HandlerPeek? || a.HandlerLock? || a.Dispatch? || a.Acknowledge? || a.HandlerUnlock?
  }

  lemma AppKeepsRequest(c: Client, a: Step, call: Option<Call>)
    requires ClientOK(c, call) && Can(c, a) && ByAppThread(a)
    ensures RequestOK(Own(c, a))
  {
    if a.Send? || a.Leave? {
      AfterPush(c.up, Request(if a.Send? then c.app.kind else Exit));
    }
  }

  lemma HandlerKeepsRequest(c: Client, a: Step, call: Option<Call>)
    requires ClientOK(c, call) && Can(c, a) && ByHandlerThread(a)
    ensures RequestOK(Own(c, a))
  {
    if a.Acknowledge? {
      AfterPush(c.up, AckOf(c.handler.call));
    }
  }

  lemma ServerKeepsRequest(c: Client, a: Step, call: Option<Call>)
    requires ClientOK(c, call) && Can(c, a) && !ByAppThread(a) && !ByHandlerThread(a)
    ensures RequestOK(Own(c, a))
  {
    if a.Receive? {
      ReceiveKeepsRequest(c, a, call);
    }
    hide QueuesOK, HistoryOK, ChangeOK;
  }

  lemma ReceiveKeepsRequest(c: Client, a: Step, call: Option<Call>)
    requires ClientOK(c, call) && Can(c, a) && a.Receive?
    ensures RequestOK(Own(c, a))
  {
    hide HistoryOK;
    AfterPop(c.up);
  }

  lemma AfterPush(q: seq<Up>, x: Up)
    ensures HasRequest(q + [x]) <==> HasRequest(q) || x.Request?
    ensures HasAck(q + [x]) <==> HasAck(q) || !x.Request?
  {
    var r := q + [x];
    assert r[|q|] == x;
    assert forall k :: 0 <= k < |q| ==> r[k] == q[k];
  }

  lemma AfterPop(q: seq<Up>)
    requires q != []
    ensures HasRequest(q) <==> q[0].Request? || HasRequest(q[1..])
    ensures HasAck(q) <==> !q[0].Request? || HasAck(q[1..])
  {
    assert forall k :: 0 <= k < |q| - 1 ==> q[1..][k] == q[k + 1];
    assert forall k :: 1 <= k < |q| ==> q[k] == q[1..][k - 1];
  }

  lemma MixedHead(q: seq<Down>, x: Option<Down>, y: Option<Down>)
    requires Mixed(q, x, y) && q != []
    ensures Some(q[0]) == x || Some(q[0]) == y
  {
  }

  lemma ChangeKeeps(c: Client, a: Step, call: Option<Call>)
    requires ClientOK(c, call) && Can(c, a) && !(a.LeavePager? && call.Some?)
    ensures ChangeOK(Own(c, a), call)
  {
    hide HistoryOK, MutexOK, Mixed;
    if a.Receive? {
      AfterPop(c.up);
    } else if a.Send? {
      AfterPush(c.up, Request(c.app.kind));
    } else if a.Leave? {
      AfterPush(c.up, Request(Exit));
    } else if a.Acknowledge? {
      AfterPush(c.up, AckOf(c.handler.call));
    } else if a.Dispatch? {
      MixedHead(c.down, ReplyDown(c), ChangeDown(c, call));
    }
  }

  lemma MixedPush<T>(q: seq<T>, x: T, y: Option<T>)
    ensures Mixed(q, None, y) ==> Mixed(q + [x], Some(x), y) && Mixed(q + [x], y, Some(x))
    ensures Mixed(q, y, None) ==> Mixed(q + [x], Some(x), y) && Mixed(q + [x], y, Some(x))
  {
    assert y.Some? ==> [y.value] + [x] == List(y) + [x];
    assert List(None) + List(y) == List(y) == List(y) + List(None);
  }

  lemma MixedPop<T>(q: seq<T>, x: T, y: Option<T>)
    requires q != [] && q[0] == x && y != Some(x)
    ensures Mixed(q, Some(x), y) ==> Mixed(q[1..], None, y) && Mixed(q[1..], y, None)
    ensures Mixed(q, y, Some(x)) ==> Mixed(q[1..], None, y) && Mixed(q[1..], y, None)
  {
    assert ([x] + List(y))[1..] == List(y) == List(y) + List(None) == List(None) + List(y);
    assert y.Some? ==> (List(y) + [x])[0] == y.value;
    assert y.None? ==> (List(y) + [x])[1..] == [];
  }

  lemma AppKeepsQueues(c: Client, a: Step, call: Option<Call>)
    requires ClientOK(c, call) && Can(c, a) && ByAppThread(a)
    ensures QueuesOK(Own(c, a), call)
  {
    if a.Send? || a.Leave? {
      AppSends(c, a, call);
    }
  }

  lemma AppSends(c: Client, a: Step, call: Option<Call>)
    requires ClientOK(c, call) && Can(c, a) && (a.Send? || a.Leave?)
    ensures QueuesOK(Own(c, a), call)
  {
    var x := Request(if a.Send? then c.app.kind else Exit);
    AfterPush(c.up, x);
    MixedPush(c.up, x, AckUp(c, call));
  }

  lemma HandlerKeepsQueues(c: Client, a: Step, call: Option<Call>)
    requires ClientOK(c, call) && Can(c, a) && ByHandlerThread(a)
    ensures QueuesOK(Own(c, a), call)
  {
    if a.Acknowledge? {
      AfterPush(c.up, AckOf(c.handler.call));
      MixedPush(c.up, AckOf(c.handler.call), RequestUp(c));
    } else if a.Dispatch? {
      DispatchKeepsQueues(c, a, call);
    }
  }

  lemma DispatchKeepsQueues(c: Client, a: Step, call: Option<Call>)
    requires ClientOK(c, call) && Can(c, a) && a.Dispatch?
    ensures QueuesOK(Own(c, a), call)
  {
    if c.down[0].Reply? {
      ReplyKeepsQueues(c, a, call);
    } else {
      ChangeKeepsQueues(c, a, call);
    }
  }

  lemma ReplyKeepsQueues(c: Client, a: Step, call: Option<Call>)
    requires ClientOK(c, call) && Can(c, a) && a.Dispatch? && c.down[0].Reply?
    ensures QueuesOK(Own(c, a), call)
  {
    MixedHead(c.down, ReplyDown(c), ChangeDown(c, call));
    MixedPop(c.down, c.down[0], ChangeDown(c, call));
    hide HistoryOK, Mixed;
  }

  lemma ChangeKeepsQueues(c: Client, a: Step, call: Option<Call>)
    requires ClientOK(c, call) && Can(c, a) && a.Dispatch? && c.down[0].Change?
    ensures QueuesOK(Own(c, a), call)
  {
    MixedHead(c.down, ReplyDown(c), ChangeDown(c, call));
    MixedPop(c.down, c.down[0], ReplyDown(c));
    hide HistoryOK, Mixed;
  }

  lemma ReceiveKeepsQueues(c: Client, a: Step, call: Option<Call>)
    requires ClientOK(c, call) && Can(c, a) && a.Receive?
    ensures QueuesOK(Own(c, a), call)
  {
    hide HistoryOK, MutexOK, Mixed;
    PeekedIs(c, call);
    AfterPop(c.up);
    MixedPop(c.up, c.up[0], AckUp(c, call));
  }

  /** The request that a server thread has peeked at is the one outstanding, and there is no other. */
  lemma PeekedIs(c: Client, call: Option<Call>)
    requires ClientOK(c, call) && c.server.Peeked?
    ensures c.up != [] && RequestUp(c) == Some(c.up[0]) && !HasRequest(c.up[1..])
  {
    hide HistoryOK, MutexOK, ChangeOK;
    assert HasRequest(c.up);
    OneRequest(c.up, RequestUp(c), AckUp(c, call));
  }

  lemma OneRequest(q: seq<Up>, x: Option<Up>, y: Option<Up>)
    requires Mixed(q, x, y) && q != [] && q[0].Request? && (y.Some? ==> !y.value.Request?)
    ensures x == Some(q[0]) && q[1..] == List(y) && !HasRequest(q[1..])
  {
  }

  lemma SendReplyKeepsQueues(c: Client, a: Step, call: Option<Call>)
    requires ClientOK(c, call) && Can(c, a) && a.SendReply?
    ensures QueuesOK(Own(c, a), call)
  {
    hide HistoryOK, MutexOK, Mixed;
    MixedPush(c.down, Reply(c.server.kind), ChangeDown(c, call));
  }

  lemma ServerKeepsQueues(c: Client, a: Step, call: Option<Call>)
    requires ClientOK(c, call) && Can(c, a) && !ByAppThread(a) && !ByHandlerThread(a)
    ensures QueuesOK(Own(c, a), call)
  {
    hide HistoryOK, MutexOK, Mixed;
    if a.Receive? {
      ReceiveKeepsQueues(c, a, call);
    } else if a.SendReply? {
      SendReplyKeepsQueues(c, a, call);
    }
  }

  /** A step of one of its own threads keeps a client in order. */
  lemma OwnKeeps(c: Client, a: Step, call: Option<Call>)
    requires ClientOK(c, call) && Can(c, a) && !(a.LeavePager? && call.Some?)
    ensures ClientOK(Own(c, a), call)
  {
    hide MutexOK, RequestOK, ChangeOK, HistoryOK;
    MutexKeeps(c, a, call);
    ChangeKeeps(c, a, call);
    if ByAppThread(a) {
      AppKeepsRequest(c, a, call);
      AppKeepsQueues(c, a, call);
    } else if ByHandlerThread(a) {
      HandlerKeepsRequest(c, a, call);
      HandlerKeepsQueues(c, a, call);
    } else {
      ServerKeepsRequest(c, a, call);
      ServerKeepsQueues(c, a, call);
    }
    HistoryKeeps(c, a, call);
  }

  /** The pager starts a change. */
  lemma ChangeSent(c: Client, call: Call)
    requires ClientOK(c, None) && c.registered
    ensures ClientOK(c.(down := c.down + [Change(call)]), Some(call))
  {
    MixedPush(c.down, Change(call), ReplyDown(c));
  }

  /** The pager sees that a change is complete. */
  lemma ChangeEnded(c: Client, call: Call)
    requires ClientOK(c, Some(call)) && c.up != [] && c.up[0] == AckOf(call)
    ensures ClientOK(c.(up := c.up[1..]), None)
    ensures IsApplied(c.view, call)
  {
    hide Mixed;
    OneAck(c.up, RequestUp(c), AckUp(c, Some(call)));
    AfterPop(c.up);
    MixedPop(c.up, c.up[0], RequestUp(c));
  }

  lemma OneAck(q: seq<Up>, x: Option<Up>, y: Option<Up>)
    requires Mixed(q, x, y) && q != [] && !q[0].Request? && (x.Some? ==> x.value.Request?)
    ensures y == Some(q[0]) && q[1..] == List(x) && !HasAck(q[1..])
  {
  }

  // ---------------------------------------------------------------------------------------------
  // The whole system
  // ---------------------------------------------------------------------------------------------

  lemma EnabledIsCan(s: State, a: Step, limit: nat)
    requires LockOK(s) && Enabled(s, a, limit)
    ensures Can(s.clients[a.i], a)
    ensures a.SendChange? || a.SeeAck? || a.TakeAck? || a.LeavePager? ==> s.lock == Some(a.i)
    ensures a.LeavePager? || a.SendChange? ==> forall j :: InFlight(s, j) == None
    ensures a.SendChange? ==> var t := s.clients[a.i].server.script[0].target; t < |s.clients| && s.clients[t].registered
    ensures a.TakeAck? ==>
              var call := s.clients[a.i].server.phase.call;
              && call.target < |s.clients| && InFlight(s, call.target) == Some(call)
              && s.clients[call.target].up != [] && s.clients[call.target].up[0] == AckOf(call)
  {
  }

  /** Server threads move only by their own steps, and clients stay registered inside the pager. */
  lemma ServerAfter(s: State, a: Step, limit: nat, j: nat)
    requires Enabled(s, a, limit) && j < |s.clients|
    ensures Next(s, a).clients[j].server == (if j == a.i then Own(s.clients[j], a) else s.clients[j]).server
    ensures !a.LeavePager? ==> Next(s, a).clients[j].registered == s.clients[j].registered
    ensures |Next(s, a).clients| == |s.clients|
  {
  }

  /** What a server thread waits for after a step of its client's threads. */
  lemma OwnPhase(c: Client, a: Step)
    requires Can(c, a)
    ensures c.server.Inside? && !a.LeavePager? ==>
              && Own(c, a).server.Inside?
              && Own(c, a).server.phase == if a.SendChange? then Awaiting(c.server.script[0])
                                           else if a.SeeAck? then SeenAck(c.server.phase.call)
                                           else if a.TakeAck? then Ready else c.server.phase
    ensures a.Enter? ==> Own(c, a).server.Inside? && Own(c, a).server.phase == Ready
    ensures a.LeavePager? ==> !Own(c, a).server.Inside?
    ensures !c.server.Inside? && !a.Enter? ==> !Own(c, a).server.Inside?
  {
  }

  /** What the pager waits for changes only when it sends a change or takes an acknowledgement. */
  lemma InFlightAfter(s: State, a: Step, limit: nat, j: nat)
    requires LockOK(s) && Enabled(s, a, limit) && j < |s.clients|
    ensures InFlight(Next(s, a), j) ==
            if a.SendChange? then
              (if s.clients[a.i].server.script[0].target == j then Some(s.clients[a.i].server.script[0]) else None)
            else if a.TakeAck? then None
            else InFlight(s, j)
  {
    hide ScriptOK, Other, Own;
    ServerAfter(s, a, limit, a.i);
    OwnPhase(s.clients[a.i], a);
    if s.lock.Some? {
      ServerAfter(s, a, limit, s.lock.value);
    }
  }

  lemma StepKeepsClient(s: State, a: Step, limit: nat, j: nat)
    requires Inv(s) && Enabled(s, a, limit) && j < |s.clients|
    ensures ClientOK(Next(s, a).clients[j], InFlight(Next(s, a), j))
  {
    hide ClientOK;
    EnabledIsCan(s, a, limit);
    InFlightAfter(s, a, limit, j);
    if j == a.i {
      OwnKeeps(s.clients[j], a, InFlight(s, j));
    }
    var c := if j == a.i then Own(s.clients[j], a) else s.clients[j];
    if a.SendChange? && s.clients[a.i].server.script[0].target == j {
      ChangeSent(c, s.clients[a.i].server.script[0]);
    } else if a.TakeAck? && s.clients[a.i].server.phase.call.target == j {
      ChangeEnded(c, s.clients[a.i].server.phase.call);
    } else if a.TakeAck? {
      NotInFlight(s, a, limit, j);
    }
  }

  lemma NotInFlight(s: State, a: Step, limit: nat, j: nat)
    requires LockOK(s) && Enabled(s, a, limit) && a.TakeAck? && s.clients[a.i].server.phase.call.target != j
    ensures InFlight(s, j) == None
  {
  }

  /** An acknowledgement at the head of a queue stays there until the pager takes it. */
  lemma HeadKept(s: State, a: Step, limit: nat, j: nat)
    requires Enabled(s, a, limit) && j < |s.clients| && RequestOK(s.clients[j]) && !a.TakeAck?
    requires s.clients[j].up != [] && !s.clients[j].up[0].Request?
    ensures Next(s, a).clients[j].up != [] && Next(s, a).clients[j].up[0] == s.clients[j].up[0]
  {
  }

  lemma StepKeepsLock(s: State, a: Step, limit: nat)
    requires Inv(s) && Enabled(s, a, limit)
    ensures LockOK(Next(s, a))
  {
    hide ClientOK, Own, Other, ScriptOK;
    var s' := Next(s, a);
    forall j | 0 <= j < |s'.clients| && s'.clients[j].server.Inside? ensures s'.lock == Some(j) {
      ServerAfter(s, a, limit, j);
      InsideAfter(s.clients[j], a);
    }
    if s'.lock.Some? {
      var h := s'.lock.value;
      ServerAfter(s, a, limit, h);
      InsideAfter(s.clients[h], a);
      HolderAfter(s, a, limit);
      if a.i == h {
        HolderKeepsScript(s, a, limit);
      } else {
        OtherKeepsScript(s, a, limit);
      }
    }
  }

  lemma InsideAfter(c: Client, a: Step)
    ensures Own(c, a).server.Inside? ==> c.server.Inside? || (a.Enter? && c.server.Got?)
    ensures c.server.Inside? && !a.LeavePager? && !a.SendReply? && !a.Receive? && !a.ServerPeek? ==> Own(c, a).server.Inside?
    ensures a.Enter? && c.server.Got? ==> Own(c, a).server.Inside?
    ensures a.LeavePager? && c.server.Inside? ==> !Own(c, a).server.Inside?
  {
  }

  lemma HolderAfter(s: State, a: Step, limit: nat)
    requires LockOK(s) && Enabled(s, a, limit) && Next(s, a).lock.Some?
    ensures a.Enter? ==> Next(s, a).lock == Some(a.i)
    ensures !a.Enter? ==> Next(s, a).lock == s.lock && !a.LeavePager? && s.lock.Some?
    ensures Next(s, a).lock.value < |s.clients|
    ensures !a.Enter? && a.i == s.lock.value ==> !a.SendReply? && !a.Receive? && !a.ServerPeek?
  {
  }

  lemma HolderKeepsScript(s: State, a: Step, limit: nat)
    requires Inv(s) && Enabled(s, a, limit) && Next(s, a).lock == Some(a.i)
    requires Next(s, a).clients[a.i].server.Inside?
    ensures ScriptOK(Next(s, a), Next(s, a).clients[a.i].server)
  {
    hide ClientOK, Other, Own, LockOK;
    var s' := Next(s, a);
    forall j | 0 <= j < |s.clients|
      ensures !a.LeavePager? ==> s'.clients[j].registered == s.clients[j].registered
    {
      ServerAfter(s, a, limit, j);
    }
    ServerAfter(s, a, limit, a.i);
    HolderTargets(s, a, limit);
    var server := s'.clients[a.i].server;
    if server.phase.SeenAck? {
      AckStays(s, a, limit, server.phase.call.target);
    }
  }

  lemma HolderTargets(s: State, a: Step, limit: nat)
    requires LockOK(s) && Enabled(s, a, limit) && Next(s, a).lock == Some(a.i) && Own(s.clients[a.i], a).server.Inside?
    ensures var server := Own(s.clients[a.i], a).server;
            && (forall k :: 0 <= k < |server.script| ==>
                  server.script[k].target < |s.clients| && s.clients[server.script[k].target].registered)
            && (!server.phase.Ready? ==> server.phase.call.target < |s.clients|)
            && (server.phase.SeenAck? ==>
                  && !a.TakeAck?
                  && s.clients[server.phase.call.target].up != []
                  && s.clients[server.phase.call.target].up[0] == AckOf(server.phase.call))
  {
  }

  lemma OtherKeepsScript(s: State, a: Step, limit: nat)
    requires Inv(s) && Enabled(s, a, limit) && s.lock.Some? && s.lock.value != a.i && !a.Enter? && !a.LeavePager?
    requires Next(s, a).lock == s.lock && Next(s, a).clients[s.lock.value].server.Inside?
    ensures ScriptOK(Next(s, a), Next(s, a).clients[s.lock.value].server)
  {
    hide ClientOK, Other, Own;
    var s', h := Next(s, a), s.lock.value;
    forall j | 0 <= j < |s.clients| ensures s'.clients[j].registered == s.clients[j].registered {
      ServerAfter(s, a, limit, j);
    }
    ServerAfter(s, a, limit, h);
    EnabledIsCan(s, a, limit);
    var server := s.clients[h].server;
    if server.phase.SeenAck? {
      AckStays(s, a, limit, server.phase.call.target);
    }
  }

  lemma AckStays(s: State, a: Step, limit: nat, t: nat)
    requires Inv(s) && Enabled(s, a, limit)
    ensures t < |s.clients| && s.clients[t].up != [] && !s.clients[t].up[0].Request? && !a.TakeAck? ==>
              Next(s, a).clients[t].up != [] && Next(s, a).clients[t].up[0] == s.clients[t].up[0]
  {
    if t < |s.clients| && s.clients[t].up != [] && !s.clients[t].up[0].Request? && !a.TakeAck? {
      assert ClientOK(s.clients[t], InFlight(s, t));
      HeadKept(s, a, limit, t);
    }
  }

  /** Every step keeps the invariant. */
  lemma StepKeeps(s: State, a: Step, limit: nat)
    requires Inv(s) && Enabled(s, a, limit)
    ensures Inv(Next(s, a))
  {
    hide ClientOK, LockOK;
    StepKeepsLock(s, a, limit);
    forall j | 0 <= j < |Next(s, a).clients| ensures ClientOK(Next(s, a).clients[j], InFlight(Next(s, a), j)) {
      StepKeepsClient(s, a, limit, j);
    }
  }

  lemma InitialIsOK(s: State)
    requires Initial(s)
    ensures Inv(s)
  {
  }

  /** A run: states and the steps between them. */
  ghost predicate Run(states: seq<State>, steps: seq<Step>, limit: nat) {
    && |states| == |steps| + 1
    && forall k :: 0 <= k < |steps| ==> Enabled(states[k], steps[k], limit) && states[k + 1] == Next(states[k], steps[k])
  }

  /** Every reachable state is in order. */
  lemma {:induction false} RunKeeps(states: seq<State>, steps: seq<Step>, limit: nat, k: nat)
    requires Run(states, steps, limit) && Inv(states[0]) && k <= |steps|
    ensures Inv(states[k])
    decreases k
  {
    if k > 0 {
      RunKeeps(states, steps, limit, k - 1);
      StepKeeps(states[k - 1], steps[k - 1], limit);
    }
  }

  // ---------------------------------------------------------------------------------------------
  // No deadlock
  // ---------------------------------------------------------------------------------------------

  /** The application has asked for something and does not have it yet. */
  predicate Unsettled(c: Client) {
    c.app != Running && c.app != Joined
  }

  /** A handler with a message can go on, or the application, which has the mutex, can. */
  lemma HandlerGoes(s: State, i: nat, call: Option<Call>, limit: nat) returns (a: Step)
    requires i < |s.clients| && ClientOK(s.clients[i], call) && s.clients[i].running && s.clients[i].down != []
    ensures Progress(a) && Enabled(s, a, limit) && !a.Enter?
  {
    var c := s.clients[i];
    match c.handler
    case Listening => a := HandlerPeek(i);
    case Saw =>
      if c.mutex == Free {
        a := HandlerLock(i);
      } else {
        a := if c.app.Locked? then Send(i) else if c.app.Sent? then Wait(i) else Return(i);
      }
    case Holding => a := Dispatch(i);
    case Changed(_) => a := Acknowledge(i);
    case Releasing => a := HandlerUnlock(i);
  }

  /** A request in the queue gets received. */
  lemma ServerGoes(s: State, i: nat, call: Option<Call>, limit: nat) returns (a: Step)
    requires i < |s.clients| && ClientOK(s.clients[i], call) && s.clients[i].up != [] && s.clients[i].up[0].Request?
    ensures Progress(a) && Enabled(s, a, limit) && !a.Enter?
  {
    var c := s.clients[i];
    assert HasRequest(c.up);
    a := if c.server == Idle then ServerPeek(i) else Receive(i);
  }

  /** A client that the pager waits for can go on. */
  lemma TargetGoes(s: State, limit: nat) returns (a: Step)
    requires Inv(s) && s.lock.Some? && s.clients[s.lock.value].server.phase.Awaiting?
    ensures Progress(a) && Enabled(s, a, limit) && !a.Enter?
  {
    var h := s.lock.value;
    var call := s.clients[h].server.phase.call;
    var t := call.target;
    var c := s.clients[t];
    assert InFlight(s, t) == Some(call) && ClientOK(c, Some(call));
    if HasAck(c.up) {
      if c.up[0].Request? {
        a := ServerGoes(s, t, Some(call), limit);
      } else {
        AckAtHead(c, call);
        a := SeeAck(h);
      }
    } else if c.handler.Changed? {
      a := Acknowledge(t);
    } else {
      a := HandlerGoes(s, t, Some(call), limit);
    }
  }

  lemma AckAtHead(c: Client, call: Call)
    requires ClientOK(c, Some(call)) && c.up != [] && !c.up[0].Request?
    ensures c.up[0] == AckOf(call)
  {
  }

  /** A client whose request is out, with the pager free, can go on. */
  lemma WaiterGoes(s: State, i: nat, limit: nat, script: seq<Call>) returns (a: Step)
    requires Inv(s) && s.lock == None && i < |s.clients| && Admissible(s, script, limit)
    requires s.clients[i].app.Waiting? || s.clients[i].app == Exiting
    ensures Progress(a) && Enabled(s, a, limit) && (a.Enter? ==> a.script == script)
  {
    var c := s.clients[i];
    assert ClientOK(c, None);
    if c.server.Got? {
      a := Enter(i, script);
    } else if c.server.Done? {
      a := SendReply(i);
    } else if HasRequest(c.up) {
      OnlyRequest(c);
      a := ServerGoes(s, i, None, limit);
    } else if c.running {
      a := HandlerGoes(s, i, None, limit);
    } else {
      a := if c.handler == Stopped then Join(i) else HandlerUnlock(i);
    }
  }

  lemma OnlyRequest(c: Client)
    requires ClientOK(c, None) && HasRequest(c.up)
    ensures c.up != [] && c.up[0].Request?
  {
  }

  /** Whenever some application waits for anything, some thread can make progress. */
  lemma NoDeadlock(s: State, limit: nat, i: nat, script: seq<Call>) returns (a: Step)
    requires Inv(s) && i < |s.clients| && Unsettled(s.clients[i]) && Admissible(s, script, limit)
    ensures Progress(a) && Enabled(s, a, limit) && (a.Enter? ==> a.script == script)
  {
    if s.lock.Some? {
      var h := s.lock.value;
      match s.clients[h].server.phase
      case Ready => a := if s.clients[h].server.script == [] then LeavePager(h) else SendChange(h);
      case SeenAck(_) => a := TakeAck(h);
      case Awaiting(_) => a := TargetGoes(s, limit);
    } else {
      var c := s.clients[i];
      assert ClientOK(c, None);
      match c.app
      case Locked(_) => a := Send(i);
      case Sent(_) => a := Wait(i);
      case Returning(_) => a := Return(i);
      case Woken(_) => a := WokenGoes(s, i, limit);
      case _ => a := WaiterGoes(s, i, limit, script);
    }
  }

  lemma WokenGoes(s: State, i: nat, limit: nat) returns (a: Step)
    requires i < |s.clients| && ClientOK(s.clients[i], None) && s.clients[i].app.Woken?
    ensures Progress(a) && Enabled(s, a, limit) && !a.Enter?
  {
    var c := s.clients[i];
    if c.mutex == Free {
      a := Resume(i);
    } else {
      a := if c.handler == Holding then Dispatch(i) else if c.handler.Changed? then Acknowledge(i) else HandlerUnlock(i);
    }
  }

  // ---------------------------------------------------------------------------------------------
  // No livelock: the work left
  // ---------------------------------------------------------------------------------------------

  /** Steps of a handler thread and the pager per change: 1 to send it, 5 for the handler, 2 to take the
      acknowledgement. */
  const PER_CALL := 8

  function DoneWork(): nat {
    5
  }

  function GotWork(limit: nat): nat {
    2 + limit * PER_CALL + DoneWork()
  }

  function AppWork(app: App, limit: nat): nat {
    match app
    case Running => 0
    case Locked(_) => 6 + GotWork(limit)
    case Sent(_) => 3
    case Waiting(_) => 2
    case Woken(_) => 2
    case Returning(_) => 1
    case Exiting => 1
    case Joined => 0
  }

  function UpWork(c: Client, limit: nat): int {
    if HasRequest(c.up) then 2 + GotWork(limit) - (if c.server.Peeked? then 1 else 0) else 0
  }

  function DownWork(down: seq<Down>): nat {
    if down == [] then 0 else (if down[0].Reply? then 4 else 5) + DownWork(down[1..])
  }

  function HandlerWork(h: Handler): int {
    match h
    case Listening => 0
    case Saw => -1
    case Holding => -2
    case Changed(_) => 2
    case Releasing => 1
    case Stopped => 0
  }

  function ServerWork(server: Server, limit: nat): nat {
    match server
    case Idle => 0
    case Peeked(_) => 0
    case Got(_) => GotWork(limit)
    case Inside(_, script, phase) =>
      |script| * PER_CALL + 1 + DoneWork() + (if phase.Ready? then 0 else if phase.Awaiting? then 2 else 1)
    case Done(_) => DoneWork()
    case Closed => 0
  }

  function ClientWork(c: Client, limit: nat): int {
    AppWork(c.app, limit) + UpWork(c, limit) + ServerWork(c.server, limit)
    + HandlerWork(c.handler) + if c.running then DownWork(c.down) else 0
  }

  function Work(cs: seq<Client>, limit: nat): int {
    if cs == [] then 0 else ClientWork(cs[0], limit) + Work(cs[1..], limit)
  }

  lemma {:induction false} WorkUpdate(cs: seq<Client>, i: nat, c: Client, limit: nat)
    requires i < |cs|
    ensures Work(cs[i := c], limit) == Work(cs, limit) - ClientWork(cs[i], limit) + ClientWork(c, limit)
  {
    if i > 0 {
      WorkUpdate(cs[1..], i - 1, c, limit);
      assert cs[i := c][1..] == cs[1..][i - 1 := c];
    } else {
      assert cs[i := c][1..] == cs[1..];
    }
  }

  lemma {:induction false} DownWorkPush(down: seq<Down>, x: Down)
    ensures DownWork(down + [x]) == DownWork(down) + if x.Reply? then 4 else 5
  {
    if down == [] {
      assert down + [x] == [x] && [x][1..] == [];
    } else {
      DownWorkPush(down[1..], x);
      assert (down + [x])[1..] == down[1..] + [x];
    }
  }

  /** A step of one of its own threads uses up work of the client; sending a change frees what the
      receiver needs for it. */
  lemma OwnWork(c: Client, a: Step, call: Option<Call>, limit: nat)
    requires ClientOK(c, call) && Can(c, a) && Progress(a) && (a.Enter? ==> |a.script| <= limit)
    ensures ClientWork(Own(c, a), limit) <= ClientWork(c, limit) - if a.SendChange? then 6 else 1
  {
    if ByAppThread(a) {
      AppWorkDown(c, a, call, limit);
    } else if ByHandlerThread(a) {
      HandlerWorkDown(c, a, call, limit);
    } else {
      ServerWorkDown(c, a, call, limit);
    }
  }

  lemma AppWorkDown(c: Client, a: Step, call: Option<Call>, limit: nat)
    requires ClientOK(c, call) && Can(c, a) && Progress(a) && ByAppThread(a)
    ensures ClientWork(Own(c, a), limit) < ClientWork(c, limit)
  {
    if a.Send? {
      AfterPush(c.up, Request(c.app.kind));
    }
  }

  lemma HandlerWorkDown(c: Client, a: Step, call: Option<Call>, limit: nat)
    requires ClientOK(c, call) && Can(c, a) && ByHandlerThread(a)
    ensures ClientWork(Own(c, a), limit) < ClientWork(c, limit)
  {
    hide ClientOK, GotWork, DownWork, AppWork, ServerWork;
    if a.Acknowledge? {
      AfterPush(c.up, AckOf(c.handler.call));
    } else if a.Dispatch? {
      DispatchWorkDown(c, a, call, limit);
    }
  }

  lemma DispatchWorkDown(c: Client, a: Step, call: Option<Call>, limit: nat)
    requires ClientOK(c, call) && Can(c, a) && a.Dispatch?
    ensures ClientWork(Own(c, a), limit) < ClientWork(c, limit)
  {
    hide GotWork, ServerWork, RequestOK, ChangeOK, QueuesOK, HistoryOK, HasRequest;
  }

  lemma ServerWorkDown(c: Client, a: Step, call: Option<Call>, limit: nat)
    requires ClientOK(c, call) && Can(c, a) && !ByAppThread(a) && !ByHandlerThread(a)
    requires a.Enter? ==> |a.script| <= limit
    ensures ClientWork(Own(c, a), limit) <= ClientWork(c, limit) - if a.SendChange? then 6 else 1
  {
    hide AppWork, DownWork, MutexOK, ChangeOK, HistoryOK;
    if a.Receive? {
      ReceivedLast(c, call);
    } else if a.SendReply? {
      DownWorkPush(c.down, Reply(c.server.kind));
    } else if a.ServerPeek? {
      assert HasRequest(c.up);
    }
  }

  lemma ReceivedLast(c: Client, call: Option<Call>)
    requires ClientOK(c, call) && c.server.Peeked?
    ensures c.up != [] && HasRequest(c.up) && !HasRequest(c.up[1..])
  {
    hide HistoryOK, MutexOK, ChangeOK, Mixed;
    PeekedIs(c, call);
    assert HasRequest(c.up);
  }

  lemma OtherWork(t: Client, a: Step, server: Server, limit: nat)
    requires t.up != [] ==> (a.TakeAck? ==> !t.up[0].Request?)
    ensures ClientWork(Other(t, a, server), limit) <= ClientWork(t, limit) + if a.SendChange? then 5 else 0
  {
    if a.SendChange? && server.Inside? && server.script != [] {
      DownWorkPush(t.down, Change(server.script[0]));
    } else if a.TakeAck? && t.up != [] {
      AfterPop(t.up);
    }
  }

  /** Every step that is not a new request uses up work. */
  lemma ProgressUsesWork(s: State, a: Step, limit: nat)
    requires Inv(s) && Enabled(s, a, limit) && Progress(a)
    ensures Work(Next(s, a).clients, limit) < Work(s.clients, limit)
  {
    hide ClientOK, ClientWork, Own, Other;
    EnabledIsCan(s, a, limit);
    var c := s.clients[a.i];
    OwnWork(c, a, InFlight(s, a.i), limit);
    var cs := s.clients[a.i := Own(c, a)];
    WorkUpdate(s.clients, a.i, Own(c, a), limit);
    var t := Target(a, c.server);
    if t.Some? && t.value < |cs| {
      TargetWork(s, a, limit);
      WorkUpdate(cs, t.value, Other(cs[t.value], a, c.server), limit);
    }
  }

  lemma TargetWork(s: State, a: Step, limit: nat)
    requires Inv(s) && Enabled(s, a, limit)
    ensures var c := s.clients[a.i];
            var cs := s.clients[a.i := Own(c, a)];
            var t := Target(a, c.server);
            t.Some? && t.value < |cs| ==>
              ClientWork(Other(cs[t.value], a, c.server), limit)
              <= ClientWork(cs[t.value], limit) + if a.SendChange? then 5 else 0
  {
    hide ClientOK, ClientWork;
    EnabledIsCan(s, a, limit);
    var c := s.clients[a.i];
    var cs := s.clients[a.i := Own(c, a)];
    var t := Target(a, c.server);
    if t.Some? && t.value < |cs| {
      OtherWork(cs[t.value], a, c.server, limit);
    }
  }

  lemma {:induction false} WorkIsNonnegative(s: State, cs: seq<Client>, limit: nat, k: nat)
    requires Inv(s) && k <= |s.clients| && cs == s.clients[k..]
    ensures Work(cs, limit) >= 0
    decreases |cs|
  {
    if cs != [] {
      var c := cs[0];
      assert ClientOK(c, InFlight(s, k));
      WorkIsNonnegative(s, cs[1..], limit, k + 1);
    }
  }

  lemma RunUsesWork(states: seq<State>, steps: seq<Step>, limit: nat, k: nat)
    requires Run(states, steps, limit) && Inv(states[0]) && k < |steps| && Progress(steps[k])
    ensures Work(states[k + 1].clients, limit) < Work(states[k].clients, limit)
  {
    RunKeeps(states, steps, limit, k);
    hide Inv, Enabled, Next, Work, Progress;
    ProgressUsesWork(states[k], steps[k], limit);
  }

  /** Without new requests, no run is longer than the work left at its start: every request is answered. */
  lemma {:induction false} ProgressIsBounded(states: seq<State>, steps: seq<Step>, limit: nat, k: nat)
    requires Run(states, steps, limit) && Inv(states[0]) && k <= |steps|
    requires forall j :: 0 <= j < |steps| ==> Progress(steps[j])
    ensures k <= Work(states[0].clients, limit) - Work(states[k].clients, limit)
    ensures k <= Work(states[0].clients, limit)
    decreases k
  {
    hide Inv, Enabled, Next, Work, Progress;
    RunKeeps(states, steps, limit, k);
    WorkIsNonnegative(states[k], states[k].clients, limit, 0);
    if k > 0 {
      ProgressIsBounded(states, steps, limit, k - 1);
      hide Run;
      RunUsesWork(states, steps, limit, k - 1);
    }
  }

  // ---------------------------------------------------------------------------------------------
  // What single steps can rely on
  // ---------------------------------------------------------------------------------------------

  /** A server thread receives the very request it peeked at, and never an acknowledgement. */
  lemma ReceivesWhatItPeeked(s: State, i: nat, limit: nat)
    requires Inv(s) && Enabled(s, Receive(i), limit)
    ensures s.clients[i].up[0] == Request(s.clients[i].server.kind)
    ensures Pending(s.clients[i].app) == Some(s.clients[i].server.kind)
  {
    var c := s.clients[i];
    assert ClientOK(c, InFlight(s, i)) && HasRequest(c.up);
  }

  /** The pager takes only the acknowledgement it waits for, and by then the client's mappings have
      changed: the call returns after it took effect. */
  lemma CallsReturnApplied(s: State, h: nat, limit: nat)
    requires Inv(s) && Enabled(s, TakeAck(h), limit)
    ensures var call := s.clients[h].server.phase.call;
            var c := s.clients[call.target];
            && s.lock == Some(h)
            && c.up[0] == (if call.Remap? then RemapAck else ChprotAck)
            && call.page in c.view && c.view[call.page].prot == call.prot
            && (call.Remap? ==> c.view[call.page].frame == Some(call.frame))
  {
    EnabledIsCan(s, TakeAck(h), limit);
    var call := s.clients[h].server.phase.call;
    var c := s.clients[call.target];
    assert ClientOK(c, Some(call));
    ChangeEnded(c, call);
  }

  /** No wakeup is lost: a reply finds its application asleep on the condition variable, waiting for a
      reply of that kind. */
  lemma NoLostWakeup(s: State, i: nat, limit: nat)
    requires Inv(s) && Enabled(s, Dispatch(i), limit) && s.clients[i].down[0].Reply?
    ensures s.clients[i].down[0].kind != Exit ==> s.clients[i].app == Waiting(s.clients[i].down[0].kind)
    ensures s.clients[i].down[0].kind == Exit ==> s.clients[i].app == Exiting
  {
    var c := s.clients[i];
    assert ClientOK(c, InFlight(s, i));
    MixedHead(c.down, ReplyDown(c), ChangeDown(c, InFlight(s, i)));
  }

  /** A changed mapping is one that the pager ordered for this client. */
  lemma OnlyOrderedChanges(s: State, i: nat, limit: nat)
    requires Inv(s) && Enabled(s, Dispatch(i), limit) && s.clients[i].down[0].Change?
    ensures InFlight(s, i) == Some(s.clients[i].down[0].call) && s.lock.Some?
  {
    var c := s.clients[i];
    assert ClientOK(c, InFlight(s, i));
    MixedHead(c.down, ReplyDown(c), ChangeDown(c, InFlight(s, i)));
  }

  /** In every reachable state, the replies so far are the requests so far, in order, but for at most the
      last one. */
  lemma RepliesMatchRequests(s: State, i: nat)
    requires Inv(s) && i < |s.clients|
    ensures s.clients[i].answered <= s.clients[i].asked
    ensures |s.clients[i].asked| <= |s.clients[i].answered| + 1
    ensures s.clients[i].app == Running ==> s.clients[i].asked == s.clients[i].answered
  {
    assert ClientOK(s.clients[i], InFlight(s, i));
  }

  // ---------------------------------------------------------------------------------------------
  // A wait that returns by itself
  // ---------------------------------------------------------------------------------------------

  /** pthread_cond_wait may return although nothing was signalled; the code does not wait again.  No step
      of the relation does this. */
  function Unsignalled(s: State, i: nat): State
    requires i < |s.clients| && s.clients[i].app.Waiting?
  {
    s.(clients := s.clients[i := s.clients[i].(app := Woken(s.clients[i].app.kind))])
  }

  /** Such a return always breaks the invariant: the call comes back, as soon as the mutex is free, while its
      request is still without an answer. */
  lemma {:induction false} UnsignalledBreaks(s: State, i: nat, limit: nat)
    requires Inv(s) && i < |s.clients| && s.clients[i].app.Waiting? && s.clients[i].mutex == Free
    ensures var s1 := Unsignalled(s, i);
            && !Inv(s1) && Enabled(s1, Resume(i), limit)
            && var s2 := Next(s1, Resume(i));
            && Enabled(s2, Return(i), limit)
            && var c := Next(s2, Return(i)).clients[i];
            && c.app == Running && c.asked == c.answered + [s.clients[i].app.kind]
  {
    hide ClientOK, LockOK;
    var s1 := Unsignalled(s, i);
    assert ClientOK(s.clients[i], InFlight(s, i));
    WaitingClient(s.clients[i], InFlight(s, i));
    UnsignalledClient(s.clients[i], InFlight(s1, i));
    assert !ClientOK(s1.clients[i], InFlight(s1, i));
  }

  lemma WaitingClient(c: Client, call: Option<Call>)
    requires ClientOK(c, call) && c.app.Waiting?
    ensures HistoryOK(c) && RequestOK(c) && c.app.kind != Exit
  {
  }

  lemma {:induction false} UnsignalledClient(c: Client, call: Option<Call>)
    requires HistoryOK(c) && RequestOK(c) && c.app.Waiting? && c.app.kind != Exit
    ensures c.asked == c.answered + [c.app.kind]
    ensures !ClientOK(c.(app := Woken(c.app.kind)), call)
  {
    assert !HistoryOK(c.(app := Woken(c.app.kind)));
  }
}
