/** The handshake between the memory-management unit and its clients, as a step relation.

    Each client has an application thread and a handler thread that share a mutex and a condition
    variable, two message queues to and from the unit, and a server thread in the unit.  One lock
    serializes the pager.  While a server thread holds it, the pager sends changes of mappings to
    any clients, and waits for each to be acknowledged by peeking at that client's queue. */
module Protocol {
  import opened Common

  datatype Kind = Extend | Syslog | Segv | Exit

  /** mmu_resident maps a page to a frame; mmu_chprot and mmu_nonresident change a protection. */
  datatype Call =
    | Remap(target: nat, page: int, frame: nat, prot: int)
    | Chprot(target: nat, page: int, prot: int)

  /** Messages from a client: requests, and the acknowledgements REMAP_REQ and CHPROT_REQ. */
  datatype Up = Request(kind: Kind) | RemapAck | ChprotAck

  /** Messages to a client: replies, and the changes REMAP_REP and CHPROT_REP. */
  datatype Down = Reply(kind: Kind) | Change(call: Call)

  datatype Mutex = Free | ByApp | ByHandler

  datatype App =
    | Running
    | Locked(kind: Kind)     // holds the mutex, about to send
    | Sent(kind: Kind)       // holds the mutex, about to wait
    | Waiting(kind: Kind)    // asleep on the condition variable
    | Woken(kind: Kind)      // signalled, not yet holding the mutex again
    | Returning(kind: Kind)  // holds the mutex again
    | Exiting                // sent EXIT_REQ, joining the handler thread
    | Joined

  datatype Handler =
    | Listening             // blocked until there is a message
    | Saw                   // peeked at one, about to lock the mutex
    | Holding               // about to dispatch it
    | Changed(call: Call)   // applied a change, about to acknowledge it
    | Releasing             // about to unlock
    | Stopped

  datatype Server =
    | Idle
    | Peeked(kind: Kind)                         // saw a request, about to receive it
    | Got(kind: Kind)                            // received it, needs the pager lock
    | Inside(kind: Kind, script: seq<Call>, phase: Phase)
    | Done(kind: Kind)                           // left the pager, about to reply
    | Closed

  datatype Phase = Ready | Awaiting(call: Call) | SeenAck(call: Call)

  datatype Seen = Seen(frame: Option<nat>, prot: int)

  datatype Client = Client(
    app: App, mutex: Mutex, handler: Handler, running: bool, view: map<int, Seen>,
    up: seq<Up>, down: seq<Down>, server: Server, registered: bool,
    asked: seq<Kind>, answered: seq<Kind>)

  datatype State = State(clients: seq<Client>, lock: Option<nat>)

  // ---------------------------------------------------------------------------------------------
  // Steps
  // ---------------------------------------------------------------------------------------------

  datatype Step =
    | Ask(i: nat, kind: Kind)      // uvm_extend, uvm_syslog or a fault begins
    | Send(i: nat)
    | Wait(i: nat)
    | Resume(i: nat)
    | Return(i: nat)
    | Leave(i: nat)                // the program exits
    | Join(i: nat)
    | HandlerPeek(i: nat)
    | HandlerLock(i: nat)
    | Dispatch(i: nat)
    | Acknowledge(i: nat)
    | HandlerUnlock(i: nat)
    | ServerPeek(i: nat)
    | Receive(i: nat)
    | Enter(i: nat, script: seq<Call>)
    | SendChange(i: nat)
    | SeeAck(i: nat)
    | TakeAck(i: nat)
    | LeavePager(i: nat)
    | SendReply(i: nat)

  function AckOf(c: Call): Up {
    if c.Remap? then RemapAck else ChprotAck
  }

  /** What the handler does to the client's mappings. */
  function Apply(view: map<int, Seen>, c: Call): map<int, Seen> {
    match c
    case Remap(_, page, frame, prot) => view[page := Seen(Some(frame), prot)]
    case Chprot(_, page, prot) => view[page := Seen(if page in view then view[page].frame else None, prot)]
  }

  predicate IsApplied(view: map<int, Seen>, c: Call) {
    c.page in view && view[c.page].prot == c.prot && (c.Remap? ==> view[c.page].frame == Some(c.frame))
  }

  /** Changes that the pager may make: so many at most, to connected clients. */
  predicate Admissible(s: State, script: seq<Call>, limit: nat) {
    && |script| <= limit
    && forall k :: 0 <= k < |script| ==> script[k].target < |s.clients| && s.clients[script[k].target].registered
  }

  predicate Enabled(s: State, a: Step, limit: nat) {
    a.i < |s.clients| &&
    var c := s.clients[a.i];
    match a
    case Ask(_, kind) => c.app == Running && c.mutex == Free && kind != Exit
    case Send(_) => c.app.Locked?
    case Wait(_) => c.app.Sent?
    case Resume(_) => c.app.Woken? && c.mutex == Free
    case Return(_) => c.app.Returning?
    case Leave(_) => c.app == Running || c.app == Locked(Segv)
    case Join(_) => c.app == Exiting && c.handler == Stopped
    case HandlerPeek(_) => c.handler == Listening && c.down != []
    case HandlerLock(_) => c.handler == Saw && c.mutex == Free
    case Dispatch(_) => c.handler == Holding && c.down != []
    case Acknowledge(_) => c.handler.Changed?
    case HandlerUnlock(_) => c.handler == Releasing
    case ServerPeek(_) => c.server == Idle && c.up != [] && c.up[0].Request?
    case Receive(_) => c.server.Peeked? && c.up != []
    case Enter(_, script) =>
      c.server.Got? && s.lock == None && Admissible(s, script, limit)
    case SendChange(_) => c.server.Inside? && c.server.phase == Ready && c.server.script != []
                          && c.server.script[0].target < |s.clients|
    case SeeAck(_) =>
      && c.server.Inside? && c.server.phase.Awaiting? && c.server.phase.call.target < |s.clients|
      && var t := s.clients[c.server.phase.call.target];
      t.up != [] && t.up[0] == AckOf(c.server.phase.call)
    case TakeAck(_) => c.server.Inside? && c.server.phase.SeenAck? && c.server.phase.call.target < |s.clients|
                       && s.clients[c.server.phase.call.target].up != []
    case LeavePager(_) => c.server.Inside? && c.server.phase == Ready && c.server.script == []
    case SendReply(_) => c.server.Done?
  }

  /** What a step does to the client whose thread takes it. */
  function Own(c: Client, a: Step): Client {
    match a
    case Ask(_, kind) => c.(app := Locked(kind), mutex := ByApp)
    case Send(_) =>
      if c.app.Locked? then
        c.(app := Sent(c.app.kind), up := c.up + [Request(c.app.kind)], asked := c.asked + [c.app.kind])
      else c
    case Wait(_) => if c.app.Sent? then c.(app := Waiting(c.app.kind), mutex := Free) else c
    case Resume(_) => if c.app.Woken? then c.(app := Returning(c.app.kind), mutex := ByApp) else c
    case Return(_) => c.(app := Running, mutex := Free)
    case Leave(_) =>
      c.(app := Exiting, up := c.up + [Request(Exit)], asked := c.asked + [Exit],
         mutex := if c.mutex == ByApp then Free else c.mutex)
    case Join(_) => c.(app := Joined)
    case HandlerPeek(_) => c.(handler := Saw)
    case HandlerLock(_) => c.(handler := Holding, mutex := ByHandler)
    case Dispatch(_) =>
      if c.down == [] then c
      else (match c.down[0]
            case Reply(kind) =>
              if kind == Exit then c.(handler := Releasing, running := false, answered := c.answered + [Exit])
              else c.(handler := Releasing, down := c.down[1..], answered := c.answered + [kind],
                      app := if c.app.Waiting? then Woken(c.app.kind) else c.app)
            case Change(call) => c.(handler := Changed(call), down := c.down[1..], view := Apply(c.view, call)))
    case Acknowledge(_) =>
      if c.handler.Changed? then c.(handler := Releasing, up := c.up + [AckOf(c.handler.call)]) else c
    case HandlerUnlock(_) => c.(handler := if c.running then Listening else Stopped, mutex := Free)
    case ServerPeek(_) => if c.up != [] && c.up[0].Request? then c.(server := Peeked(c.up[0].kind)) else c
    case Receive(_) => if c.server.Peeked? && c.up != [] then c.(server := Got(c.server.kind), up := c.up[1..]) else c
    case Enter(_, script) => if c.server.Got? then c.(server := Inside(c.server.kind, script, Ready)) else c
    case SendChange(_) =>
      if c.server.Inside? && c.server.script != [] then
        c.(server := c.server.(script := c.server.script[1..], phase := Awaiting(c.server.script[0])))
      else c
    case SeeAck(_) =>
      if c.server.Inside? && c.server.phase.Awaiting? then
        c.(server := c.server.(phase := SeenAck(c.server.phase.call)))
      else c
    case TakeAck(_) => if c.server.Inside? then c.(server := c.server.(phase := Ready)) else c
    case LeavePager(_) =>
      if c.server.Inside? then
        c.(server := Done(c.server.kind), registered := c.registered && c.server.kind != Exit)
      else c
    case SendReply(_) =>
      if c.server.Done? then
        c.(server := if c.server.kind == Exit then Closed else Idle, down := c.down + [Reply(c.server.kind)])
      else c
  }

  /** What a step of a server thread does to the queues of the client the pager talks to. */
  function Other(t: Client, a: Step, server: Server): Client {
    if a.SendChange? && server.Inside? && server.script != [] then t.(down := t.down + [Change(server.script[0])])
    else if a.TakeAck? && t.up != [] then t.(up := t.up[1..])
    else t
  }

  /** The client the pager talks to in a step. */
  function Target(a: Step, server: Server): Option<nat> {
    if a.SendChange? && server.Inside? && server.script != [] then Some(server.script[0].target)
    else if a.TakeAck? && server.Inside? && server.phase.SeenAck? then Some(server.phase.call.target)
    else None
  }

  function Next(s: State, a: Step): State
    requires a.i < |s.clients|
  {
    var c := s.clients[a.i];
    var cs := s.clients[a.i := Own(c, a)];
    var t := Target(a, c.server);
    State(if t.Some? && t.value < |cs| then cs[t.value := Other(cs[t.value], a, c.server)] else cs,
          if a.Enter? then Some(a.i) else if a.LeavePager? then None else s.lock)
  }

  /** All clients are connected and idle. */
  predicate Initial(s: State) {
    && s.lock == None
    && forall i :: 0 <= i < |s.clients| ==>
         s.clients[i] == Client(Running, Free, Listening, true, map[], [], [], Idle, true, [], [])
  }

  /** A thread makes progress on something already asked for. */
  predicate Progress(a: Step) {
    !a.Ask? && !a.Leave?
  }

  // ---------------------------------------------------------------------------------------------
  // The invariant
  // ---------------------------------------------------------------------------------------------

  /** The request that the application has made and not been woken from. */
  function Pending(app: App): Option<Kind> {
    match app
    case Sent(k) => Some(k)
    case Waiting(k) => Some(k)
    case Exiting => Some(Exit)
    case Joined => Some(Exit)
    case _ => None
  }

  /** The request that the server thread has taken. */
  function Taken(server: Server): Option<Kind> {
    match server
    case Got(k) => Some(k)
    case Inside(k, _, _) => Some(k)
    case Done(k) => Some(k)
    case _ => None
  }

  predicate HasRequest(up: seq<Up>) {
    exists k :: 0 <= k < |up| && up[k].Request?
  }

  predicate HasAck(up: seq<Up>) {
    exists k :: 0 <= k < |up| && !up[k].Request?
  }

  function List<T>(x: Option<T>): seq<T> {
    if x.Some? then [x.value] else []
  }

  predicate Mixed<T(==)>(q: seq<T>, x: Option<T>, y: Option<T>) {
    q == List(x) + List(y) || q == List(y) + List(x)
  }

  /** A client's threads and queues agree on the one request it may have outstanding, and on the one
      change of its mappings (the call) that the pager may be waiting for. */
  ghost predicate ClientOK(c: Client, call: Option<Call>) {
    && MutexOK(c) && RequestOK(c) && ChangeOK(c, call) && QueuesOK(c, call) && HistoryOK(c)
  }

  ghost predicate MutexOK(c: Client) {
    && (c.mutex == ByApp <==> c.app.Locked? || c.app.Sent? || c.app.Returning?)
    && (c.mutex == ByHandler <==> c.handler.Holding? || c.handler.Changed? || c.handler.Releasing?)
    && (c.handler.Saw? || c.handler.Holding? ==> c.down != [])
    && (c.app.Locked? || c.app.Sent? || c.app.Waiting? || c.app.Woken? || c.app.Returning? ==> c.app.kind != Exit)
    && (c.app == Joined ==> c.handler == Stopped)
    && (c.handler == Stopped ==> !c.running)
    && (!c.running ==> c.handler == Stopped || c.handler == Releasing)
  }

  /** The request is in exactly one place: in the queue up, with the server thread, or in the queue down
      as its reply. */
  ghost predicate RequestOK(c: Client) {
    && (Taken(c.server).Some? ==> Pending(c.app) == Taken(c.server))
    && (c.server.Peeked? ==> c.up != [] && c.up[0] == Request(c.server.kind))
    && (c.server.Closed? ==> Pending(c.app) == Some(Exit) && !HasRequest(c.up))
    && (HasRequest(c.up) ==> Pending(c.app).Some? && Taken(c.server) == None)
    && (!c.registered <==> c.server == Done(Exit) || c.server == Closed)
    && (!c.running ==> c.server == Closed)
    && (Pending(c.app) == Some(Exit) && Taken(c.server) == None && !HasRequest(c.up) ==> c.server == Closed)
  }

  function RequestUp(c: Client): Option<Up> {
    if Pending(c.app).Some? && HasRequest(c.up) then Some(Request(Pending(c.app).value)) else None
  }

  function ReplyDown(c: Client): Option<Down> {
    if Pending(c.app).Some? && Taken(c.server) == None && !HasRequest(c.up)
    then Some(Reply(Pending(c.app).value)) else None
  }

  /** The change is in exactly one place: in the queue down, with the handler, or in the queue up as its
      acknowledgement, and then it has been applied. */
  ghost predicate ChangeOK(c: Client, call: Option<Call>) {
    && (HasAck(c.up) ==> call.Some? && !c.handler.Changed?)
    && (c.handler.Changed? ==> call == Some(c.handler.call))
    && (call.Some? && (HasAck(c.up) || c.handler.Changed?) ==> IsApplied(c.view, call.value))
    && (call.Some? ==> c.registered)
  }

  function AckUp(c: Client, call: Option<Call>): Option<Up> {
    if call.Some? && HasAck(c.up) then Some(AckOf(call.value)) else None
  }

  function ChangeDown(c: Client, call: Option<Call>): Option<Down> {
    if call.Some? && !HasAck(c.up) && !c.handler.Changed? then Some(Change(call.value)) else None
  }

  ghost predicate QueuesOK(c: Client, call: Option<Call>) {
    && Mixed(c.up, RequestUp(c), AckUp(c, call))
    && Mixed(c.down, ReplyDown(c), ChangeDown(c, call))
  }

  /** Replies come in the order of the requests, one for each. */
  ghost predicate HistoryOK(c: Client) {
    c.asked == c.answered + List(if !c.running then None else Pending(c.app))
  }

  /** The change of client i's mappings that the pager is waiting for. */
  function InFlight(s: State, i: nat): Option<Call> {
    if s.lock.Some? && s.lock.value < |s.clients| && s.clients[s.lock.value].server.Inside? then
      var phase := s.clients[s.lock.value].server.phase;
      if !phase.Ready? && phase.call.target == i then Some(phase.call) else None
    else None
  }

  ghost predicate LockOK(s: State) {
    && (s.lock.Some? ==> s.lock.value < |s.clients| && s.clients[s.lock.value].server.Inside?)
    && (forall i :: 0 <= i < |s.clients| && s.clients[i].server.Inside? ==> s.lock == Some(i))
    && (s.lock.Some? ==> ScriptOK(s, s.clients[s.lock.value].server))
  }

  ghost predicate ScriptOK(s: State, server: Server)
    requires server.Inside?
  {
    && (forall k :: 0 <= k < |server.script| ==>
          server.script[k].target < |s.clients| && s.clients[server.script[k].target].registered)
    && (!server.phase.Ready? ==> server.phase.call.target < |s.clients|)
    && (server.phase.SeenAck? ==>
          var up := s.clients[server.phase.call.target].up; up != [] && up[0] == AckOf(server.phase.call))
  }

  ghost predicate Inv(s: State) {
    && LockOK(s)
    && forall i :: 0 <= i < |s.clients| ==> ClientOK(s.clients[i], InFlight(s, i))
  }
}
