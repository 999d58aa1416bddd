// How runcmd connects processes: it closes, opens and duplicates descriptors
// step by step, and what counts is what is behind each descriptor at the end.
module ShellRunner {
  import opened ShellGrammar

  datatype File =
    | Inherited(id: nat)
    | Opened(to: Redirection)
    | ReadEnd(pipe: nat)
    | WriteEnd(pipe: nat)

  type Fds = map<nat, File>

  /** A process that runs a program, one that waits for its children, or none. */
  datatype Outcome =
    | Running(argv: seq<string>, fds: Fds)
    | Waiting(fds: Fds)
    | Exited

  function OpenFrom(fds: Fds, from: nat): set<nat> {
    set fd | fd in fds.Keys && from <= fd
  }

  /** The least descriptor that is not open, as section 2.14 of POSIX.1-2017 allocates it. */
  function LowestFree(fds: Fds, from: nat): (fd: nat)
    requires forall k: nat :: k < from ==> k in fds
    ensures fd !in fds && forall k: nat :: k < fd ==> k in fds
    decreases OpenFrom(fds, from)
  {
    if from !in fds then from
    else
      assert OpenFrom(fds, from + 1) == OpenFrom(fds, from) - {from};
      LowestFree(fds, from + 1)
  }

  predicate StandardOpen(fds: Fds) {
    0 in fds && 1 in fds
  }

  class Process {
    var fds: Fds

    constructor (table: Fds)
      ensures fds == table
    {
      fds := table;
    }

    method Close(fd: nat)
      modifies this
      ensures fds == old(fds) - {fd}
    {
      fds := fds - {fd};
    }

    /** Puts `f` behind the lowest free descriptor. */
    method Install(f: File) returns (fd: nat)
      modifies this
      ensures fd == LowestFree(old(fds), 0) && fds == old(fds)[fd := f]
    {
      fd := LowestFree(fds, 0);
      fds := fds[fd := f];
    }

    method Open(to: Redirection, opens: Redirection -> bool) returns (ok: bool)
      modifies this
      ensures ok == opens(to)
      ensures fds == if ok then old(fds)[LowestFree(old(fds), 0) := Opened(to)] else old(fds)
    {
      ok := opens(to);
      if ok {
        var _ := Install(Opened(to));
      }
    }

    method Dup(fd: nat)
      modifies this
      ensures fds == if fd in old(fds) then old(fds)[LowestFree(old(fds), 0) := old(fds)[fd]] else old(fds)
    {
      if fd in fds {
        var _ := Install(fds[fd]);
      }
    }

    method MakePipe(id: nat) returns (p0: nat, p1: nat)
      modifies this
      ensures p0 == LowestFree(old(fds), 0)
      ensures p1 == LowestFree(old(fds)[p0 := ReadEnd(id)], 0)
      ensures fds == old(fds)[p0 := ReadEnd(id)][p1 := WriteEnd(id)]
    {
      p0 := Install(ReadEnd(id));
      p1 := Install(WriteEnd(id));
    }

    method Fork() returns (child: Process)
      ensures fresh(child) && child.fds == fds
    {
      child := new Process(fds);
    }
  }

  /** How many pipes `cmd` makes. */
  function Pipes(cmd: Cmd): nat {
    match cmd
    case Exec(_) => 0
    case Redir(sub, _) => Pipes(sub)
    case Pipe(left, right) => 1 + Pipes(left) + Pipes(right)
  }

  /**
   * What running `cmd` comes to, said without descriptor juggling: descriptor
   * 0 or 1 is replaced, and everything else is inherited.  Pipes are numbered
   * from `next` on.
   */
  function Wire(cmd: Cmd, fds: Fds, next: nat, opens: Redirection -> bool): seq<Outcome> {
    match cmd
    case Exec(argv) => if argv == [] then [Exited] else [Running(argv, fds)]
    case Redir(sub, to) => if opens(to) then Wire(sub, fds[to.fd := Opened(to)], next, opens) else [Exited]
    case Pipe(left, right) =>
      Wire(left, fds[1 := WriteEnd(next)], next + 1, opens)
      + Wire(right, fds[0 := ReadEnd(next)], next + 1 + Pipes(left), opens)
      + [Waiting(fds)]
  }

  /** Redirections go to standard input or output, as the parser makes them. */
  predicate StandardRedirs(cmd: Cmd) {
    match cmd
    case Exec(_) => true
    case Redir(sub, to) => to.fd < 2 && StandardRedirs(sub)
    case Pipe(left, right) => StandardRedirs(left) && StandardRedirs(right)
  }

  /** Closing a standard descriptor makes it the one that is allocated next. */
  lemma {:induction false} Replaced(fds: Fds, fd: nat, f: File)
    requires StandardOpen(fds) && fd < 2
    ensures LowestFree(fds - {fd}, 0) == fd && (fds - {fd})[fd := f] == fds[fd := f]
  {
    var free := LowestFree(fds - {fd}, 0);
    assert forall k: nat :: k < fd ==> k in fds - {fd};
  }

  /** After the three calls only `fd` has changed, and both pipe descriptors are gone. */
  lemma {:induction false} Connected(fds: Fds, id: nat, fd: nat, f: File, p0: nat, p1: nat)
    requires StandardOpen(fds) && fd < 2
    requires p0 == LowestFree(fds, 0) && p1 == LowestFree(fds[p0 := ReadEnd(id)], 0)
    ensures var both := fds[p0 := ReadEnd(id)][p1 := WriteEnd(id)];
            && both[p0] == ReadEnd(id) && both[p1] == WriteEnd(id)
            && p0 in both - {fd} && p1 in both - {fd}
            && LowestFree(both - {fd}, 0) == fd
            && (both - {fd})[fd := f] - {p0} - {p1} == fds[fd := f]
            && both - {p0} - {p1} == fds
  {
    var both := fds[p0 := ReadEnd(id)][p1 := WriteEnd(id)];
    assert p0 !in fds && p1 !in fds && p0 != p1;
    Replaced(both, fd, f);
  }

  /** A child of `p` with the pipe end `from` as its descriptor `to`, and both ends closed. */
  method ForkWith(p: Process, to: nat, from: nat, p0: nat, p1: nat) returns (child: Process)
    requires from == p0 || from == p1
    ensures fresh(child)
    ensures from in p.fds - {to} ==>
              child.fds == (p.fds - {to})[LowestFree(p.fds - {to}, 0) := p.fds[from]] - {p0} - {p1}
  {
    child := p.Fork();
    child.Close(to);
    child.Dup(from);
    child.Close(p0);
    child.Close(p1);
  }

  /** Runs `cmd` in process `p`; `outcomes` are the processes this ends in. */
  method RunCmd(p: Process, cmd: Cmd, next: nat, opens: Redirection -> bool) returns (outcomes: seq<Outcome>)
    modifies p
    ensures StandardOpen(old(p.fds)) && StandardRedirs(cmd) ==> outcomes == Wire(cmd, old(p.fds), next, opens)
    decreases cmd
  {
    hide StandardOpen, LowestFree;
    match cmd
    case Exec(argv) =>
      outcomes := if argv == [] then [Exited] else [Running(argv, p.fds)];
    case Redir(sub, to) =>
      outcomes := RunRedir(p, cmd, next, opens);
    case Pipe(left, right) =>
      outcomes := RunPipe(p, cmd, next, opens);
  }

  method RunRedir(p: Process, cmd: Cmd, next: nat, opens: Redirection -> bool) returns (outcomes: seq<Outcome>)
    requires cmd.Redir?
    modifies p
    ensures StandardOpen(old(p.fds)) && StandardRedirs(cmd) ==> outcomes == Wire(cmd, old(p.fds), next, opens)
    decreases cmd, 0
  {
    hide LowestFree;
    ghost var fds := p.fds;
    var to := cmd.to;
    if StandardOpen(fds) && to.fd < 2 {
      Replaced(fds, to.fd, Opened(to));
    }
    p.Close(to.fd);
    var ok := p.Open(to, opens);
    if !ok {
      return [Exited];
    }
    outcomes := RunCmd(p, cmd.cmd, next, opens);
  }

  method RunPipe(p: Process, cmd: Cmd, next: nat, opens: Redirection -> bool) returns (outcomes: seq<Outcome>)
    requires cmd.Pipe?
    modifies p
    ensures StandardOpen(old(p.fds)) && StandardRedirs(cmd) ==> outcomes == Wire(cmd, old(p.fds), next, opens)
    decreases cmd, 0
  {
    hide LowestFree;
    ghost var fds := p.fds;
    var p0, p1 := p.MakePipe(next);
    ghost var piped := p.fds;
    if StandardOpen(fds) {
      Connected(fds, next, 1, WriteEnd(next), p0, p1);
      Connected(fds, next, 0, ReadEnd(next), p0, p1);
    }
    var writer := ForkWith(p, 1, p1, p0, p1);
    var written := RunCmd(writer, cmd.left, next + 1, opens);
    assert p.fds == piped;
    var reader := ForkWith(p, 0, p0, p0, p1);
    var read := RunCmd(reader, cmd.right, next + 1 + Pipes(cmd.left), opens);
    assert p.fds == piped;
    p.Close(p0);
    p.Close(p1);
    outcomes := written + read + [Waiting(p.fds)];
  }
}
