// What a pipeline of stages is connected to once it has been started.
module ShellWiring {
  import opened Common
  import opened ShellLexer
  import opened ShellGrammar
  import opened ShellMeaning
  import opened ShellPrinting
  import opened ShellRunner

  // ---------------------------------------------------------------------
  // Redirections of one stage

  /** The first redirection of descriptor `fd` in the order of the line. */
  function Leftmost(rs: seq<Redirection>, fd: nat): Option<Redirection> {
    if rs == [] then None
    else if rs[0].fd == fd then Some(rs[0])
    else Leftmost(rs[1..], fd)
  }

  predicate AllOpen(rs: seq<Redirection>, opens: Redirection -> bool) {
    forall i :: 0 <= i < |rs| ==> opens(rs[i])
  }

  /** The descriptors after `rs`, of which the first in the line were done last. */
  function Redirected(fds: Fds, rs: seq<Redirection>): Fds
    decreases rs
  {
    if rs == [] then fds
    else
      var last := rs[|rs| - 1];
      Redirected(fds[last.fd := Opened(last)], rs[..|rs| - 1])
  }

  lemma {:induction false} LeftmostOfFront(rs: seq<Redirection>, fd: nat)
    requires rs != []
    ensures var front, last := rs[..|rs| - 1], rs[|rs| - 1];
            Leftmost(rs, fd) ==
            if Leftmost(front, fd).Some? then Leftmost(front, fd)
            else if last.fd == fd then Some(last) else None
  {
    if |rs| > 1 {
      LeftmostOfFront(rs[1..], fd);
      assert rs[1..][..|rs| - 2] == rs[..|rs| - 1][1..];
    }
  }

  /** Each descriptor gets the file of its leftmost redirection, or keeps its own. */
  lemma {:induction false} LeftmostWins(fds: Fds, rs: seq<Redirection>, fd: nat)
    ensures fd in Redirected(fds, rs) <==> fd in fds || Leftmost(rs, fd).Some?
    ensures match Leftmost(rs, fd)
            case Some(r) => Redirected(fds, rs)[fd] == Opened(r)
            case None => fd in fds ==> Redirected(fds, rs)[fd] == fds[fd]
    decreases rs
  {
    if rs != [] {
      var last := rs[|rs| - 1];
      LeftmostOfFront(rs, fd);
      LeftmostWins(fds[last.fd := Opened(last)], rs[..|rs| - 1], fd);
    }
  }

  lemma {:induction false} WrapWiring(c: Cmd, rs: seq<Redirection>, fds: Fds, next: nat, opens: Redirection -> bool)
    ensures Wire(Wrap(c, rs), fds, next, opens) ==
            if AllOpen(rs, opens) then Wire(c, Redirected(fds, rs), next, opens) else [Exited]
  {
    if rs != [] {
      var front, last := rs[..|rs| - 1], rs[|rs| - 1];
      WrapWiring(c, front, fds[last.fd := Opened(last)], next, opens);
      assert forall i :: 0 <= i < |front| ==> front[i] == rs[i];
      assert AllOpen(rs, opens) <==> opens(last) && AllOpen(front, opens);
    }
  }

  /** What becomes of one stage that starts with descriptors `fds`. */
  function StageOutcome(s: Stage, fds: Fds, opens: Redirection -> bool): Outcome {
    if AllOpen(s.redirs, opens) && s.args != [] then Running(s.args, Redirected(fds, s.redirs)) else Exited
  }

  lemma {:induction false} StageWiring(s: Stage, fds: Fds, next: nat, opens: Redirection -> bool)
    ensures Wire(StageCmd(s), fds, next, opens) == [StageOutcome(s, fds, opens)]
    ensures Pipes(StageCmd(s)) == 0
  {
    WrapWiring(Exec(s.args), s.redirs, fds, next, opens);
    NoPipes(s.args, s.redirs);
  }

  lemma {:induction false} NoPipes(args: seq<string>, rs: seq<Redirection>)
    ensures Pipes(Wrap(Exec(args), rs)) == 0
  {
    if rs != [] {
      NoPipes(args, rs[..|rs| - 1]);
    }
  }

  // ---------------------------------------------------------------------
  // A whole pipeline

  /** Descriptors of stage `i` of `n`: pipe i-1 is its input, pipe i its output. */
  function Linked(fds: Fds, i: nat, n: nat, next: nat): Fds {
    var input := if i > 0 then fds[0 := ReadEnd(next + i - 1)] else fds;
    if i + 1 < n then input[1 := WriteEnd(next + i)] else input
  }

  /** Descriptors of the process that waits for stages `i` and up. */
  function Waiter(fds: Fds, i: nat, next: nat): Fds {
    if i > 0 then fds[0 := ReadEnd(next + i - 1)] else fds
  }

  lemma {:induction false} LinkedBehind(fds: Fds, i: nat, n: nat, next: nat)
    requires i < n
    ensures Linked(fds[0 := ReadEnd(next)], i, n, next + 1) == Linked(fds, i + 1, n + 1, next)
    ensures Waiter(fds[0 := ReadEnd(next)], i, next + 1) == Waiter(fds, i + 1, next)
  {
    var own := fds[0 := ReadEnd(next)];
    if i > 0 {
      assert own[0 := ReadEnd(next + i)] == fds[0 := ReadEnd(next + i)];
    }
  }

  /** `w` starts with the stages and ends with the processes that wait for them. */
  ghost predicate Wired(w: seq<Outcome>, ss: seq<Stage>, fds: Fds, next: nat, opens: Redirection -> bool) {
    && |w| == 2 * |ss| - 1
    && (forall i :: 0 <= i < |ss| ==> w[i] == StageOutcome(ss[i], Linked(fds, i, |ss|, next), opens))
    && (forall i :: 0 <= i < |ss| - 1 ==> w[2 * |ss| - 2 - i] == Waiting(Waiter(fds, i, next)))
  }

  lemma {:induction false} WiredStep(w: seq<Outcome>, ss: seq<Stage>, fds: Fds, next: nat,
                                     opens: Redirection -> bool)
    requires |ss| > 1 && Wired(w, ss[1..], fds[0 := ReadEnd(next)], next + 1, opens)
    ensures Wired([StageOutcome(ss[0], fds[1 := WriteEnd(next)], opens)] + w + [Waiting(fds)], ss, fds, next, opens)
  {
    hide StageOutcome, Linked, Waiter;
    var n := |ss|;
    var all := [StageOutcome(ss[0], fds[1 := WriteEnd(next)], opens)] + w + [Waiting(fds)];
    FirstOfMany(fds, n, next);
    forall i | 0 <= i < n
      ensures all[i] == StageOutcome(ss[i], Linked(fds, i, n, next), opens)
    {
      if i > 0 {
        LinkedBehind(fds, i - 1, n - 1, next);
        assert all[i] == w[i - 1] && ss[i] == ss[1..][i - 1];
      }
    }
    forall i | 0 <= i < n - 1
      ensures all[2 * n - 2 - i] == Waiting(Waiter(fds, i, next))
    {
      if i > 0 {
        LinkedBehind(fds, i - 1, n - 1, next);
        assert all[2 * n - 2 - i] == w[2 * (n - 1) - 2 - (i - 1)];
      }
    }
  }

  /**
   * The n stages come first, each linked to its neighbours before its own
   * redirections; the n - 1 processes that wait for them follow.
   */
  lemma {:induction false} PipelineWiring(ss: seq<Stage>, fds: Fds, next: nat, opens: Redirection -> bool)
    requires ss != []
    ensures Wired(Wire(Nested(ss), fds, next, opens), ss, fds, next, opens)
  {
    hide StageOutcome, StageCmd, Linked, Waiter;
    if |ss| == 1 {
      StageWiring(ss[0], fds, next, opens);
      LinkedAlone(fds, next);
    } else {
      hide Wired;
      var own := fds[0 := ReadEnd(next)];
      PipelineWiring(ss[1..], own, next + 1, opens);
      StageWiring(ss[0], fds[1 := WriteEnd(next)], next + 1, opens);
      WiredStep(Wire(Nested(ss[1..]), own, next + 1, opens), ss, fds, next, opens);
    }
  }

  lemma LinkedAlone(fds: Fds, next: nat)
    ensures Linked(fds, 0, 1, next) == fds
  {
  }

  lemma FirstOfMany(fds: Fds, n: nat, next: nat)
    requires n > 1
    ensures Linked(fds, 0, n, next) == fds[1 := WriteEnd(next)]
    ensures Waiter(fds, 0, next) == fds
  {
  }

  predicate Holds(o: Outcome, fd: nat, f: File) {
    !o.Exited? && fd in o.fds && o.fds[fd] == f
  }

  /** A running process has a file open in this mode, and because of a redirection of this descriptor. */
  predicate OpenedAs(o: Outcome, fd: nat, mode: Mode) {
    o.Running? && fd in o.fds && o.fds[fd].Opened? && o.fds[fd].to.fd == fd && o.fds[fd].to.mode == mode
  }

  /** No descriptor stands for a pipe that is still to be made. */
  predicate NoEnds(fds: Fds, next: nat) {
    forall fd :: fd in fds ==>
      (fds[fd].ReadEnd? || fds[fd].WriteEnd? ==> fds[fd].pipe < next)
  }

  /**
   * Input and output of a running stage: its leftmost redirection, or else
   * the neighbouring pipe, or else what the shell had; no other descriptor
   * differs from the shell's.
   */
  lemma {:induction false} StageEndsUp(ss: seq<Stage>, fds: Fds, next: nat, opens: Redirection -> bool, i: nat)
    requires StandardOpen(fds) && i < |ss| && StandardRedirs(Nested(ss))
    ensures var w := Wire(Nested(ss), fds, next, opens);
            && |w| > i && (w[i].Running? <==> AllOpen(ss[i].redirs, opens) && ss[i].args != [])
            && (w[i].Running? ==>
                  && w[i].argv == ss[i].args && w[i].fds.Keys == fds.Keys
                  && w[i].fds[0] == (match Leftmost(ss[i].redirs, 0)
                                     case Some(r) => Opened(r)
                                     case None => if i > 0 then ReadEnd(next + i - 1) else fds[0])
                  && w[i].fds[1] == (match Leftmost(ss[i].redirs, 1)
                                     case Some(r) => Opened(r)
                                     case None => if i + 1 < |ss| then WriteEnd(next + i) else fds[1])
                  && forall fd :: fd in fds && fd > 1 ==> w[i].fds[fd] == fds[fd])
    ensures var w := Wire(Nested(ss), fds, next, opens);
            w[i].Running? && (forall r :: r in ss[i].redirs ==> PrintableRedir(r)) ==>
              && (Leftmost(ss[i].redirs, 0).Some? ==> OpenedAs(w[i], 0, ReadOnly))
              && (Leftmost(ss[i].redirs, 1).Some? ==> OpenedAs(w[i], 1, WriteCreateTruncate))
  {
    var w := Wire(Nested(ss), fds, next, opens);
    PipelineWiring(ss, fds, next, opens);
    var linked := Linked(fds, i, |ss|, next);
    assert w[i] == StageOutcome(ss[i], linked, opens);
    if w[i].Running? {
      StageRedirsAreStandard(ss, i);
      hide Wire, Nested, Wired, Redirected, AllOpen;
      forall fd
        ensures fd in w[i].fds <==> fd in fds
      {
        if fd >= 0 {
          LeftmostWins(linked, ss[i].redirs, fd);
          LeftmostIsOne(ss[i].redirs, fd);
        }
      }
      LeftmostWins(linked, ss[i].redirs, 0);
      LeftmostWins(linked, ss[i].redirs, 1);
      LeftmostIsOne(ss[i].redirs, 0);
      LeftmostIsOne(ss[i].redirs, 1);
      forall fd | fd in fds && fd > 1
        ensures w[i].fds[fd] == fds[fd]
      {
        LeftmostWins(linked, ss[i].redirs, fd);
        LeftmostIsOne(ss[i].redirs, fd);
      }
    }
  }

  lemma {:induction false} LeftmostIsOne(rs: seq<Redirection>, fd: nat)
    ensures Leftmost(rs, fd).Some? ==> Leftmost(rs, fd).value in rs && Leftmost(rs, fd).value.fd == fd
  {
    if rs != [] {
      LeftmostIsOne(rs[1..], fd);
    }
  }

  /** The leftmost redirection of a descriptor, by the signs of the stage. */
  lemma {:induction false} LeftmostBySign(segment: seq<Token>)
    requires SignsHaveFiles(segment)
    ensures forall p :: 0 <= p < |segment| && segment[p] == Input && Input !in segment[..p] ==>
              && p + 1 < |segment| && segment[p + 1].Word?
              && Leftmost(Redirs(segment), 0) == Some(Redirection(0, ReadOnly, segment[p + 1].text))
    ensures forall p :: 0 <= p < |segment| && segment[p] == Output && Output !in segment[..p] ==>
              && p + 1 < |segment| && segment[p + 1].Word?
              && Leftmost(Redirs(segment), 1) == Some(Redirection(1, WriteCreateTruncate, segment[p + 1].text))
    ensures Input !in segment ==> Leftmost(Redirs(segment), 0) == None
    ensures Output !in segment ==> Leftmost(Redirs(segment), 1) == None
  {
    if segment != [] {
      SignsHaveFilesStep(segment);
      LeftmostBySign(segment[1..]);
      forall p | 0 < p < |segment|
        ensures segment[1..][p - 1] == segment[p] && segment[..p] == [segment[0]] + segment[1..][..p - 1]
        ensures p + 1 < |segment| ==> segment[1..][p] == segment[p + 1]
      {
      }
    }
  }

  /** The input and the output of what stage i of n runs, by the signs in its text: the file behind its first '<',
      opened for reading, or else the pipe from the stage before, or else what the shell had; and the file behind
      its first '>', opened for writing, or else the pipe to the stage behind, or else what the shell had. */
  ghost predicate ConnectedBySigns(o: Outcome, segment: seq<Token>, i: nat, n: nat, fds: Fds, next: nat)
    requires StandardOpen(fds)
  {
    && o.Running? && o.fds.Keys == fds.Keys && o.argv == Args(segment, false)
    && (forall p :: 0 <= p < |segment| && segment[p] == Input && Input !in segment[..p] ==>
          && p + 1 < |segment| && segment[p + 1].Word?
          && o.fds[0] == Opened(Redirection(0, ReadOnly, segment[p + 1].text)))
    && (forall p :: 0 <= p < |segment| && segment[p] == Output && Output !in segment[..p] ==>
          && p + 1 < |segment| && segment[p + 1].Word?
          && o.fds[1] == Opened(Redirection(1, WriteCreateTruncate, segment[p + 1].text)))
    && (Input !in segment ==> o.fds[0] == if i > 0 then ReadEnd(next + i - 1) else fds[0])
    && (Output !in segment ==> o.fds[1] == if i + 1 < n then WriteEnd(next + i) else fds[1])
    && forall fd :: fd in fds && fd > 1 ==> o.fds[fd] == fds[fd]
  }

  lemma {:induction false} WrappedRedirs(c: Cmd, rs: seq<Redirection>)
    ensures StandardRedirs(Wrap(c, rs)) <==> StandardRedirs(c) && forall i :: 0 <= i < |rs| ==> rs[i].fd < 2
  {
    if rs != [] {
      WrappedRedirs(c, rs[..|rs| - 1]);
    }
  }

  lemma {:induction false} StageRedirsAreStandard(ss: seq<Stage>, i: nat)
    requires i < |ss| && StandardRedirs(Nested(ss))
    ensures forall r :: r in ss[i].redirs ==> r.fd < 2
  {
    WrappedRedirs(Exec(ss[0].args), ss[0].redirs);
    if i > 0 {
      StageRedirsAreStandard(ss[1..], i - 1);
    }
  }

  /**
   * Of all processes, the write end of pipe i is held only by stage i, as its
   * output, and the read end only by stage i + 1 and the process that waits
   * for that stage, as their input.
   */
  lemma {:induction false} EndsAreExclusive(ss: seq<Stage>, fds: Fds, next: nat, opens: Redirection -> bool,
                                            j: nat, fd: nat, i: nat)
    requires ss != [] && NoEnds(fds, next) && j < |Wire(Nested(ss), fds, next, opens)|
    ensures var w := Wire(Nested(ss), fds, next, opens);
            && (Holds(w[j], fd, WriteEnd(next + i)) ==> fd == 1 && j == i && i + 1 < |ss|)
            && (Holds(w[j], fd, ReadEnd(next + i)) ==>
                  fd == 0 && i + 1 < |ss| && (j == i + 1 || j == 2 * |ss| - 2 - (i + 1)))
  {
    var w := Wire(Nested(ss), fds, next, opens);
    PipelineWiring(ss, fds, next, opens);
    var n := |ss|;
    if j < n {
      var linked := Linked(fds, j, n, next);
      assert w[j] == StageOutcome(ss[j], linked, opens);
      hide Wire, Nested, Wired, Redirected, AllOpen;
      LeftmostWins(linked, ss[j].redirs, fd);
    } else {
      var k := 2 * n - 2 - j;
      assert w[2 * n - 2 - k] == Waiting(Waiter(fds, k, next));
    }
  }

  lemma {:induction false} PrintableIsStandard(ss: seq<Stage>)
    requires ss != [] && forall i :: 0 <= i < |ss| ==> Printable(ss[i])
    ensures StandardRedirs(Nested(ss))
  {
    hide ProperWord;
    assert Printable(ss[0]);
    WrappedRedirs(Exec(ss[0].args), ss[0].redirs);
    if |ss| > 1 {
      PrintableIsStandard(ss[1..]);
    }
  }

  /** From the text of a line to its processes: an accepted line runs as its stages say. */
  lemma {:induction false} LineWiring(s: string, fds: Fds, next: nat, opens: Redirection -> bool)
    requires '\0' !in s && ReadPipe(Lex(s)).Ok?
    ensures var ss := Meanings(Segments(Lex(s)));
            && StandardRedirs(ReadPipe(Lex(s)).value)
            && Wired(Wire(ReadPipe(Lex(s)).value, fds, next, opens), ss, fds, next, opens)
  {
    hide Wired, Wire, Nested, Printable, Lex, ReadPipe;
    PrintingNormalizes(s);
    var ss := Meanings(Segments(Lex(s)));
    PrintableIsStandard(ss);
    PipelineWiring(ss, fds, next, opens);
  }

  lemma MeaningsOfAccepted(ts: seq<Token>, i: nat)
    requires ReadPipe(ts).Ok? && i < |Segments(ts)|
    ensures ReadPipe(ts).value == Nested(Meanings(Segments(ts))) && |Meanings(Segments(ts))| == |Segments(ts)|
    ensures Meanings(Segments(ts))[i] == Stage(Args(Segments(ts)[i], false), Redirs(Segments(ts)[i]))
    ensures SignsHaveFiles(Segments(ts)[i])
  {
    LineMeaning(ts);
    MeaningsAt(Segments(ts), i);
    hide SignsHaveFiles, Args, Redirs, Segments, Nested, ReadPipe;
    assert Segments(ts)[i] in Segments(ts);
  }

  /** So each stage of an accepted line that runs is connected as the signs in its text say. */
  lemma {:induction false} LineEndsUp(s: string, fds: Fds, next: nat, opens: Redirection -> bool, i: nat)
    requires '\0' !in s && ReadPipe(Lex(s)).Ok? && StandardOpen(fds) && i < |Segments(Lex(s))|
    ensures var w, segment := Wire(ReadPipe(Lex(s)).value, fds, next, opens), Segments(Lex(s))[i];
            && |w| > i
            && (w[i].Running? <==> Args(segment, false) != [] && AllOpen(Redirs(segment), opens))
            && (w[i].Running? ==> ConnectedBySigns(w[i], segment, i, |Segments(Lex(s))|, fds, next))
  {
    var ts := Lex(s);
    LineWiring(s, fds, next, opens);
    MeaningsOfAccepted(ts, i);
    hide Lex, Segments, ReadPipe, Nested, Meanings, Wire, Wired, SignsHaveFiles, Args, Redirs, Leftmost, AllOpen;
    var segment := Segments(ts)[i];
    StageEndsUp(Meanings(Segments(ts)), fds, next, opens, i);
    LeftmostBySign(segment);
  }

  lemma StagesEndUp(s: string, fds: Fds, next: nat, opens: Redirection -> bool)
    requires '\0' !in s && ReadPipe(Lex(s)).Ok? && StandardOpen(fds)
    ensures var w := Wire(ReadPipe(Lex(s)).value, fds, next, opens);
            && |w| >= |Segments(Lex(s))|
            && forall i :: 0 <= i < |Segments(Lex(s))| ==>
                 var segment := Segments(Lex(s))[i];
                 && (w[i].Running? <==> Args(segment, false) != [] && AllOpen(Redirs(segment), opens))
                 && (w[i].Running? ==>
                       && ConnectedBySigns(w[i], segment, i, |Segments(Lex(s))|, fds, next)
                       && (Input in segment ==> OpenedAs(w[i], 0, ReadOnly))
                       && (Output in segment ==> OpenedAs(w[i], 1, WriteCreateTruncate)))
  {
    hide Lex, Segments, ReadPipe, Wire, Args, Redirs, AllOpen, ConnectedBySigns;
    var w := Wire(ReadPipe(Lex(s)).value, fds, next, opens);
    LineEndsUp(s, fds, next, opens, |Segments(Lex(s))| - 1);
    forall i | 0 <= i < |Segments(Lex(s))|
      ensures var segment := Segments(Lex(s))[i];
              && (w[i].Running? <==> Args(segment, false) != [] && AllOpen(Redirs(segment), opens))
              && (w[i].Running? ==>
                    && ConnectedBySigns(w[i], segment, i, |Segments(Lex(s))|, fds, next)
                    && (Input in segment ==> OpenedAs(w[i], 0, ReadOnly))
                    && (Output in segment ==> OpenedAs(w[i], 1, WriteCreateTruncate)))
    {
      LineEndsUp(s, fds, next, opens, i);
      if w[i].Running? {
        ModesBySigns(w[i], Segments(Lex(s))[i], i, |Segments(Lex(s))|, fds, next);
      }
    }
  }

  lemma ModesBySigns(o: Outcome, segment: seq<Token>, i: nat, n: nat, fds: Fds, next: nat)
    requires StandardOpen(fds) && ConnectedBySigns(o, segment, i, n, fds, next)
    ensures Input in segment ==> OpenedAs(o, 0, ReadOnly)
    ensures Output in segment ==> OpenedAs(o, 1, WriteCreateTruncate)
  {
    if Input in segment {
      var p := First(segment, Input);
      assert o.fds[0] == Opened(Redirection(0, ReadOnly, segment[p + 1].text));
    }
    if Output in segment {
      var p := First(segment, Output);
      assert o.fds[1] == Opened(Redirection(1, WriteCreateTruncate, segment[p + 1].text));
    }
  }

  lemma {:induction false} First(segment: seq<Token>, t: Token) returns (p: nat)
    requires t in segment
    ensures p < |segment| && segment[p] == t && t !in segment[..p]
  {
    if segment[0] == t {
      p := 0;
    } else {
      var q := First(segment[1..], t);
      p := q + 1;
      assert segment[..p] == [segment[0]] + segment[1..][..q];
    }
  }

  /** A redirection reaches its descriptor exactly when every lower one is open. */
  lemma {:induction false} RedirectionLandsIff(fds: Fds, r: Redirection)
    ensures LowestFree(fds - {r.fd}, 0) == r.fd <==> forall k: nat :: k < r.fd ==> k in fds
  {
    if forall k: nat :: k < r.fd ==> k in fds {
      assert forall k: nat :: k < r.fd ==> k in fds - {r.fd};
      assert r.fd !in fds - {r.fd};
    } else {
      var k: nat :| k < r.fd && k !in fds;
      assert k !in fds - {r.fd};
    }
  }
}
