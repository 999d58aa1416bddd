// What the parser promises about whole lines: which lines it accepts, the tree
// an accepted line stands for, and that printing and parsing undo each other.
module ShellMeaning {
  import opened ShellLexer
  import opened ShellGrammar

  // ---------------------------------------------------------------------
  // Accepted lines and their trees, by cutting the line at its bars

  function FirstSegment(ts: seq<Token>): seq<Token> {
    ts[..|ts| - |AfterStage(ts)|]
  }

  function Segments(ts: seq<Token>): (segments: seq<seq<Token>>)
    ensures segments != []
    decreases |ts|
  {
    var rest := AfterStage(ts);
    if rest == [] then [ts] else [FirstSegment(ts)] + Segments(rest[1..])
  }

  function Joined(segments: seq<seq<Token>>): seq<Token>
    requires segments != []
  {
    if |segments| == 1 then segments[0] else segments[0] + [Bar] + Joined(segments[1..])
  }

  lemma {:induction false} AfterStageIsSuffix(ts: seq<Token>)
    ensures ts == FirstSegment(ts) + AfterStage(ts)
    ensures Bar !in FirstSegment(ts)
  {
    if !StageEnds(ts) {
      AfterStageIsSuffix(ts[1..]);
      assert FirstSegment(ts) == [ts[0]] + FirstSegment(ts[1..]);
    }
  }

  /** The segments are the line cut at every bar, and at nothing else. */
  lemma {:induction false} SegmentsJoin(ts: seq<Token>)
    ensures Joined(Segments(ts)) == ts
    ensures forall s :: s in Segments(ts) ==> Bar !in s
    decreases |ts|
  {
    AfterStageIsSuffix(ts);
    var rest := AfterStage(ts);
    if rest == [] {
      assert FirstSegment(ts) == ts;
    } else {
      SegmentsJoin(rest[1..]);
      assert Segments(ts)[1..] == Segments(rest[1..]);
      assert rest == [Bar] + rest[1..];
    }
  }

  /** The words of a segment that no redirection sign stands in front of. */
  function Args(segment: seq<Token>, afterSign: bool): seq<string> {
    if segment == [] then []
    else if segment[0].Word? && !afterSign then [segment[0].text] + Args(segment[1..], false)
    else Args(segment[1..], Sign(segment[0]))
  }

  /** The signs of a segment with the words that follow them. */
  function Redirs(segment: seq<Token>): seq<Redirection> {
    if segment == [] then []
    else if Sign(segment[0]) && |segment| > 1 && segment[1].Word? then
      [Redirect(segment[0], segment[1].text)] + Redirs(segment[1..])
    else Redirs(segment[1..])
  }

  predicate SignsHaveFiles(segment: seq<Token>) {
    forall i :: 0 <= i < |segment| && Sign(segment[i]) ==> i + 1 < |segment| && segment[i + 1].Word?
  }

  predicate Acceptable(segment: seq<Token>) {
    SignsHaveFiles(segment) && |Args(segment, false)| < MAX_ARGS
  }

  function Meaning(segment: seq<Token>): Stage {
    Stage(Args(segment, false), Redirs(segment))
  }

  function Meanings(segments: seq<seq<Token>>): (ss: seq<Stage>)
    ensures |ss| == |segments|
  {
    if segments == [] then [] else [Meaning(segments[0])] + Meanings(segments[1..])
  }

  ghost predicate AllAcceptable(segments: seq<seq<Token>>) {
    forall s :: s in segments ==> Acceptable(s)
  }

  /** Stages piped into one another, nested to the right. */
  function Nested(ss: seq<Stage>): Cmd
    requires ss != []
  {
    if |ss| == 1 then StageCmd(ss[0]) else Pipe(StageCmd(ss[0]), Nested(ss[1..]))
  }

  /** How many redirection signs stand in front of position i. */
  function SignsBefore(segment: seq<Token>, i: nat): nat
    requires i <= |segment|
  {
    if i == 0 then 0 else SignsBefore(segment, i - 1) + if Sign(segment[i - 1]) then 1 else 0
  }

  lemma {:induction false} SignsBeforeTail(segment: seq<Token>, i: nat)
    requires 0 < i <= |segment|
    ensures SignsBefore(segment, i) == (if Sign(segment[0]) then 1 else 0) + SignsBefore(segment[1..], i - 1)
  {
    if i > 1 {
      SignsBeforeTail(segment, i - 1);
    }
  }

  /** By the sign in the text: '<' opens its file for reading, as descriptor 0, and '>' opens it for writing, made
      if it is not there and emptied if it is, as descriptor 1.  Redirections are in the order of their signs. */
  lemma {:induction false} RedirectionBySign(segment: seq<Token>, i: nat)
    requires SignsHaveFiles(segment) && i < |segment| && Sign(segment[i])
    ensures i + 1 < |segment| && segment[i + 1].Word?
    ensures var k, file := SignsBefore(segment, i), segment[i + 1].text;
            && k < |Redirs(segment)|
            && (segment[i] == Input ==> Redirs(segment)[k] == Redirection(0, ReadOnly, file))
            && (segment[i] == Output ==> Redirs(segment)[k] == Redirection(1, WriteCreateTruncate, file))
  {
    if i > 0 {
      SignsHaveFilesStep(segment);
      SignsBeforeTail(segment, i);
      RedirectionBySign(segment[1..], i - 1);
    }
  }

  /** There is one redirection for each sign. */
  lemma {:induction false} OneForEachSign(segment: seq<Token>)
    requires SignsHaveFiles(segment)
    ensures |Redirs(segment)| == SignsBefore(segment, |segment|)
  {
    if segment != [] {
      SignsHaveFilesStep(segment);
      SignsBeforeTail(segment, |segment|);
      OneForEachSign(segment[1..]);
    }
  }

  /** How many words in front of position i no redirection sign stands in front of. */
  function WordsBefore(segment: seq<Token>, i: nat): nat
    requires i <= |segment|
  {
    if i == 0 then 0
    else WordsBefore(segment, i - 1) + if segment[i - 1].Word? && (i < 2 || !Sign(segment[i - 2])) then 1 else 0
  }

  lemma {:induction false} WordsBeforeTail(segment: seq<Token>, i: nat, afterSign: bool)
    requires 0 < i <= |segment|
    ensures |Args(segment[..i], afterSign)| ==
            |Args(segment[..i - 1], afterSign)|
            + if segment[i - 1].Word? && !(if i < 2 then afterSign else Sign(segment[i - 2])) then 1 else 0
    ensures Args(segment[..i - 1], afterSign) <= Args(segment[..i], afterSign)
    ensures segment[i - 1].Word? && !(if i < 2 then afterSign else Sign(segment[i - 2])) ==>
              Args(segment[..i], afterSign) == Args(segment[..i - 1], afterSign) + [segment[i - 1].text]
  {
    if i == 1 {
      assert segment[..1] == [segment[0]] && segment[..0] == [];
      assert Args([segment[0]][1..], Sign(segment[0])) == [] && Args([segment[0]][1..], false) == [];
    } else {
      assert segment[..i][1..] == segment[1..][..i - 1] && segment[..i - 1][1..] == segment[1..][..i - 2];
      WordsBeforeTail(segment[1..], i - 1, Sign(segment[0]));
    }
  }

  /** The other words are the arguments, in their order. */
  lemma {:induction false} ArgumentAt(segment: seq<Token>, i: nat)
    requires i < |segment| && segment[i].Word? && (i == 0 || !Sign(segment[i - 1]))
    ensures WordsBefore(segment, i) < |Args(segment, false)|
    ensures Args(segment, false)[WordsBefore(segment, i)] == segment[i].text
  {
    CountArguments(segment, i);
    WordsBeforeTail(segment, i + 1, false);
    ArgsGrow(segment, i + 1, |segment|);
    assert segment[..|segment|] == segment;
  }

  lemma {:induction false} CountArguments(segment: seq<Token>, i: nat)
    requires i <= |segment|
    ensures |Args(segment[..i], false)| == WordsBefore(segment, i)
  {
    if i > 0 {
      CountArguments(segment, i - 1);
      WordsBeforeTail(segment, i, false);
    }
  }

  lemma {:induction false} ArgsGrow(segment: seq<Token>, i: nat, j: nat)
    requires i <= j <= |segment|
    ensures Args(segment[..i], false) <= Args(segment[..j], false)
    decreases j - i
  {
    if i < j {
      ArgsGrow(segment, i, j - 1);
      WordsBeforeTail(segment, j, false);
    }
  }

  /** And there are no others. */
  lemma {:induction false} OneForEachWord(segment: seq<Token>)
    ensures |Args(segment, false)| == WordsBefore(segment, |segment|)
  {
    CountArguments(segment, |segment|);
    assert segment[..|segment|] == segment;
  }

  lemma {:induction false} SignsHaveFilesStep(segment: seq<Token>)
    requires segment != []
    ensures SignsHaveFiles(segment) <==>
              && (Sign(segment[0]) ==> |segment| > 1 && segment[1].Word?)
              && SignsHaveFiles(segment[1..])
  {
    if SignsHaveFiles(segment) {
      forall i | 0 <= i < |segment[1..]| && Sign(segment[1..][i])
        ensures i + 1 < |segment[1..]| && segment[1..][i + 1].Word?
      {
        assert segment[i + 1] == segment[1..][i];
        assert segment[i + 2] == segment[1..][i + 1];
      }
    } else if SignsHaveFiles(segment[1..]) {
      forall i | 0 < i < |segment| && Sign(segment[i])
        ensures i + 1 < |segment| && segment[i + 1].Word?
      {
        assert segment[i] == segment[1..][i - 1];
        assert segment[1..][i] == segment[i + 1];
      }
    }
  }

  lemma {:induction false} SegmentStep(ts: seq<Token>)
    requires !StageEnds(ts)
    ensures FirstSegment(ts) == [ts[0]] + FirstSegment(ts[1..])
    ensures FirstSegment(ts)[1..] == FirstSegment(ts[1..])
  {
  }

  /** A sign with a file: both are gone before the rest is looked at. */
  lemma {:induction false} SegmentOfRedirection(ts: seq<Token>)
    requires |ts| >= 2 && Sign(ts[0])
    ensures ts[1].Word? ==>
              && FirstSegment(ts) == [ts[0], ts[1]] + FirstSegment(ts[2..])
              && Args(FirstSegment(ts), false) == Args(FirstSegment(ts[2..]), false)
              && Redirs(FirstSegment(ts)) == [Redirect(ts[0], ts[1].text)] + Redirs(FirstSegment(ts[2..]))
              && (SignsHaveFiles(FirstSegment(ts)) <==> SignsHaveFiles(FirstSegment(ts[2..])))
    ensures !ts[1].Word? ==> !SignsHaveFiles(FirstSegment(ts))
  {
    SegmentStep(ts);
    var segment := FirstSegment(ts);
    SignsHaveFilesStep(segment);
    if ts[1].Word? {
      SegmentStep(ts[1..]);
      assert ts[1..][1..] == ts[2..];
      assert segment[1..] == [ts[1]] + FirstSegment(ts[2..]);
      assert segment[1..][1..] == FirstSegment(ts[2..]);
      SignsHaveFilesStep(segment[1..]);
    } else if segment[1..] != [] {
      AfterStageIsSuffix(ts[1..]);
      assert segment[1] == ts[1];
    }
  }

  /** A word of the stage itself. */
  lemma {:induction false} SegmentOfWord(ts: seq<Token>)
    requires ts != [] && ts[0].Word?
    ensures FirstSegment(ts) == [ts[0]] + FirstSegment(ts[1..]) && FirstSegment(ts)[1..] == FirstSegment(ts[1..])
    ensures Args(FirstSegment(ts), false) == [ts[0].text] + Args(FirstSegment(ts[1..]), false)
    ensures Redirs(FirstSegment(ts)) == Redirs(FirstSegment(ts[1..]))
    ensures SignsHaveFiles(FirstSegment(ts)) <==> SignsHaveFiles(FirstSegment(ts[1..]))
  {
    SegmentStep(ts);
    SignsHaveFilesStep(FirstSegment(ts));
  }

  lemma {:induction false} StageOfNothing(ts: seq<Token>, argc: nat)
    requires StageEnds(ts)
    ensures FirstSegment(ts) == [] && Args([], false) == [] && Redirs([]) == [] && SignsHaveFiles([])
    ensures ReadStage(ts, argc) == Ok(Stage([], []))
  {
  }

  lemma {:induction false} ReadStageStep(ts: seq<Token>, argc: nat)
    requires !StageEnds(ts)
    ensures ReadStage(ts, argc) ==
            if ts[0].Word? then
              if argc + 1 >= MAX_ARGS then Err(TooManyArgs)
              else Before([ts[0].text], [], ReadStage(ts[1..], argc + 1))
            else if |ts| < 2 || !ts[1].Word? then Err(MissingFile)
            else Before([], [Redirect(ts[0], ts[1].text)], ReadStage(ts[2..], argc))
  {
  }

  /** A sign without a file, as the first token or as the last. */
  lemma {:induction false} SegmentOfBadSign(ts: seq<Token>)
    requires !StageEnds(ts) && !ts[0].Word? && (|ts| < 2 || !ts[1].Word?)
    ensures BadSign(FirstSegment(ts), 0) && !SignsHaveFiles(FirstSegment(ts))
  {
    SegmentStep(ts);
    if FirstSegment(ts)[1..] != [] {
      AfterStageIsSuffix(ts[1..]);
    }
  }

  predicate BadSign(segment: seq<Token>, i: nat) {
    i < |segment| && Sign(segment[i]) && !(i + 1 < |segment| && segment[i + 1].Word?)
  }

  lemma {:induction false} StageMeaning(ts: seq<Token>, argc: nat)
    requires argc < MAX_ARGS
    ensures match ReadStage(ts, argc)
            case Ok(s) => s == Meaning(FirstSegment(ts))
            case Err(e) => e.MissingFile? || e.TooManyArgs?
    ensures ReadStage(ts, argc).Ok? <==>
              SignsHaveFiles(FirstSegment(ts)) && argc + |Args(FirstSegment(ts), false)| <= 9
    decreases |ts|
  {
    hide ReadStage, FirstSegment, Args, Redirs, SignsHaveFiles;
    if StageEnds(ts) {
      StageOfNothing(ts, argc);
    } else {
      ReadStageStep(ts, argc);
      if ts[0].Word? {
        SegmentOfWord(ts);
        if argc + 1 < MAX_ARGS {
          StageMeaning(ts[1..], argc + 1);
        }
      } else if |ts| >= 2 && ts[1].Word? {
        SegmentOfRedirection(ts);
        StageMeaning(ts[2..], argc);
      } else {
        SegmentOfBadSign(ts);
      }
    }
  }

  lemma {:induction false} WordsBeforeWord(segment: seq<Token>, i: nat)
    requires 0 < i <= |segment| && segment[0].Word?
    ensures WordsBefore(segment, i) == 1 + WordsBefore(segment[1..], i - 1)
  {
    if i > 1 {
      WordsBeforeWord(segment, i - 1);
    }
  }

  lemma {:induction false} WordsBeforeRedirection(segment: seq<Token>, i: nat)
    requires 2 <= i <= |segment| && Sign(segment[0]) && segment[1].Word?
    ensures WordsBefore(segment, i) == WordsBefore(segment[2..], i - 2)
  {
    if i > 2 {
      WordsBeforeRedirection(segment, i - 1);
    } else {
      assert WordsBefore(segment, 0) == WordsBefore(segment, 1) == 0;
    }
  }

  /** A missing file is what a stage fails on first, with argc of its words read, at its i-th token. */
  predicate FailsAt(segment: seq<Token>, argc: nat, i: nat) {
    BadSign(segment, i) && argc + WordsBefore(segment, i) <= 9
  }

  lemma {:induction false} FailsBehindWord(segment: seq<Token>, argc: nat, more: nat)
    requires segment != [] && segment[0].Word? && more == argc + 1
    ensures (exists i: nat :: FailsAt(segment, argc, i)) <==> exists i: nat :: FailsAt(segment[1..], more, i)
  {
    if i: nat :| FailsAt(segment, argc, i) {
      WordsBeforeWord(segment, i);
      assert FailsAt(segment[1..], more, i - 1);
    }
    if i: nat :| FailsAt(segment[1..], more, i) {
      WordsBeforeWord(segment, i + 1);
      assert FailsAt(segment, argc, i + 1);
    }
  }

  lemma {:induction false} FailsBehindRedirection(segment: seq<Token>, argc: nat)
    requires |segment| >= 2 && Sign(segment[0]) && segment[1].Word?
    ensures (exists i: nat :: FailsAt(segment, argc, i)) <==> exists i: nat :: FailsAt(segment[2..], argc, i)
  {
    if i: nat :| FailsAt(segment, argc, i) {
      WordsBeforeRedirection(segment, i);
      assert FailsAt(segment[2..], argc, i - 2);
    }
    if i: nat :| FailsAt(segment[2..], argc, i) {
      WordsBeforeRedirection(segment, i + 2);
      assert FailsAt(segment, argc, i + 2);
    }
  }

  /** Which error a stage is refused with: a missing file exactly if a sign without a file comes before the tenth
      word, and too many arguments otherwise. */
  lemma {:induction false} StageErrors(ts: seq<Token>, argc: nat)
    requires argc < MAX_ARGS
    ensures ReadStage(ts, argc) == Err(MissingFile) <==> exists i: nat :: FailsAt(FirstSegment(ts), argc, i)
    decreases |ts|
  {
    hide ReadStage, FirstSegment, FailsAt;
    if StageEnds(ts) {
      StageOfNothing(ts, argc);
      NeverFails(argc);
    } else {
      ReadStageStep(ts, argc);
      if ts[0].Word? {
        SegmentOfWord(ts);
        FailsBehindWord(FirstSegment(ts), argc, argc + 1);
        if argc + 1 < MAX_ARGS {
          StageErrors(ts[1..], argc + 1);
        } else {
          TooLate(FirstSegment(ts[1..]), argc + 1);
        }
      } else if |ts| >= 2 && ts[1].Word? {
        SegmentOfRedirection(ts);
        FailsBehindRedirection(FirstSegment(ts), argc);
        assert FirstSegment(ts)[2..] == FirstSegment(ts[2..]);
        StageErrors(ts[2..], argc);
      } else {
        SegmentOfBadSign(ts);
        FailsAtOnce(FirstSegment(ts), argc);
      }
    }
  }

  lemma NeverFails(argc: nat)
    ensures !exists i: nat :: FailsAt([], argc, i)
  {
  }

  lemma TooLate(segment: seq<Token>, argc: nat)
    requires argc > 9
    ensures !exists i: nat :: FailsAt(segment, argc, i)
  {
  }

  lemma FailsAtOnce(segment: seq<Token>, argc: nat)
    requires BadSign(segment, 0) && argc <= 9
    ensures exists i: nat :: FailsAt(segment, argc, i)
  {
    assert FailsAt(segment, argc, 0);
  }

  lemma AcceptableMeans(segments: seq<seq<Token>>)
    ensures AllAcceptable(segments) <==> forall s :: s in segments ==> SignsHaveFiles(s) && |Args(s, false)| <= 9
  {
    hide SignsHaveFiles, Args;
  }

  lemma {:induction false} AcceptableStep(s: seq<Token>, more: seq<seq<Token>>)
    ensures AllAcceptable([s] + more) <==> Acceptable(s) && AllAcceptable(more)
  {
    hide Acceptable;
    assert s in [s] + more;
    assert forall m :: m in more ==> m in [s] + more;
  }

  lemma {:induction false} LineStep(ts: seq<Token>)
    requires AfterStage(ts) != []
    ensures var more := Segments(AfterStage(ts)[1..]);
            && AllAcceptable(Segments(ts)) == (Acceptable(FirstSegment(ts)) && AllAcceptable(more))
            && Nested(Meanings(Segments(ts))) == Pipe(StageCmd(Meaning(FirstSegment(ts))), Nested(Meanings(more)))
  {
    hide Acceptable, Meaning, AllAcceptable, StageCmd;
    var more := Segments(AfterStage(ts)[1..]);
    AcceptableStep(FirstSegment(ts), more);
    assert ([FirstSegment(ts)] + more)[1..] == more;
    assert Meanings(Segments(ts)) == [Meaning(FirstSegment(ts))] + Meanings(more);
  }

  lemma {:induction false} LineEnd(ts: seq<Token>)
    requires AfterStage(ts) == []
    ensures AllAcceptable(Segments(ts)) == Acceptable(FirstSegment(ts))
    ensures Nested(Meanings(Segments(ts))) == StageCmd(Meaning(FirstSegment(ts)))
  {
    hide Acceptable, Meaning, StageCmd;
    assert FirstSegment(ts) == ts;
    assert Segments(ts) == [ts];
  }

  /**
   * A line is accepted exactly when, in every stage, each redirection is
   * followed by a word and at most nine other words remain; the tree of an
   * accepted line is made from its stages.
   */
  lemma {:induction false} LineMeaning(ts: seq<Token>)
    ensures ReadPipe(ts).Ok? <==> AllAcceptable(Segments(ts))
    ensures ReadPipe(ts).Ok? <==> forall s :: s in Segments(ts) ==> SignsHaveFiles(s) && |Args(s, false)| <= 9
    ensures match ReadPipe(ts)
            case Ok(cmd) => cmd == Nested(Meanings(Segments(ts)))
            case Err(e) => e.MissingFile? || e.TooManyArgs?
    decreases |ts|
  {
    StageMeaning(ts, 0);
    AcceptableMeans(Segments(ts));
    hide Meaning, AllAcceptable, StageCmd, Segments, Nested, Meanings, ReadStage, SignsHaveFiles, Args;
    if AfterStage(ts) == [] {
      LineEnd(ts);
    } else {
      LineStep(ts);
      LineMeaning(AfterStage(ts)[1..]);
    }
  }

  /** Which error a line is refused with: that of its first stage that is not acceptable. */
  lemma {:induction false} LineErrors(ts: seq<Token>, j: nat)
    requires j < |Segments(ts)| && !Acceptable(Segments(ts)[j])
    requires forall i :: 0 <= i < j ==> Acceptable(Segments(ts)[i])
    ensures ReadPipe(ts).Err?
    ensures ReadPipe(ts) == Err(MissingFile) <==>
              exists i: nat :: BadSign(Segments(ts)[j], i) && WordsBefore(Segments(ts)[j], i) <= 9
    decreases |ts|
  {
    StageMeaning(ts, 0);
    StageErrors(ts, 0);
    var rest := AfterStage(ts);
    assert rest == [] ==> FirstSegment(ts) == ts;
    FailsFromNothing(Segments(ts)[j]);
    hide ReadStage, SignsHaveFiles, Args, FailsAt;
    if j > 0 {
      assert Segments(ts)[0] == FirstSegment(ts) && Segments(ts)[1..] == Segments(rest[1..]);
      assert Acceptable(Segments(ts)[0]);
      LineErrors(rest[1..], j - 1);
    }
  }

  lemma FailsFromNothing(segment: seq<Token>)
    ensures (exists i: nat :: FailsAt(segment, 0, i))
            <==> exists i: nat :: BadSign(segment, i) && WordsBefore(segment, i) <= 9
  {
    if i: nat :| FailsAt(segment, 0, i) {
      assert BadSign(segment, i) && WordsBefore(segment, i) <= 9;
    }
    if i: nat :| BadSign(segment, i) && WordsBefore(segment, i) <= 9 {
      assert FailsAt(segment, 0, i);
    }
  }
}
