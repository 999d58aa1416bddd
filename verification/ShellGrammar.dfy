// What a command line means: the tree a sequence of tokens stands for, read
// from left to right with the first error reported.
module ShellGrammar {
  import opened ShellLexer

  // The words of one stage and the zero that ends them share this many slots.
  const MAX_ARGS := 10

  datatype Mode = ReadOnly | WriteCreateTruncate

  datatype Redirection = Redirection(fd: nat, mode: Mode, file: string)

  datatype Cmd =
    | Exec(argv: seq<string>)
    | Redir(cmd: Cmd, to: Redirection)
    | Pipe(left: Cmd, right: Cmd)

  datatype Stage = Stage(args: seq<string>, redirs: seq<Redirection>)

  datatype Error = MissingFile | TooManyArgs | SyntaxError | Leftovers

  datatype Result<+T> = Ok(value: T) | Err(error: Error)

  function Redirect(sign: Token, file: string): Redirection
    requires Sign(sign)
  {
    if sign.Input? then Redirection(0, ReadOnly, file) else Redirection(1, WriteCreateTruncate, file)
  }

  /** `c` under redirections `rs`, the last of them outermost. */
  function Wrap(c: Cmd, rs: seq<Redirection>): Cmd {
    if rs == [] then c else Redir(Wrap(c, rs[..|rs| - 1]), rs[|rs| - 1])
  }

  function StageCmd(s: Stage): Cmd {
    Wrap(Exec(s.args), s.redirs)
  }

  predicate StageEnds(ts: seq<Token>) {
    ts == [] || ts[0].Bar?
  }

  /** The tokens that are left when the first stage is over. */
  function AfterStage(ts: seq<Token>): (rest: seq<Token>)
    ensures |rest| <= |ts| && StageEnds(rest)
  {
    if StageEnds(ts) then ts else AfterStage(ts[1..])
  }

  function Before(args: seq<string>, redirs: seq<Redirection>, r: Result<Stage>): Result<Stage> {
    match r
    case Ok(s) => Ok(Stage(args + s.args, redirs + s.redirs))
    case Err(e) => Err(e)
  }

  /** The first stage of `ts`, when `argc` of its words have been read already. */
  function ReadStage(ts: seq<Token>, argc: nat): Result<Stage>
    decreases |ts|
  {
    if StageEnds(ts) then
      Ok(Stage([], []))
    else if ts[0].Word? then
      if argc + 1 >= MAX_ARGS then Err(TooManyArgs)
      else Before([ts[0].text], [], ReadStage(ts[1..], argc + 1))
    else if |ts| < 2 || !ts[1].Word? then
      Err(MissingFile)
    else
      Before([], [Redirect(ts[0], ts[1].text)], ReadStage(ts[2..], argc))
  }

  /** The redirections `ts` starts with. */
  function Leading(ts: seq<Token>): (r: Result<seq<Redirection>>)
    ensures r.Ok? ==> 2 * |r.value| <= |ts|
    ensures r.Ok? && 2 * |r.value| < |ts| ==> !Sign(ts[2 * |r.value|])
    ensures r.Err? ==> r.error == MissingFile
  {
    if ts == [] || !Sign(ts[0]) then Ok([])
    else if |ts| < 2 || !ts[1].Word? then Err(MissingFile)
    else
      match Leading(ts[2..])
      case Err(e) => Err(e)
      case Ok(rs) => Ok([Redirect(ts[0], ts[1].text)] + rs)
  }

  function ReadPipe(ts: seq<Token>): Result<Cmd>
    decreases |ts|
  {
    match ReadStage(ts, 0)
    case Err(e) => Err(e)
    case Ok(s) =>
      var rest := AfterStage(ts);
      if rest == [] then Ok(StageCmd(s))
      else
        match ReadPipe(rest[1..])
        case Err(e) => Err(e)
        case Ok(right) => Ok(Pipe(StageCmd(s), right))
  }

  lemma {:induction false} BeforeBefore(a: seq<string>, p: seq<Redirection>,
                                        b: seq<string>, q: seq<Redirection>, r: Result<Stage>)
    ensures Before(a, p, Before(b, q, r)) == Before(a + b, p + q, r)
  {
    if r.Ok? {
      assert a + (b + r.value.args) == a + b + r.value.args;
      assert p + (q + r.value.redirs) == p + q + r.value.redirs;
    }
  }

  /** Reading the leading redirections first gives the same stage. */
  lemma {:induction false} LeadingFirst(ts: seq<Token>, argc: nat)
    ensures match Leading(ts)
            case Err(e) => ReadStage(ts, argc) == Err(e)
            case Ok(rs) =>
              && ReadStage(ts, argc) == Before([], rs, ReadStage(ts[2 * |rs|..], argc))
              && AfterStage(ts) == AfterStage(ts[2 * |rs|..])
    decreases |ts|
  {
    if ts == [] || !Sign(ts[0]) {
      assert ts[0..] == ts;
      if ReadStage(ts, argc).Ok? {
        assert [] + ReadStage(ts, argc).value.args == ReadStage(ts, argc).value.args;
        assert [] + ReadStage(ts, argc).value.redirs == ReadStage(ts, argc).value.redirs;
      }
    } else if |ts| >= 2 && ts[1].Word? {
      LeadingFirst(ts[2..], argc);
      assert ts[1..][1..] == ts[2..];
      if Leading(ts[2..]).Ok? {
        var rs := Leading(ts[2..]).value;
        var r := [Redirect(ts[0], ts[1].text)];
        assert ts[2..][2 * |rs|..] == ts[2 * |r + rs|..];
        BeforeBefore([], r, [], rs, ReadStage(ts[2 * |r + rs|..], argc));
      }
    }
  }

  /** By its sign, '<' opens its file for reading as descriptor 0, and '>' for writing as descriptor 1. */
  lemma {:induction false} LeadingBySign(ts: seq<Token>)
    requires Leading(ts).Ok?
    ensures var rs := Leading(ts).value;
            forall k :: 0 <= k < |rs| ==>
              && ts[2 * k + 1].Word?
              && (ts[2 * k] == Input || ts[2 * k] == Output)
              && (ts[2 * k] == Input ==> rs[k] == Redirection(0, ReadOnly, ts[2 * k + 1].text))
              && (ts[2 * k] == Output ==> rs[k] == Redirection(1, WriteCreateTruncate, ts[2 * k + 1].text))
  {
    if ts != [] && Sign(ts[0]) {
      LeadingBySign(ts[2..]);
      var rs, more := Leading(ts).value, Leading(ts[2..]).value;
      forall k | 0 <= k < |rs|
        ensures ts[2 * k + 1].Word? && (ts[2 * k] == Input || ts[2 * k] == Output)
        ensures ts[2 * k] == Input ==> rs[k] == Redirection(0, ReadOnly, ts[2 * k + 1].text)
        ensures ts[2 * k] == Output ==> rs[k] == Redirection(1, WriteCreateTruncate, ts[2 * k + 1].text)
      {
        if k > 0 {
          assert rs[k] == more[k - 1];
          assert ts[2..][2 * (k - 1)] == ts[2 * k] && ts[2..][2 * (k - 1) + 1] == ts[2 * k + 1];
        }
      }
    }
  }
}
