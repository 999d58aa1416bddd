// The recursive-descent parser of the shell.  Nodes are on the heap: an exec
// node is wrapped in its redirections while its argv is still being filled.
module ShellParser {
  import opened Common
  import opened ShellLexer
  import opened ShellGrammar

  datatype Node =
    | ExecNode(argv: array<Option<string>>)
    | RedirNode(cmd: Node, to: Redirection)
    | PipeNode(left: Node, right: Node)

  ghost function Arrays(n: Node): set<array<Option<string>>> {
    match n
    case ExecNode(argv) => {argv}
    case RedirNode(cmd, _) => Arrays(cmd)
    case PipeNode(left, right) => Arrays(left) + Arrays(right)
  }

  /** The words in front of the first null pointer. */
  function Filled(slots: seq<Option<string>>): seq<string> {
    if slots == [] || slots[0].None? then [] else [slots[0].value] + Filled(slots[1..])
  }

  function Value(n: Node): Cmd
    reads Arrays(n)
  {
    match n
    case ExecNode(argv) => Exec(Filled(argv[..]))
    case RedirNode(cmd, to) => Redir(Value(cmd), to)
    case PipeNode(left, right) => Pipe(Value(left), Value(right))
  }

  ghost function WrapNode(n: Node, rs: seq<Redirection>): (w: Node)
    ensures Arrays(w) == Arrays(n)
  {
    if rs == [] then n else RedirNode(WrapNode(n, rs[..|rs| - 1]), rs[|rs| - 1])
  }

  lemma {:induction false} WrapNodeValue(n: Node, rs: seq<Redirection>)
    ensures Value(WrapNode(n, rs)) == Wrap(Value(n), rs)
  {
    if rs != [] {
      WrapNodeValue(n, rs[..|rs| - 1]);
    }
  }

  lemma {:induction false} ExecValue(argv: array<Option<string>>)
    ensures Value(ExecNode(argv)) == Exec(Filled(argv[..]))
  {
  }

  lemma {:induction false} ArraysAllocated(n: Node)
    ensures forall a :: a in Arrays(n) ==> allocated(a)
  {
    match n
    case ExecNode(_) =>
    case RedirNode(cmd, _) =>
      ArraysAllocated(cmd);
    case PipeNode(left, right) =>
      ArraysAllocated(left);
      ArraysAllocated(right);
  }

  lemma {:induction false} WrapNodeTwice(n: Node, p: seq<Redirection>, q: seq<Redirection>)
    ensures WrapNode(WrapNode(n, p), q) == WrapNode(n, p + q)
  {
    if q == [] {
      assert p + q == p;
    } else {
      var front := q[..|q| - 1];
      WrapNodeTwice(n, p, front);
      assert (p + q)[..|p + q| - 1] == p + front;
    }
  }

  lemma {:induction false} WrapNodeNone(n: Node)
    ensures WrapNode(n, []) == n
  {
  }

  lemma {:induction false} WrapNodeOne(n: Node, rs: seq<Redirection>, to: Redirection)
    ensures WrapNode(n, rs + [to]) == RedirNode(WrapNode(n, rs), to)
  {
    assert (rs + [to])[..|rs|] == rs;
  }

  lemma {:induction false} FilledIs(slots: seq<Option<string>>, words: seq<string>)
    requires |words| < |slots| && slots[|words|].None?
    requires forall i :: 0 <= i < |words| ==> slots[i] == Some(words[i])
    ensures Filled(slots) == words
  {
    if words != [] {
      FilledIs(slots[1..], words[1..]);
      assert words == [words[0]] + words[1..];
    }
  }

  /** Having taken redirections `rs` from `ts`, those of `here` remain. */
  ghost predicate Taken(ts: seq<Token>, rs: seq<Redirection>, here: seq<Token>) {
    && 2 * |rs| <= |ts| && here == ts[2 * |rs|..]
    && match Leading(here)
       case Ok(more) => Leading(ts) == Ok(rs + more)
       case Err(e) => Leading(ts) == Err(e)
  }

  lemma {:induction false} TakeRedir(ts: seq<Token>, rs: seq<Redirection>, here: seq<Token>)
    requires Taken(ts, rs, here) && here != [] && Sign(here[0])
    ensures |here| < 2 || !here[1].Word? ==> Leading(ts) == Err(MissingFile)
    ensures |here| >= 2 && here[1].Word? ==>
              Taken(ts, rs + [Redirect(here[0], here[1].text)], here[2..])
  {
    if |here| >= 2 && here[1].Word? {
      var one := Redirect(here[0], here[1].text);
      assert ts[2 * |rs + [one]|..] == here[2..];
      if Leading(here[2..]).Ok? {
        assert rs + ([one] + Leading(here[2..]).value) == rs + [one] + Leading(here[2..]).value;
      }
    }
  }

  lemma {:induction false} TakenNone(ts: seq<Token>)
    ensures Taken(ts, [], ts)
  {
    assert ts[0..] == ts;
    if Leading(ts).Ok? {
      assert [] + Leading(ts).value == Leading(ts).value;
    }
  }

  lemma {:induction false} TakenAll(ts: seq<Token>, rs: seq<Redirection>, here: seq<Token>)
    requires Taken(ts, rs, here) && (here == [] || !Sign(here[0]))
    ensures Leading(ts) == Ok(rs) && 2 * |rs| <= |ts| && here == ts[2 * |rs|..]
  {
    assert rs + [] == rs;
  }

  /** Wraps `cmd` in the redirections ahead of the cursor, the last outermost. */
  method ParseRedirs(c: Cursor, cmd: Node) returns (r: Result<Node>)
    requires c.Valid()
    modifies c`pos
    ensures c.Valid()
    ensures match Leading(old(c.Tokens()))
            case Err(e) => r == Err(e)
            case Ok(rs) =>
              && r == Ok(WrapNode(cmd, rs)) && c.Tokens() == old(c.Tokens())[2 * |rs|..]
              && forall k :: 0 <= k < |rs| ==>
                   var sign, file := old(c.Tokens())[2 * k], old(c.Tokens())[2 * k + 1];
                   && file.Word? && (sign == Input || sign == Output)
                   && (sign == Input ==> rs[k] == Redirection(0, ReadOnly, file.text))
                   && (sign == Output ==> rs[k] == Redirection(1, WriteCreateTruncate, file.text))
  {
    hide Leading, Taken, WrapNode, Lex;
    ghost var ts := c.Tokens();
    ghost var rs: seq<Redirection> := [];
    var node := cmd;
    TakenNone(ts);
    WrapNodeNone(cmd);
    var more := c.Peek("<>");
    while more
      invariant c.Valid() && Taken(ts, rs, c.Tokens())
      invariant more <==> c.Tokens() != [] && Sign(c.Tokens()[0])
      invariant node == WrapNode(cmd, rs)
      decreases |c.Tokens()|
    {
      ghost var here := c.Tokens();
      TakeRedir(ts, rs, here);
      var tok, _, _ := c.GetToken();
      var word, q, eq := c.GetToken();
      if word != 'a' {
        return Err(MissingFile);
      }
      var file := c.line[q..eq];
      if tok == '<' {
        node := RedirNode(node, Redirection(0, ReadOnly, file));
      } else {
        node := RedirNode(node, Redirection(1, WriteCreateTruncate, file));
      }
      ghost var one := Redirect(here[0], file);
      WrapNodeOne(cmd, rs, one);
      rs := rs + [one];
      more := c.Peek("<>");
    }
    TakenAll(ts, rs, c.Tokens());
    LeadingBySign(ts);
    r := Ok(node);
  }

  /** Having read `words` and `rs`, the rest of the stage is read from `here`. */
  ghost predicate Read(ts: seq<Token>, words: seq<string>, rs: seq<Redirection>, here: seq<Token>) {
    && ReadStage(ts, 0) == Before(words, rs, ReadStage(here, |words|))
    && AfterStage(ts) == AfterStage(here)
  }

  lemma {:induction false} ReadNothing(ts: seq<Token>)
    ensures Read(ts, [], [], ts)
  {
    if ReadStage(ts, 0).Ok? {
      var s := ReadStage(ts, 0).value;
      assert [] + s.args == s.args && [] + s.redirs == s.redirs;
    }
  }

  lemma {:induction false} ReadWord(ts: seq<Token>, words: seq<string>, rs: seq<Redirection>, here: seq<Token>)
    requires Read(ts, words, rs, here) && here != [] && here[0].Word?
    ensures |words| + 1 >= MAX_ARGS ==> ReadStage(ts, 0) == Err(TooManyArgs)
    ensures |words| + 1 < MAX_ARGS ==> Read(ts, words + [here[0].text], rs, here[1..])
  {
    if |words| + 1 < MAX_ARGS {
      BeforeBefore(words, rs, [here[0].text], [], ReadStage(here[1..], |words| + 1));
      assert rs + [] == rs;
    }
  }

  lemma {:induction false} ReadRedirs(ts: seq<Token>, words: seq<string>, rs: seq<Redirection>, here: seq<Token>)
    requires Read(ts, words, rs, here)
    ensures match Leading(here)
            case Err(e) => ReadStage(ts, 0) == Err(e)
            case Ok(more) => Read(ts, words, rs + more, here[2 * |more|..])
  {
    LeadingFirst(here, |words|);
    if Leading(here).Ok? {
      var more := Leading(here).value;
      BeforeBefore(words, rs, [], more, ReadStage(here[2 * |more|..], |words|));
      assert words + [] == words;
    }
  }

  lemma {:induction false} ReadAll(ts: seq<Token>, words: seq<string>, rs: seq<Redirection>, here: seq<Token>)
    requires Read(ts, words, rs, here) && StageEnds(here)
    ensures ReadStage(ts, 0) == Ok(Stage(words, rs)) && AfterStage(ts) == here
  {
    assert words + [] == words && rs + [] == rs;
  }

  ghost predicate Holds(slots: seq<Option<string>>, words: seq<string>) {
    |words| < |slots| && forall i :: 0 <= i < |words| ==> slots[i] == Some(words[i])
  }

  /** One stage: words and redirections up to a bar or the end of the line. */
  method ParseExec(c: Cursor) returns (r: Result<Node>)
    requires c.Valid()
    modifies c`pos
    ensures c.Valid()
    ensures match ReadStage(old(c.Tokens()), 0)
            case Err(e) => r == Err(e)
            case Ok(s) =>
              && r.Ok? && fresh(Arrays(r.value)) && Value(r.value) == StageCmd(s)
              && c.Tokens() == AfterStage(old(c.Tokens()))
  {
    hide ReadStage, Leading, Read, WrapNode, Wrap, Value, Filled, Lex, AfterStage;
    ghost var ts := c.Tokens();
    var argv := new Option<string>[MAX_ARGS](_ => None);
    var argc := 0;
    ghost var words: seq<string> := [];
    ReadNothing(ts);
    ReadRedirs(ts, [], [], ts);
    r := ParseRedirs(c, ExecNode(argv));
    if r.Err? {
      return;
    }
    ghost var rs := Leading(ts).value;
    assert [] + rs == rs;
    var bar := c.Peek("|");
    while !bar
      invariant c.Valid() && argc == |words| && argv.Length == MAX_ARGS
      invariant bar <==> c.Tokens() != [] && c.Tokens()[0].Bar?
      invariant c.Tokens() == [] || !Sign(c.Tokens()[0])
      invariant Holds(argv[..], words)
      invariant r == Ok(WrapNode(ExecNode(argv), rs))
      invariant Read(ts, words, rs, c.Tokens())
      decreases |c.Tokens()|
    {
      ghost var before := c.Tokens();
      var tok, q, eq := c.GetToken();
      if tok == '\0' {
        break;
      }
      if tok != 'a' {
        assert false;
        return Err(SyntaxError);
      }
      ReadWord(ts, words, rs, before);
      argv[argc] := Some(c.line[q..eq]);
      argc := argc + 1;
      if argc >= MAX_ARGS {
        return Err(TooManyArgs);
      }
      ghost var here := c.Tokens();
      words := words + [before[0].text];
      ReadRedirs(ts, words, rs, here);
      r := ParseRedirs(c, r.value);
      if r.Err? {
        return;
      }
      WrapNodeTwice(ExecNode(argv), rs, Leading(here).value);
      rs := rs + Leading(here).value;
      bar := c.Peek("|");
    }
    argv[argc] := None;
    ReadAll(ts, words, rs, c.Tokens());
    FilledIs(argv[..], words);
    WrapNodeValue(ExecNode(argv), rs);
    ExecValue(argv);
  }

  method ParsePipe(c: Cursor) returns (r: Result<Node>)
    requires c.Valid()
    modifies c`pos
    ensures c.Valid()
    ensures match ReadPipe(old(c.Tokens()))
            case Err(e) => r == Err(e)
            case Ok(cmd) =>
              && r.Ok? && fresh(Arrays(r.value)) && Value(r.value) == cmd
              && c.Tokens() == []
    decreases |c.Tokens()|
  {
    r := ParseExec(c);
    if r.Err? {
      return;
    }
    var left := r.value;
    ArraysAllocated(left);
    var bar := c.Peek("|");
    if bar {
      var _, _, _ := c.GetToken();
      r := ParsePipe(c);
      if r.Ok? {
        r := Ok(PipeNode(left, r.value));
      }
    }
  }

  /** Parses a whole line; the cursor always ends where the line does. */
  method ParseCmd(s: string) returns (r: Result<Node>)
    requires '\0' !in s
    ensures match ReadPipe(Lex(s))
            case Err(e) => r == Err(e)
            case Ok(cmd) => r.Ok? && fresh(Arrays(r.value)) && Value(r.value) == cmd
  {
    var c := new Cursor(s);
    r := ParsePipe(c);
    if r.Err? {
      return;
    }
    ArraysAllocated(r.value);
    var _ := c.Peek("");
    if c.pos != |c.line| {
      assert false;
      return Err(Leftovers);
    }
  }
}
