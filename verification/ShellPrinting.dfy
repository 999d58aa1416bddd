// Writing tokens and trees back as text, and reading them again.
module ShellPrinting {
  import opened ShellLexer
  import opened ShellGrammar
  import opened ShellMeaning

  predicate AllSpaces(g: string) {
    forall i :: 0 <= i < |g| ==> IsSpace(g[i])
  }

  predicate ProperWord(w: string) {
    w != "" && forall i :: 0 <= i < |w| ==> IsWordChar(w[i]) && w[i] != '\0'
  }

  predicate Proper(t: Token) {
    t.Word? ==> ProperWord(t.text)
  }

  function Text(t: Token): string {
    match t
    case Word(text) => text
    case Input => "<"
    case Output => ">"
    case Bar => "|"
  }

  /** The tokens with a gap before each of them and one at the end. */
  function Spell(ts: seq<Token>, gaps: seq<string>): string
    requires |gaps| == |ts| + 1
  {
    if ts == [] then gaps[0] else gaps[0] + (Text(ts[0]) + Spell(ts[1..], gaps[1..]))
  }

  /** The gaps are white space, and some of it stands between two words. */
  predicate Spaced(ts: seq<Token>, gaps: seq<string>) {
    && |gaps| == |ts| + 1
    && (forall i :: 0 <= i < |ts| ==> Proper(ts[i]))
    && (forall i :: 0 <= i < |gaps| ==> AllSpaces(gaps[i]))
    && (forall i :: 0 < i < |ts| && ts[i - 1].Word? && ts[i].Word? ==> gaps[i] != "")
  }

  lemma {:induction false} SkipGap(g: string, s: string)
    requires AllSpaces(g)
    ensures Skip(g + s) == Skip(s)
  {
    if g == "" {
      assert g + s == s;
    } else {
      assert (g + s)[1..] == g[1..] + s;
      SkipGap(g[1..], s);
    }
  }

  lemma {:induction false} LexGap(g: string, s: string)
    requires AllSpaces(g)
    ensures Lex(g + s) == Lex(s)
  {
    SkipGap(g, s);
    LexSkips(s);
    LexSkips(g + s);
  }

  lemma {:induction false} WordLengthIs(w: string, s: string)
    requires forall i :: 0 <= i < |w| ==> IsWordChar(w[i])
    requires s != "" ==> !IsWordChar(s[0])
    ensures WordLength(w + s) == |w|
  {
    if w == "" {
      assert w + s == s;
    } else {
      assert (w + s)[1..] == w[1..] + s;
      WordLengthIs(w[1..], s);
    }
  }

  lemma {:induction false} LexWord(w: string, s: string)
    requires ProperWord(w)
    requires s != "" ==> !IsWordChar(s[0])
    ensures Lex(w + s) == [Word(w)] + Lex(s)
  {
    WordLengthIs(w, s);
    assert Skip(w + s) == w + s;
    assert (w + s)[..|w|] == w && (w + s)[|w|..] == s;
  }

  lemma {:induction false} LexSymbol(t: Token, s: string)
    requires !t.Word?
    ensures Lex(Text(t) + s) == [t] + Lex(s)
  {
    assert Skip(Text(t) + s) == Text(t) + s;
    assert (Text(t) + s)[1..] == s;
  }

  lemma {:induction false} SpacedTail(ts: seq<Token>, gaps: seq<string>)
    requires ts != [] && Spaced(ts, gaps)
    ensures Spaced(ts[1..], gaps[1..])
  {
    hide AllSpaces, Proper;
    var us, hs := ts[1..], gaps[1..];
    assert forall i :: 0 <= i < |us| ==> us[i] == ts[i + 1];
    assert forall i :: 0 <= i < |hs| ==> hs[i] == gaps[i + 1];
    assert forall i :: 0 < i < |us| ==> us[i - 1] == ts[i];
  }

  /** After a word, a spelled text goes on with something that ends the word. */
  lemma {:induction false} WordEnds(ts: seq<Token>, gaps: seq<string>)
    requires Spaced(ts, gaps)
    requires ts != [] && ts[0].Word? ==> gaps[0] != ""
    ensures Spell(ts, gaps) != "" ==> !IsWordChar(Spell(ts, gaps)[0])
  {
    assert AllSpaces(gaps[0]);
  }

  /** However the tokens are spaced, they are read back as they were. */
  lemma {:induction false} LexSpell(ts: seq<Token>, gaps: seq<string>)
    requires Spaced(ts, gaps)
    ensures Lex(Spell(ts, gaps)) == ts
  {
    hide Spaced, Lex, Proper, AllSpaces;
    assert AllSpaces(gaps[0]) && |gaps| == |ts| + 1 by { SpacedFirst(ts, gaps); }
    if ts == [] {
      LexGap(gaps[0], "");
      assert gaps[0] + "" == gaps[0];
      LexNothing();
    } else {
      var rest := Spell(ts[1..], gaps[1..]);
      SpacedTail(ts, gaps);
      SpacedFirst(ts, gaps);
      LexSpell(ts[1..], gaps[1..]);
      LexGap(gaps[0], Text(ts[0]) + rest);
      if ts[0].Word? {
        WordEnds(ts[1..], gaps[1..]);
        LexWord(ts[0].text, rest);
      } else {
        LexSymbol(ts[0], rest);
      }
    }
  }

  lemma {:induction false} LexNothing()
    ensures Lex("") == []
  {
  }

  lemma {:induction false} SpacedFirst(ts: seq<Token>, gaps: seq<string>)
    requires Spaced(ts, gaps)
    ensures |gaps| == |ts| + 1 && AllSpaces(gaps[0])
    ensures ts != [] && ts[0].Word? ==> ProperWord(ts[0].text)
    ensures |ts| > 1 && ts[0].Word? && ts[1].Word? ==> gaps[1] != ""
  {
  }

  /** White space between tokens changes nothing. */
  lemma {:induction false} SpacingIsIrrelevant(ts: seq<Token>, gaps: seq<string>, others: seq<string>)
    requires Spaced(ts, gaps) && Spaced(ts, others)
    ensures ReadPipe(Lex(Spell(ts, gaps))) == ReadPipe(Lex(Spell(ts, others)))
  {
    LexSpell(ts, gaps);
    LexSpell(ts, others);
  }

  // ---------------------------------------------------------------------
  // Every line is a spelling of its tokens

  function LeadingGap(s: string): string {
    s[..|s| - |Skip(s)|]
  }

  /** The white space of `s` before each of its tokens and at its end. */
  function Gaps(s: string): (gaps: seq<string>)
    ensures |gaps| == |Lex(s)| + 1
    decreases |s|
  {
    var t := Skip(s);
    if t == "" then [LeadingGap(s)]
    else if IsSymbol(t[0]) then [LeadingGap(s)] + Gaps(t[1..])
    else [LeadingGap(s)] + Gaps(t[WordLength(t)..])
  }

  lemma {:induction false} SkipIsSuffix(s: string)
    ensures s == LeadingGap(s) + Skip(s) && AllSpaces(LeadingGap(s))
    ensures s != "" && IsSpace(s[0]) ==> LeadingGap(s) != ""
  {
    if s != "" && IsSpace(s[0]) {
      SkipIsSuffix(s[1..]);
      assert LeadingGap(s) == [s[0]] + LeadingGap(s[1..]);
    }
  }

  lemma {:induction false} SpacedCons(t: Token, g: string, ts: seq<Token>, gaps: seq<string>)
    requires Proper(t) && AllSpaces(g) && Spaced(ts, gaps)
    requires t.Word? && ts != [] && ts[0].Word? ==> gaps[0] != ""
    ensures Spaced([t] + ts, [g] + gaps)
    ensures Spell([t] + ts, [g] + gaps) == g + (Text(t) + Spell(ts, gaps))
  {
    hide AllSpaces, Proper;
    var us, hs := [t] + ts, [g] + gaps;
    assert us[1..] == ts && hs[1..] == gaps;
    assert forall i :: 0 < i < |us| ==> us[i] == ts[i - 1];
    assert forall i :: 0 < i < |hs| ==> hs[i] == gaps[i - 1];
  }

  /** The text behind the first token of `s`. */
  function Behind(s: string): (rest: string)
    requires Skip(s) != ""
    ensures |rest| < |s|
  {
    var t := Skip(s);
    if IsSymbol(t[0]) then t[1..] else t[WordLength(t)..]
  }

  lemma {:induction false} NoZeroBehind(s: string, t: string, n: nat)
    requires '\0' !in s && |t| <= |s| && t == s[|s| - |t|..] && n <= |t|
    ensures '\0' !in t && '\0' !in t[..n] && '\0' !in t[n..]
  {
  }

  lemma {:induction false} LexSymbolFirst(s: string, t: Token)
    requires Skip(s) != "" && !t.Word? && Skip(s)[0] == Code(t)
    ensures Lex(s) == [t] + Lex(Behind(s)) && Skip(s) == Text(t) + Behind(s)
  {
    hide Skip, WordLength;
  }

  lemma {:induction false} GapsSymbolFirst(s: string)
    requires Skip(s) != "" && IsSymbol(Skip(s)[0])
    ensures Gaps(s) == [LeadingGap(s)] + Gaps(Behind(s))
  {
    hide Skip, WordLength, LeadingGap, Lex;
  }

  lemma {:induction false} LexSymbolStep(s: string)
    requires Skip(s) != "" && IsSymbol(Skip(s)[0])
    ensures Lex(s) != [] && !Lex(s)[0].Word?
    ensures Lex(s) == [Lex(s)[0]] + Lex(Behind(s)) && Gaps(s) == [LeadingGap(s)] + Gaps(Behind(s))
    ensures Skip(s) == Text(Lex(s)[0]) + Behind(s)
  {
    var t := if Skip(s)[0] == '|' then Bar else if Skip(s)[0] == '<' then Input else Output;
    hide Lex, Gaps, Skip, Behind, LeadingGap;
    LexSymbolFirst(s, t);
    GapsSymbolFirst(s);
  }

  lemma {:induction false} LexWordStep(s: string)
    requires '\0' !in s && Skip(s) != "" && !IsSymbol(Skip(s)[0])
    ensures Lex(s) != [] && Lex(s)[0].Word? && ProperWord(Lex(s)[0].text)
    ensures Lex(s) == [Lex(s)[0]] + Lex(Behind(s)) && Gaps(s) == [LeadingGap(s)] + Gaps(Behind(s))
    ensures Skip(s) == Text(Lex(s)[0]) + Behind(s)
    ensures Behind(s) != "" ==> !IsWordChar(Behind(s)[0])
  {
    var t := Skip(s);
    SkipIsSuffix(s);
    NoZeroBehind(s, t, WordLength(t));
    assert IsWordChar(t[0]);
    hide Skip, LeadingGap, WordLength, ProperWord;
    LexWordFirst(s);
    GapsWordFirst(s);
    WordIsProper(t);
    assert t == t[..WordLength(t)] + t[WordLength(t)..];
    hide Lex, Gaps;
  }

  lemma {:induction false} LexWordFirst(s: string)
    requires Skip(s) != "" && !IsSymbol(Skip(s)[0])
    ensures Lex(s) == [Word(Skip(s)[..WordLength(Skip(s))])] + Lex(Behind(s))
  {
    hide Skip, WordLength;
  }

  lemma {:induction false} GapsWordFirst(s: string)
    requires Skip(s) != "" && !IsSymbol(Skip(s)[0])
    ensures Gaps(s) == [LeadingGap(s)] + Gaps(Behind(s))
  {
    hide Skip, WordLength, LeadingGap, Lex;
  }

  lemma {:induction false} WordIsProper(t: string)
    requires '\0' !in t && t != "" && IsWordChar(t[0])
    ensures ProperWord(t[..WordLength(t)])
  {
    var w := t[..WordLength(t)];
    assert forall i :: 0 <= i < |w| ==> w[i] == t[i] && t[i] in t;
  }

  /** A line without zeros is its own tokens spelled with its own white space. */
  lemma {:induction false} LexIsFaithful(s: string)
    requires '\0' !in s
    ensures Spaced(Lex(s), Gaps(s)) && Spell(Lex(s), Gaps(s)) == s
    ensures s != "" && IsSpace(s[0]) ==> Gaps(s)[0] != ""
    decreases |s|
  {
    SkipIsSuffix(s);
    if Skip(s) == "" {
      assert LeadingGap(s) == s;
    } else {
      hide Lex, Gaps, Spaced, Spell, Behind, LeadingGap;
      if IsSymbol(Skip(s)[0]) {
        LexSymbolStep(s);
      } else {
        LexWordStep(s);
      }
      var first, rest := Lex(s)[0], Behind(s);
      assert rest == Skip(s)[|Text(first)|..];
      NoZeroBehind(s, Skip(s), |Text(first)|);
      LexIsFaithful(rest);
      if first.Word? && Lex(rest) != [] && Lex(rest)[0].Word? {
        WordThenWord(rest);
      }
      SpacedCons(first, LeadingGap(s), Lex(rest), Gaps(rest));
    }
  }

  /** After a whole word, the next word can only come after white space. */
  lemma {:induction false} WordThenWord(rest: string)
    requires rest != "" ==> !IsWordChar(rest[0])
    requires Lex(rest) != [] && Lex(rest)[0].Word?
    ensures rest != "" && IsSpace(rest[0])
  {
  }

  // ---------------------------------------------------------------------
  // Printing a pipeline and parsing it again

  function SignOf(r: Redirection): Token {
    if r.fd == 0 then Input else Output
  }

  predicate PrintableRedir(r: Redirection) {
    ProperWord(r.file) && (r == Redirection(0, ReadOnly, r.file) || r == Redirection(1, WriteCreateTruncate, r.file))
  }

  predicate Printable(s: Stage) {
    && |s.args| < MAX_ARGS
    && (forall i :: 0 <= i < |s.args| ==> ProperWord(s.args[i]))
    && (forall i :: 0 <= i < |s.redirs| ==> PrintableRedir(s.redirs[i]))
  }

  function WordTokens(args: seq<string>): seq<Token> {
    if args == [] then [] else [Word(args[0])] + WordTokens(args[1..])
  }

  function RedirTokens(rs: seq<Redirection>): seq<Token> {
    if rs == [] then [] else [SignOf(rs[0]), Word(rs[0].file)] + RedirTokens(rs[1..])
  }

  function StageTokens(s: Stage): seq<Token> {
    WordTokens(s.args) + RedirTokens(s.redirs)
  }

  function LineTokens(ss: seq<Stage>): seq<Token>
    requires ss != []
  {
    if |ss| == 1 then StageTokens(ss[0]) else StageTokens(ss[0]) + ([Bar] + LineTokens(ss[1..]))
  }

  /** The line with one blank before each token and one at the end. */
  function Print(ss: seq<Stage>): string
    requires ss != []
  {
    var ts := LineTokens(ss);
    Spell(ts, seq(|ts| + 1, _ => " "))
  }

  lemma {:induction false} ReadOneRedir(sign: Token, file: Token, more: seq<Token>, argc: nat)
    requires Sign(sign) && file.Word?
    ensures ReadStage([sign, file] + more, argc) ==
            Before([], [Redirect(sign, file.text)], ReadStage(more, argc))
    ensures AfterStage([sign, file] + more) == AfterStage(more)
  {
    var ts := [sign, file] + more;
    assert ts[2..] == more && ts[1..] == [file] + more && ts[1..][1..] == more;
  }

  lemma {:induction false} NoRedirs(tail: seq<Token>, argc: nat)
    requires StageEnds(tail)
    ensures ReadStage(RedirTokens([]) + tail, argc) == Ok(Stage([], []))
    ensures AfterStage(RedirTokens([]) + tail) == tail
  {
    assert RedirTokens([]) + tail == tail;
  }

  lemma {:induction false} FirstRedir(rs: seq<Redirection>)
    requires rs != [] && PrintableRedir(rs[0])
    ensures RedirTokens(rs) == [SignOf(rs[0]), Word(rs[0].file)] + RedirTokens(rs[1..])
    ensures Sign(SignOf(rs[0])) && rs == [Redirect(SignOf(rs[0]), rs[0].file)] + rs[1..]
  {
  }

  lemma {:induction false} ReadPrintedRedirs(rs: seq<Redirection>, tail: seq<Token>, argc: nat)
    requires StageEnds(tail) && forall i :: 0 <= i < |rs| ==> PrintableRedir(rs[i])
    ensures ReadStage(RedirTokens(rs) + tail, argc) == Ok(Stage([], rs))
    ensures AfterStage(RedirTokens(rs) + tail) == tail
  {
    hide RedirTokens, ReadStage, AfterStage, PrintableRedir, StageEnds, SignOf;
    if rs == [] {
      NoRedirs(tail, argc);
    } else {
      ReadPrintedRedirs(rs[1..], tail, argc);
      FirstRedir(rs);
      var more := RedirTokens(rs[1..]) + tail;
      var sign, file := SignOf(rs[0]), Word(rs[0].file);
      assert RedirTokens(rs) + tail == [sign, file] + more;
      ReadOneRedir(sign, file, more, argc);
      var noWords: seq<string> := [];
      assert noWords + noWords == noWords;
    }
  }

  lemma {:induction false} ReadOneWord(word: string, more: seq<Token>, argc: nat)
    requires argc + 1 < MAX_ARGS
    ensures ReadStage([Word(word)] + more, argc) == Before([word], [], ReadStage(more, argc + 1))
    ensures AfterStage([Word(word)] + more) == AfterStage(more)
  {
    assert ([Word(word)] + more)[1..] == more;
  }

  lemma {:induction false} ReadPrintedWords(args: seq<string>, ts: seq<Token>, rs: seq<Redirection>, argc: nat)
    requires argc + |args| < MAX_ARGS && ReadStage(ts, argc + |args|) == Ok(Stage([], rs))
    ensures ReadStage(WordTokens(args) + ts, argc) == Ok(Stage(args, rs))
    ensures AfterStage(WordTokens(args) + ts) == AfterStage(ts)
  {
    hide ReadStage, AfterStage;
    if args == [] {
      assert WordTokens(args) + ts == ts;
    } else {
      ReadPrintedWords(args[1..], ts, rs, argc + 1);
      assert WordTokens(args) == [Word(args[0])] + WordTokens(args[1..]);
      hide WordTokens;
      var more := WordTokens(args[1..]) + ts;
      assert WordTokens(args) + ts == [Word(args[0])] + more;
      ReadOneWord(args[0], more, argc);
      assert args == [args[0]] + args[1..] && [] + rs == rs;
    }
  }

  lemma {:induction false} ReadPrintedStage(s: Stage, tail: seq<Token>)
    requires Printable(s) && StageEnds(tail)
    ensures ReadStage(StageTokens(s) + tail, 0) == Ok(s)
    ensures AfterStage(StageTokens(s) + tail) == tail
  {
    ReadPrintedRedirs(s.redirs, tail, |s.args|);
    ReadPrintedWords(s.args, RedirTokens(s.redirs) + tail, s.redirs, 0);
    assert StageTokens(s) + tail == WordTokens(s.args) + (RedirTokens(s.redirs) + tail);
  }

  lemma {:induction false} ReadPrintedLine(ss: seq<Stage>)
    requires ss != [] && forall i :: 0 <= i < |ss| ==> Printable(ss[i])
    ensures ReadPipe(LineTokens(ss)) == Ok(Nested(ss))
  {
    hide Printable, ReadStage, StageTokens, StageCmd;
    if |ss| == 1 {
      ReadPrintedStage(ss[0], []);
      assert StageTokens(ss[0]) + [] == LineTokens(ss);
    } else {
      var tail := [Bar] + LineTokens(ss[1..]);
      ReadPrintedLine(ss[1..]);
      ReadPrintedStage(ss[0], tail);
      assert tail[1..] == LineTokens(ss[1..]);
    }
  }

  lemma {:induction false} WordTokensAreProper(args: seq<string>)
    requires forall i :: 0 <= i < |args| ==> ProperWord(args[i])
    ensures forall t :: t in WordTokens(args) ==> Proper(t)
  {
    hide ProperWord;
    if args != [] {
      WordTokensAreProper(args[1..]);
    }
  }

  lemma {:induction false} RedirTokensAreProper(rs: seq<Redirection>)
    requires forall i :: 0 <= i < |rs| ==> PrintableRedir(rs[i])
    ensures forall t :: t in RedirTokens(rs) ==> Proper(t)
  {
    hide ProperWord;
    if rs != [] {
      RedirTokensAreProper(rs[1..]);
    }
  }

  lemma {:induction false} LineTokensAreProper(ss: seq<Stage>)
    requires ss != [] && forall i :: 0 <= i < |ss| ==> Printable(ss[i])
    ensures forall t :: t in LineTokens(ss) ==> Proper(t)
  {
    hide ProperWord, PrintableRedir;
    WordTokensAreProper(ss[0].args);
    RedirTokensAreProper(ss[0].redirs);
    if |ss| > 1 {
      LineTokensAreProper(ss[1..]);
    }
  }

  /**
   * The tree of a pipeline, written with its words before its redirections
   * and any white space between the tokens, is parsed back to that tree.
   */
  lemma {:induction false} RoundTrip(ss: seq<Stage>, gaps: seq<string>)
    requires ss != [] && forall i :: 0 <= i < |ss| ==> Printable(ss[i])
    requires Spaced(LineTokens(ss), gaps)
    ensures ReadPipe(Lex(Spell(LineTokens(ss), gaps))) == Ok(Nested(ss))
  {
    LexSpell(LineTokens(ss), gaps);
    ReadPrintedLine(ss);
  }

  lemma {:induction false} PrintIsSpaced(ss: seq<Stage>)
    requires ss != [] && forall i :: 0 <= i < |ss| ==> Printable(ss[i])
    ensures Spaced(LineTokens(ss), seq(|LineTokens(ss)| + 1, _ => " "))
    ensures ReadPipe(Lex(Print(ss))) == Ok(Nested(ss))
  {
    hide ProperWord, Printable, Proper, Spell, Lex, ReadPipe;
    LineTokensAreProper(ss);
    var ts := LineTokens(ss);
    assert forall i :: 0 <= i < |ts| ==> ts[i] in ts;
    RoundTrip(ss, seq(|ts| + 1, _ => " "));
  }

  // ---------------------------------------------------------------------
  // Parsing a line and printing its tree

  lemma {:induction false} MeaningIsPrintable(segment: seq<Token>, afterSign: bool)
    requires forall t :: t in segment ==> Proper(t)
    ensures forall i :: 0 <= i < |Args(segment, afterSign)| ==> ProperWord(Args(segment, afterSign)[i])
    ensures forall i :: 0 <= i < |Redirs(segment)| ==> PrintableRedir(Redirs(segment)[i])
  {
    hide ProperWord;
    if segment != [] {
      assert Proper(segment[0]) && forall t :: t in segment[1..] ==> t in segment;
      if |segment| > 1 {
        assert Proper(segment[1]);
      }
      MeaningIsPrintable(segment[1..], Sign(segment[0]));
      MeaningIsPrintable(segment[1..], false);
    }
  }

  lemma {:induction false} SegmentHoldsTokens(ts: seq<Token>, s: seq<Token>)
    requires s in Segments(ts)
    ensures forall t :: t in s ==> t in ts
    decreases |ts|
  {
    AfterStageIsSuffix(ts);
    var rest := AfterStage(ts);
    hide AfterStage;
    if s != FirstSegment(ts) && rest != [] {
      SegmentHoldsTokens(rest[1..], s);
      assert forall t :: t in rest[1..] ==> t in rest;
    }
  }

  lemma {:induction false} MeaningsAt(segments: seq<seq<Token>>, i: nat)
    requires i < |segments|
    ensures Meanings(segments)[i] == Meaning(segments[i])
  {
    if i > 0 {
      MeaningsAt(segments[1..], i - 1);
    }
  }

  /** Printing the tree of an accepted line gives a line with the same tree. */
  lemma {:induction false} PrintingNormalizes(s: string)
    requires '\0' !in s && ReadPipe(Lex(s)).Ok?
    ensures var ss := Meanings(Segments(Lex(s)));
            && (forall i :: 0 <= i < |ss| ==> Printable(ss[i]))
            && ReadPipe(Lex(Print(ss))) == ReadPipe(Lex(s)) == Ok(Nested(ss))
  {
    var ts := Lex(s);
    var ss := Meanings(Segments(ts));
    LexIsFaithful(s);
    assert forall i :: 0 <= i < |ts| ==> Proper(ts[i]);
    LineMeaning(ts);
    hide Lex, Segments, ReadPipe, Proper, Nested, Meanings, Spaced, Spell, Print, Acceptable, Meaning, Printable;
    forall i | 0 <= i < |ss|
      ensures Printable(ss[i])
    {
      var segment := Segments(ts)[i];
      MeaningsAt(Segments(ts), i);
      SegmentHoldsTokens(ts, segment);
      SegmentIsPrintable(segment);
    }
    PrintIsSpaced(ss);
  }

  lemma {:induction false} SegmentIsPrintable(segment: seq<Token>)
    requires Acceptable(segment) && forall t :: t in segment ==> Proper(t)
    ensures Printable(Meaning(segment))
  {
    hide ProperWord, PrintableRedir, Proper;
    MeaningIsPrintable(segment, false);
  }
}
