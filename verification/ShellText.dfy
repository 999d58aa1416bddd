// What the characters of a line decide: its tokens, and the files of its redirections.
module ShellText {
  import opened ShellLexer
  import opened ShellGrammar
  import opened ShellMeaning
  import opened ShellPrinting

  // ---------------------------------------------------------------------
  // What Lex gives, character by character

  lemma {:induction false} SkipAppend(s: string, rest: string)
    requires Skip(s) != ""
    ensures Skip(s + rest) == Skip(s) + rest
  {
    if IsSpace(s[0]) {
      assert (s + rest)[1..] == s[1..] + rest;
      SkipAppend(s[1..], rest);
    }
  }

  lemma {:induction false} SkipAll(s: string, rest: string)
    requires Skip(s) == ""
    ensures Skip(s + rest) == Skip(rest)
  {
    if s == "" {
      assert s + rest == rest;
    } else {
      assert (s + rest)[1..] == s[1..] + rest;
      SkipAll(s[1..], rest);
    }
  }

  lemma {:induction false} WordLengthAppend(t: string, rest: string)
    requires rest != "" ==> !IsWordChar(rest[0])
    ensures WordLength(t + rest) == WordLength(t)
  {
    if t == "" {
      assert t + rest == rest;
    } else if IsWordChar(t[0]) {
      assert (t + rest)[1..] == t[1..] + rest;
      WordLengthAppend(t[1..], rest);
    }
  }

  lemma {:induction false} BehindAppend(s: string, rest: string)
    requires Skip(s) != "" && (rest != "" ==> !IsWordChar(rest[0]))
    ensures Skip(s + rest) == Skip(s) + rest && Skip(s + rest)[0] == Skip(s)[0]
    ensures Behind(s + rest) == Behind(s) + rest
    ensures WordLength(Skip(s + rest)) == WordLength(Skip(s))
    ensures Skip(s + rest)[..WordLength(Skip(s))] == Skip(s)[..WordLength(Skip(s))]
  {
    SkipAppend(s, rest);
    var t := Skip(s);
    WordLengthAppend(t, rest);
    hide Skip, WordLength;
    assert (t + rest)[1..] == t[1..] + rest;
    var n := WordLength(t);
    assert (t + rest)[..n] == t[..n] && (t + rest)[n..] == t[n..] + rest;
  }

  lemma LexNone(s: string)
    requires Skip(s) == ""
    ensures Lex(s) == []
  {
    hide Skip;
  }

  /** A text can be read up to anything that ends a word, and then from there on. */
  lemma {:induction false} LexAppend(s: string, rest: string)
    requires rest != "" ==> !IsWordChar(rest[0])
    ensures Lex(s + rest) == Lex(s) + Lex(rest)
    decreases |s|
  {
    hide Lex, Skip, WordLength, Behind, IsWordChar;
    if Skip(s) == "" {
      SkipAll(s, rest);
      LexSkips(s + rest);
      LexSkips(rest);
      LexNone(s);
    } else {
      BehindAppend(s, rest);
      LexAppend(Behind(s), rest);
      if IsSymbol(Skip(s)[0]) {
        var t := if Skip(s)[0] == '|' then Bar else if Skip(s)[0] == '<' then Input else Output;
        LexSymbolFirst(s, t);
        LexSymbolFirst(s + rest, t);
      } else {
        LexWordFirst(s);
        LexWordFirst(s + rest);
      }
    }
  }

  /** White space separates and gives nothing; the three symbols separate and stand for themselves. */
  lemma {:induction false} LexAt(s: string, c: char, rest: string)
    ensures c in " \t\r\n\U{000B}" ==> Lex(s + [c] + rest) == Lex(s) + Lex(rest)
    ensures c == '<' ==> Lex(s + [c] + rest) == Lex(s) + [Input] + Lex(rest)
    ensures c == '>' ==> Lex(s + [c] + rest) == Lex(s) + [Output] + Lex(rest)
    ensures c == '|' ==> Lex(s + [c] + rest) == Lex(s) + [Bar] + Lex(rest)
  {
    hide Lex;
    assert s + [c] + rest == s + ([c] + rest);
    if c == '<' || c == '>' || c == '|' {
      LexAppend(s, [c] + rest);
      var t := if c == '<' then Input else if c == '>' then Output else Bar;
      LexSymbol(t, rest);
      assert Text(t) == [c];
    } else if c in " \t\r\n\U{000B}" {
      LexAppend(s, [c] + rest);
      LexGap([c], rest);
    }
  }

  lemma EndsWords(c: char)
    ensures c in " \t\r\n\U{000B}<>|" <==> !IsWordChar(c)
  {
    var ends := " \t\r\n\U{000B}<>|";
    assert |ends| == 8 && ends[0] == ' ' && ends[1] == '\t' && ends[2] == '\r' && ends[3] == '\n';
    assert ends[4] == '\U{000B}' && ends[5] == '<' && ends[6] == '>' && ends[7] == '|';
  }

  /** A text without any of these characters is one word, unless it is empty. */
  lemma {:induction false} LexPlain(w: string)
    requires forall c :: c in w ==> c !in " \t\r\n\U{000B}<>|"
    ensures Lex(w) == if w == "" then [] else [Word(w)]
  {
    if w != "" {
      forall i | 0 <= i < |w| ensures IsWordChar(w[i]) {
        assert w[i] in w;
        EndsWords(w[i]);
      }
      WordLengthIs(w, "");
      assert w + "" == w;
      assert w[..|w|] == w && w[|w|..] == "";
    }
  }

  // ---------------------------------------------------------------------
  // Redirections in the text of a line

  lemma CountBehind(first: seq<Token>, more: seq<Token>)
    requires Bar !in first
    ensures multiset(first + [Bar] + more)[Bar] == 1 + multiset(more)[Bar]
  {
    assert multiset(first)[Bar] == 0;
    assert multiset(first + [Bar] + more) == multiset(first) + multiset([Bar]) + multiset(more);
  }

  lemma CountNone(first: seq<Token>)
    requires Bar !in first
    ensures multiset(first)[Bar] == 0
  {
  }

  lemma {:induction false} SegmentsStep(ts: seq<Token>)
    ensures AfterStage(ts) == [] ==> Segments(ts) == [ts]
    ensures AfterStage(ts) != [] ==>
              && AfterStage(ts)[0] == Bar
              && Segments(ts) == [FirstSegment(ts)] + Segments(AfterStage(ts)[1..])
  {
  }

  /** Where a token of the line is in the stages cut from it: as many bars stand in front as stages. */
  lemma {:induction false} SegmentAt(ts: seq<Token>, p: nat) returns (j: nat)
    requires p < |ts| && !ts[p].Bar?
    ensures multiset(ts[..p])[Bar] < |Segments(ts)|
    ensures var segment := Segments(ts)[multiset(ts[..p])[Bar]];
            && j < |segment| && segment[j] == ts[p]
            && (p + 1 < |ts| && !ts[p + 1].Bar? ==> j + 1 < |segment| && segment[j + 1] == ts[p + 1])
    decreases |ts|
  {
    AfterStageIsSuffix(ts);
    SegmentsStep(ts);
    var first, rest := FirstSegment(ts), AfterStage(ts);
    hide Segments, AfterStage, FirstSegment;
    var n := |first|;
    assert rest != [] ==> n < |ts| && ts[n] == Bar;
    if p < n {
      j := p;
      assert ts[..p] == first[..p];
      CountNone(ts[..p]);
      assert Segments(ts)[0] == first || (rest == [] && Segments(ts)[0] == ts);
    } else {
      assert ts[n] == rest[0] == Bar;
      var q: nat := p - n - 1;
      assert rest[1..][q] == ts[p];
      assert p + 1 < |ts| ==> rest[1..][q + 1] == ts[p + 1];
      j := SegmentAt(rest[1..], q);
      assert ts[..p] == first + [Bar] + rest[1..][..q];
      CountBehind(first, rest[1..][..q]);
    }
  }

  lemma {:induction false} SpacesAreNoBars(g: string)
    requires AllSpaces(g)
    ensures multiset(g)['|'] == 0
  {
  }

  /** There are as many bars among the tokens as in the text. */
  lemma {:induction false} BarsInText(s: string)
    ensures multiset(Lex(s))[Bar] == multiset(s)['|']
    decreases |s|
  {
    SkipIsSuffix(s);
    SpacesAreNoBars(LeadingGap(s));
    if Skip(s) == "" {
      assert Lex(s) == [];
    } else {
      BarsInText(Behind(s));
      if IsSymbol(Skip(s)[0]) {
        var t := if Skip(s)[0] == '|' then Bar else if Skip(s)[0] == '<' then Input else Output;
        LexSymbolFirst(s, t);
        BarsOneMore(s, LeadingGap(s), Text(t), Behind(s), t);
      } else {
        LexWordFirst(s);
        var w := Skip(s)[..WordLength(Skip(s))];
        assert Skip(s) == w + Behind(s);
        assert '|' !in w;
        BarsOneMore(s, LeadingGap(s), w, Behind(s), Word(w));
      }
    }
  }

  lemma {:induction false} BarsOneMore(s: string, gap: string, text: string, rest: string, t: Token)
    requires s == gap + (text + rest) && multiset(gap)['|'] == 0 && multiset(text)['|'] == multiset([t])[Bar]
    requires Lex(s) == [t] + Lex(rest) && multiset(Lex(rest))[Bar] == multiset(rest)['|']
    ensures multiset(Lex(s))[Bar] == multiset(s)['|']
  {
    hide Lex;
    assert multiset(s) == multiset(gap) + (multiset(text) + multiset(rest));
    assert multiset([t] + Lex(rest)) == multiset([t]) + multiset(Lex(rest));
  }

  /** Wherever '<' or '>' stands in an accepted line, the word behind it is the file of a redirection of the stage
      it stands in: '<' opens it for reading as descriptor 0, '>' for writing as descriptor 1. */
  lemma {:induction false} RedirectionInText(a: string, sign: char, g: string, file: string, b: string)
      returns (k: nat)
    requires sign == '<' || sign == '>'
    requires AllSpaces(g) && file != "" && (forall c :: c in file ==> c !in " \t\r\n\U{000B}<>|")
    requires b != "" ==> b[0] in " \t\r\n\U{000B}<>|"
    requires ReadPipe(Lex(a + [sign] + (g + (file + b)))).Ok?
    ensures var ss := Meanings(Segments(Lex(a + [sign] + (g + (file + b)))));
            var i := multiset(a)['|'];
            && i < |ss| && k < |ss[i].redirs|
            && ss[i].redirs[k] == if sign == '<' then Redirection(0, ReadOnly, file)
                                  else Redirection(1, WriteCreateTruncate, file)
  {
    var ts := Lex(a + [sign] + (g + (file + b)));
    var tok := if sign == '<' then Input else Output;
    LexAt(a, sign, g + (file + b));
    LexGap(g, file + b);
    if b != "" {
      EndsWords(b[0]);
    }
    LexAppend(file, b);
    LexPlain(file);
    BarsInText(a);
    var p := |Lex(a)|;
    assert ts == Lex(a) + [tok] + ([Word(file)] + Lex(b));
    hide Lex, Segments, ReadPipe, Acceptable, SignsHaveFiles;
    assert ts[..p] == Lex(a) && ts[p] == tok && ts[p + 1] == Word(file);
    var j := SegmentAt(ts, p);
    var i := multiset(a)['|'];
    LineMeaning(ts);
    assert Segments(ts)[i] in Segments(ts);
    MeaningsAt(Segments(ts), i);
    RedirectionBySign(Segments(ts)[i], j);
    k := SignsBefore(Segments(ts)[i], j);
  }
}
