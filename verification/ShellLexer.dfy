// Characters and tokens of a command line: gettoken and peek move a cursor
// over the line, and the tokens still ahead of it say what they must find.
module ShellLexer {
  datatype Token = Word(text: string) | Input | Output | Bar

  predicate IsSpace(c: char) {
    c == ' ' || c == '\t' || c == '\r' || c == '\n' || c == '\U{000B}'
  }

  predicate IsSymbol(c: char) {
    c == '<' || c == '|' || c == '>'
  }

  predicate IsWordChar(c: char) {
    !IsSpace(c) && !IsSymbol(c)
  }

  /** `s` without its leading white space. */
  function Skip(s: string): (r: string)
    ensures |r| <= |s|
    ensures r == "" || !IsSpace(r[0])
  {
    if s != "" && IsSpace(s[0]) then Skip(s[1..]) else s
  }

  /** How many of the leading characters of `s` can stand in one word. */
  function WordLength(s: string): (n: nat)
    ensures n <= |s|
    ensures s != "" && IsWordChar(s[0]) ==> n > 0
    ensures forall i :: 0 <= i < n ==> IsWordChar(s[i])
    ensures n < |s| ==> !IsWordChar(s[n])
  {
    if s == "" || !IsWordChar(s[0]) then 0 else 1 + WordLength(s[1..])
  }

  predicate Sign(t: Token) {
    t.Input? || t.Output?
  }

  /** What gettoken answers for a token: its own sign, or 'a' for a word. */
  function Code(t: Token): char {
    match t
    case Word(_) => 'a'
    case Input => '<'
    case Output => '>'
    case Bar => '|'
  }

  /** The tokens of a text: symbols stand alone, words are as long as possible. */
  function Lex(s: string): seq<Token>
    decreases |s|
  {
    var t := Skip(s);
    if t == "" then []
    else if t[0] == '|' then [Bar] + Lex(t[1..])
    else if t[0] == '<' then [Input] + Lex(t[1..])
    else if t[0] == '>' then [Output] + Lex(t[1..])
    else
      var n := WordLength(t);
      [Word(t[..n])] + Lex(t[n..])
  }

  lemma {:induction false} LexSkips(s: string)
    ensures Lex(Skip(s)) == Lex(s)
  {
    assert Skip(Skip(s)) == Skip(s);
  }

  /** The cursor `*ps` that every parsing function advances over one line. */
  class Cursor {
    const line: string
    var pos: nat

    ghost predicate Valid()
      reads this
    {
      pos <= |line| && '\0' !in line
    }

    ghost function Tokens(): seq<Token>
      requires Valid()
      reads this
    {
      Lex(line[pos..])
    }

    constructor (s: string)
      requires '\0' !in s
      ensures Valid() && line == s && pos == 0
      ensures Tokens() == Lex(s)
    {
      line, pos := s, 0;
      new;
      assert line[0..] == s;
    }

    /** The character under index `s`; the line ends with a zero. */
    function At(s: nat): (c: char)
      requires s <= |line|
    {
      if s < |line| then line[s] else '\0'
    }

    method SkipSpaces(s: nat) returns (t: nat)
      requires s <= |line|
      ensures s <= t <= |line|
      ensures line[t..] == Skip(line[s..])
    {
      t := s;
      while t < |line| && IsSpace(line[t])
        invariant s <= t <= |line|
        invariant Skip(line[t..]) == Skip(line[s..])
      {
        assert line[t..][1..] == line[t + 1..];
        t := t + 1;
      }
    }

    /** The end of the word that starts at `s`. */
    method SkipWord(s: nat) returns (t: nat)
      requires s <= |line|
      ensures s <= t <= |line|
      ensures t == s + WordLength(line[s..])
    {
      t := s;
      while t < |line| && !IsSpace(line[t]) && !IsSymbol(line[t])
        invariant s <= t <= |line|
        invariant s + WordLength(line[s..]) == t + WordLength(line[t..])
      {
        assert line[t..][1..] == line[t + 1..];
        t := t + 1;
      }
    }

    /**
     * Takes the first token ahead, if there is one, and no other; `q` and
     * `eq` mark the text of a word.  A zero means that the line is used up.
     */
    method GetToken() returns (tok: char, q: nat, eq: nat)
      requires Valid()
      modifies this`pos
      ensures Valid() && q <= eq <= |line|
      ensures old(Tokens()) == [] ==> tok == '\0' && Tokens() == [] && pos == |line|
      ensures old(Tokens()) != [] ==>
                && tok == Code(old(Tokens())[0]) && Tokens() == old(Tokens())[1..]
                && (old(Tokens())[0].Word? ==> line[q..eq] == old(Tokens())[0].text)
    {
      var s := SkipSpaces(pos);
      q := s;
      tok := At(s);
      ghost var here := line[s..];
      match tok {
        case '\0' =>
        case '|' | '<' | '>' =>
          s := s + 1;
          assert here[1..] == line[s..];
        case _ =>
          tok := 'a';
          s := SkipWord(s);
          assert here[..s - q] == line[q..s] && here[s - q..] == line[s..];
      }
      eq := s;
      LexSkips(line[s..]);
      pos := SkipSpaces(s);
    }

    /** Whether the next token is one of the symbols `toks`; takes no token. */
    method Peek(toks: string) returns (found: bool)
      requires Valid()
      requires forall c :: c in toks ==> IsSymbol(c)
      modifies this`pos
      ensures Valid() && Tokens() == old(Tokens())
      ensures Tokens() == [] ==> pos == |line|
      ensures found <==> Tokens() != [] && !Tokens()[0].Word? && Code(Tokens()[0]) in toks
    {
      LexSkips(line[pos..]);
      pos := SkipSpaces(pos);
      found := At(pos) != '\0' && At(pos) in toks;
    }
  }
}
