/** The components of a path, as strtok with "/" yields them, and the paths that spell given components. */
module FsPaths {

  /** Where the token that starts at i ends. */
  function TokenEnd(s: string, i: nat): (j: nat)
    requires i <= |s|
    ensures i <= j <= |s|
    ensures forall k :: i <= k < j ==> s[k] != '/'
    ensures j < |s| ==> s[j] == '/'
    decreases |s| - i
  {
    if i == |s| || s[i] == '/' then i else TokenEnd(s, i + 1)
  }

  /** The components of a path: empty ones are skipped. */
  function Tokens(s: string): seq<string>
    decreases |s|
  {
    if s == "" then []
    else if s[0] == '/' then Tokens(s[1..])
    else [s[..TokenEnd(s, 1)]] + Tokens(s[TokenEnd(s, 1)..])
  }

  predicate Component(t: string) {
    t != "" && '/' !in t
  }

  predicate Slashes(s: string) {
    forall i :: 0 <= i < |s| ==> s[i] == '/'
  }

  /** Components with slashes before each of them and behind the last. */
  function Spell(ts: seq<string>, slashes: seq<string>): string
    requires |slashes| == |ts| + 1
  {
    if ts == [] then slashes[0] else slashes[0] + (ts[0] + Spell(ts[1..], slashes[1..]))
  }

  /** The path is such a spelling, with at least one slash between two components. */
  predicate Spells(path: string, ts: seq<string>, slashes: seq<string>) {
    && |slashes| == |ts| + 1
    && (forall i :: 0 <= i < |ts| ==> Component(ts[i]))
    && (forall i :: 0 <= i < |slashes| ==> Slashes(slashes[i]))
    && (forall i :: 0 < i < |ts| ==> slashes[i] != "")
    && path == Spell(ts, slashes)
  }

  lemma {:induction false} TokenEndIs(s: string, i: nat, j: nat)
    requires i <= j <= |s| && (forall k :: i <= k < j ==> s[k] != '/') && (j < |s| ==> s[j] == '/')
    ensures TokenEnd(s, i) == j
  {
  }

  /** The first component of a path that starts with one. */
  lemma {:induction false} TokenFirst(t: string, s: string)
    requires Component(t) && (s != "" ==> s[0] == '/')
    ensures Tokens(t + s) == [t] + Tokens(s)
  {
    assert forall k :: 0 <= k < |t| ==> (t + s)[k] == t[k] && t[k] in t;
    TokenEndIs(t + s, 1, |t|);
    assert (t + s)[..|t|] == t && (t + s)[|t|..] == s;
  }

  lemma {:induction false} SlashesFirst(g: string, s: string)
    requires Slashes(g)
    ensures Tokens(g + s) == Tokens(s)
  {
    if g == "" {
      assert g + s == s;
    } else {
      assert (g + s)[1..] == g[1..] + s;
      SlashesFirst(g[1..], s);
    }
  }

  /** A path in front of a slash and what is behind it have their components one after the other. */
  lemma {:induction false} TokensJoin(p: string, q: string)
    ensures Tokens(p + "/" + q) == Tokens(p) + Tokens(q)
    decreases |p|
  {
    var s := p + "/" + q;
    if p == "" {
      assert s[1..] == q;
    } else if p[0] == '/' {
      assert s[1..] == p[1..] + "/" + q;
      TokensJoin(p[1..], q);
    } else {
      var n := TokenEnd(p, 1);
      assert forall k :: 0 <= k < |p| ==> s[k] == p[k];
      TokenEndIs(s, 1, n);
      assert s[..n] == p[..n] && s[n..] == p[n..] + "/" + q;
      TokensJoin(p[n..], q);
      assert [p[..n]] + (Tokens(p[n..]) + Tokens(q)) == [p[..n]] + Tokens(p[n..]) + Tokens(q);
    }
  }

  /** So the parent of a path comes first, and a name behind a slash last; slashes at the end change nothing. */
  lemma {:induction false} TokensOfChild(p: string, name: string)
    requires Component(name)
    ensures Tokens(p + "/" + name) == Tokens(p) + [name] && Tokens(p + "/") == Tokens(p)
    ensures Tokens(name) == [name] && Tokens("") == []
  {
    TokenFirst(name, "");
    assert name + "" == name && p + "/" + "" == p + "/";
    TokensJoin(p, name);
    TokensJoin(p, "");
  }

  /** However many slashes stand between them, in front and at the end, the components are read in order. */
  lemma {:induction false} TokensSpell(path: string, ts: seq<string>, slashes: seq<string>)
    requires Spells(path, ts, slashes)
    ensures Tokens(path) == ts
    decreases |ts|
  {
    if ts == [] {
      SlashesFirst(slashes[0], "");
      assert slashes[0] + "" == slashes[0];
    } else {
      var rest := Spell(ts[1..], slashes[1..]);
      assert Spells(rest, ts[1..], slashes[1..]);
      TokensSpell(rest, ts[1..], slashes[1..]);
      assert Slashes(slashes[1]);
      SlashesFirst(slashes[0], ts[0] + rest);
      TokenFirst(ts[0], rest);
      assert ts == [ts[0]] + ts[1..];
    }
  }

  /** Every path is such a spelling of its components; none of them is empty or holds a slash. */
  lemma {:induction false} TokensAreFaithful(path: string) returns (slashes: seq<string>)
    ensures Spells(path, Tokens(path), slashes)
    ensures forall t :: t in Tokens(path) ==> t != "" && '/' !in t
    decreases |path|
  {
    var ts := Tokens(path);
    if path == "" {
      slashes := [""];
    } else if path[0] == '/' {
      var before := TokensAreFaithful(path[1..]);
      slashes := before[0 := "/" + before[0]];
      SpellLonger(ts, before);
      assert path == "/" + path[1..];
    } else {
      var n := TokenEnd(path, 1);
      var t, s := path[..n], path[n..];
      assert Component(t) by {
        assert forall k :: 0 <= k < n ==> t[k] == path[k] != '/';
      }
      var before := TokensAreFaithful(s);
      slashes := [""] + before;
      assert ts == [t] + Tokens(s) && path == t + s;
      SpellsMore(t, s, Tokens(s), before);
    }
  }

  /** What stands behind a whole component starts with a slash, if it is not empty. */
  lemma {:induction false} SpellsMore(t: string, s: string, ts: seq<string>, slashes: seq<string>)
    requires Component(t) && Spells(s, ts, slashes) && (s != "" ==> s[0] == '/')
    ensures Spells(t + s, [t] + ts, [""] + slashes)
  {
    hide Component, Slashes;
    var us, gaps := [t] + ts, [""] + slashes;
    assert us[1..] == ts && gaps[1..] == slashes;
    assert Slashes("") by { NoSlashes(); }
    if ts != [] && slashes[0] == "" {
      FirstOfComponent(ts[0]);
    }
    assert Spell(us, gaps) == "" + (t + s);
  }

  lemma NoSlashes()
    ensures Slashes("")
  {
  }

  lemma FirstOfComponent(t: string)
    ensures Component(t) ==> t != "" && t[0] != '/'
  {
  }

  lemma {:induction false} SpellLonger(ts: seq<string>, slashes: seq<string>)
    requires |slashes| == |ts| + 1
    ensures Spell(ts, slashes[0 := "/" + slashes[0]]) == "/" + Spell(ts, slashes)
  {
    var more := slashes[0 := "/" + slashes[0]];
    assert more[1..] == slashes[1..];
  }
}
