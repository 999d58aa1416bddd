/** The tree of names that a layout stands for: looking up paths, and what the steps do to every path. */
module FsTree {
  import opened Common
  import opened FsLayout
  import opened FsTreeSteps

  /** The first entry with a name, from the i-th on. */
  ghost function FindEntry(l: Layout, es: seq<nat>, name: string, i: nat): (r: Option<nat>)
    requires i <= |es|
    decreases |es| - i
  {
    if i == |es| then None
    else if es[i] in l.nodes && l.nodes[es[i]].name == name then Some(es[i])
    else FindEntry(l, es, name, i + 1)
  }

  /** The entry of a name in a directory. */
  ghost function ChildOf(l: Layout, h: nat, name: string): Option<nat> {
    if h in l.nodes && l.nodes[h].dir && |l.nodes[h].parts| >= 1
    then FindEntry(l, Entries(l.nodes[h]), name, 0) else None
  }

  /** The node at a path below h. */
  ghost function Lookup(l: Layout, h: nat, path: seq<string>): Option<nat>
    decreases |path|
  {
    if path == [] then Some(h)
    else match ChildOf(l, h, path[0])
         case None => None
         case Some(e) => Lookup(l, e, path[1..])
  }

  /** The deepest existing node along a path, and the names that are missing below it. */
  ghost function Walk(l: Layout, h: nat, path: seq<string>): (nat, seq<string>)
    decreases |path|
  {
    if path == [] then (h, [])
    else match ChildOf(l, h, path[0])
         case None => (h, path)
         case Some(e) => Walk(l, e, path[1..])
  }

  /** Every component but the last that exists is a directory. */
  ghost predicate Walkable(l: Layout, h: nat, path: seq<string>)
    decreases |path|
  {
    path != [] ==>
      && h in l.nodes && l.nodes[h].dir
      && (ChildOf(l, h, path[0]).Some? ==> Walkable(l, ChildOf(l, h, path[0]).value, path[1..]))
  }

  /** Walk finds the longest existing prefix and the first missing name. */
  lemma {:induction false} WalkIsLongestPrefix(l: Layout, h: nat, path: seq<string>)
    ensures var (b, rest) := Walk(l, h, path);
            && |rest| <= |path| && rest == path[|path| - |rest|..]
            && Lookup(l, h, path[..|path| - |rest|]) == Some(b)
            && (rest != [] ==> ChildOf(l, b, rest[0]) == None)
            && (rest == [] <==> Lookup(l, h, path).Some?)
    decreases |path|
  {
    if path != [] && ChildOf(l, h, path[0]).Some? {
      var e := ChildOf(l, h, path[0]).value;
      WalkIsLongestPrefix(l, e, path[1..]);
      var (b, rest) := Walk(l, e, path[1..]);
      var n := |path| - |rest|;
      assert path[..n][1..] == path[1..][..n - 1];
      assert path[1..][n - 1..] == path[n..];
    } else {
      assert path[..0] == [];
    }
  }

  /** The search finds an entry of that name, if there is one. */
  lemma {:induction false} FoundIsNamed(l: Layout, es: seq<nat>, name: string, i: nat)
    requires i <= |es|
    ensures FindEntry(l, es, name, i) == None <==>
              forall k :: i <= k < |es| && es[k] in l.nodes ==> l.nodes[es[k]].name != name
    ensures FindEntry(l, es, name, i).Some? ==>
              exists k :: i <= k < |es| && es[k] == FindEntry(l, es, name, i).value
                          && es[k] in l.nodes && l.nodes[es[k]].name == name
    decreases |es| - i
  {
    if i < |es| {
      FoundIsNamed(l, es, name, i + 1);
    }
  }

  lemma ChildIsEntry(l: Layout, h: nat, name: string)
    requires TreeOK(l) && ChildOf(l, h, name).Some?
    ensures var e := ChildOf(l, h, name).value;
            && h in l.nodes && l.nodes[h].dir && e in l.nodes && e != ROOT
            && l.nodes[e].parent == h && l.nodes[e].name == name
            && l.nodes[e].depth == l.nodes[h].depth + 1
  {
    assert EntriesOK(l, h);
    FoundIsNamed(l, Entries(l.nodes[h]), name, 0);
    var e := ChildOf(l, h, name).value;
    assert PlaceOK(l, e);
  }

  lemma EntryIsChild(l: Layout, h: nat, i: nat)
    requires TreeOK(l) && h in l.nodes && l.nodes[h].dir && i < |Entries(l.nodes[h])|
    ensures Entries(l.nodes[h])[i] in l.nodes
    ensures ChildOf(l, h, l.nodes[Entries(l.nodes[h])[i]].name) == Some(Entries(l.nodes[h])[i])
  {
    assert EntriesOK(l, h);
    var es := Entries(l.nodes[h]);
    var r := ChildOf(l, h, l.nodes[es[i]].name);
    FoundIsNamed(l, es, l.nodes[es[i]].name, 0);
    var k :| 0 <= k < |es| && es[k] == r.value && l.nodes[es[k]].name == l.nodes[es[i]].name;
  }

  lemma {:induction false} LookupSnoc(l: Layout, h: nat, path: seq<string>, name: string)
    ensures Lookup(l, h, path + [name]) ==
            match Lookup(l, h, path) case None => None case Some(e) => ChildOf(l, e, name)
    decreases |path|
  {
    if path == [] {
      assert path + [name] == [name];
      var r := ChildOf(l, h, name);
      assert r.Some? ==> Lookup(l, r.value, [name][1..]) == Some(r.value);
    } else {
      assert (path + [name])[1..] == path[1..] + [name] && (path + [name])[0] == path[0];
      if ChildOf(l, h, path[0]).Some? {
        LookupSnoc(l, ChildOf(l, h, path[0]).value, path[1..], name);
      }
    }
  }

  lemma {:induction false} LookupIsNode(l: Layout, h: nat, path: seq<string>)
    requires TreeOK(l) && h in l.nodes && Lookup(l, h, path).Some?
    ensures Lookup(l, h, path).value in l.nodes
    ensures Lookup(l, h, path).value != ROOT || (path == [] && h == ROOT)
    decreases |path|
  {
    if path != [] {
      ChildIsEntry(l, h, path[0]);
      LookupIsNode(l, ChildOf(l, h, path[0]).value, path[1..]);
    }
  }

  lemma RootIsNode(l: Layout)
    requires TreeOK(l)
    ensures ROOT in l.nodes && l.nodes[ROOT].dir
  {
  }

  /** It is a tree: no node has two paths. */
  lemma {:induction false} PathUnique(l: Layout, a: seq<string>, b: seq<string>)
    requires TreeOK(l) && Lookup(l, ROOT, a).Some? && Lookup(l, ROOT, a) == Lookup(l, ROOT, b)
    ensures a == b
    decreases |a|
  {
    hide TreeOK, ChildOf;
    RootIsNode(l);
    LookupIsNode(l, ROOT, a);
    LookupIsNode(l, ROOT, b);
    if a != [] && b != [] {
      var a', b' := a[..|a| - 1], b[..|b| - 1];
      var x, y := a[|a| - 1], b[|b| - 1];
      assert a == a' + [x] && b == b' + [y];
      LookupSnoc(l, ROOT, a', x);
      LookupSnoc(l, ROOT, b', y);
      ChildIsEntry(l, Lookup(l, ROOT, a').value, x);
      ChildIsEntry(l, Lookup(l, ROOT, b').value, y);
      PathUnique(l, a', b');
    }
  }

  /** No node is out of reach: every one has a path. */
  lemma {:induction false} EveryNodeHasAPath(l: Layout, h: nat) returns (path: seq<string>)
    requires TreeOK(l) && h in l.nodes
    ensures Lookup(l, ROOT, path) == Some(h)
    decreases l.nodes[h].depth
  {
    if h == ROOT {
      path := [];
    } else {
      assert PlaceOK(l, h);
      var p := l.nodes[h].parent;
      var prefix := EveryNodeHasAPath(l, p);
      var i :| 0 <= i < |Entries(l.nodes[p])| && Entries(l.nodes[p])[i] == h;
      EntryIsChild(l, p, i);
      LookupSnoc(l, ROOT, prefix, l.nodes[h].name);
      path := prefix + [l.nodes[h].name];
    }
  }

  // ---------------------------------------------------------------------------------------------
  // Paths after a step
  // ---------------------------------------------------------------------------------------------

  lemma ChildAfterAttach(d: Disk, l: Layout, p: nat, e: nat, m: nat, dir: bool, name: string, h: nat, x: string)
    requires |d.img| == |l.role| && TreeOK(l) && CanAttach(d, l, p, e, m, dir, name) && e !in l.nodes && h in l.nodes
    ensures ChildOf(AttachLayout(l, p, e, m, dir, name), h, x) ==
            if h == p && x == name then Some(e) else ChildOf(l, h, x)
    ensures ChildOf(AttachLayout(l, p, e, m, dir, name), e, x) == None
    ensures ChildOf(l, p, name) == None
  {
    var l' := AttachLayout(l, p, e, m, dir, name);
    FoundIsNamed(l, Entries(l.nodes[p]), name, 0);
    if l.nodes[h].dir {
      assert EntriesOK(l, h);
      var es := Entries(l.nodes[h]);
      assert forall k :: 0 <= k < |es| ==> es[k] in l'.nodes && l'.nodes[es[k]].name == l.nodes[es[k]].name;
      FindSame(l, l', es, x, 0);
      if h == p {
        FindInLonger(l', es, e, x, 0);
        assert x == name ==> ChildOf(l, p, x) == None;
      }
    }
  }

  lemma {:induction false} FindInLonger(l: Layout, es: seq<nat>, e: nat, name: string, i: nat)
    requires i <= |es| && e in l.nodes
    ensures FindEntry(l, es + [e], name, i) ==
            if FindEntry(l, es, name, i).Some? then FindEntry(l, es, name, i)
            else if l.nodes[e].name == name then Some(e) else None
    decreases |es| - i
  {
    if i < |es| {
      FindInLonger(l, es, e, name, i + 1);
    } else {
      assert FindEntry(l, es + [e], name, i + 1) == None;
    }
  }

  lemma {:induction false} FindSame(l: Layout, l': Layout, es: seq<nat>, name: string, i: nat)
    requires i <= |es|
    requires forall k :: 0 <= k < |es| ==>
               && (es[k] in l.nodes <==> es[k] in l'.nodes)
               && (es[k] in l.nodes ==> l'.nodes[es[k]].name == l.nodes[es[k]].name)
    ensures FindEntry(l', es, name, i) == FindEntry(l, es, name, i)
    decreases |es| - i
  {
    if i < |es| {
      FindSame(l, l', es, name, i + 1);
    }
  }

  /** After a new entry, paths lead where they led before, except that the new name now leads somewhere. */
  lemma {:induction false} LookupAfterAttach(d: Disk, l: Layout, p: nat, e: nat, m: nat, dir: bool, name: string,
                                             h: nat, path: seq<string>)
    requires |d.img| == |l.role| && TreeOK(l) && CanAttach(d, l, p, e, m, dir, name) && e !in l.nodes && h in l.nodes
    ensures Lookup(AttachLayout(l, p, e, m, dir, name), h, path) ==
            if Lookup(l, h, path).Some? then Lookup(l, h, path)
            else if path != [] && path[|path| - 1] == name && Lookup(l, h, path[..|path| - 1]) == Some(p) then Some(e)
            else None
    decreases |path|
  {
    hide TreeOK, ChildOf;
    var l' := AttachLayout(l, p, e, m, dir, name);
    if path != [] {
      ChildAfterAttach(d, l, p, e, m, dir, name, h, path[0]);
      if ChildOf(l, h, path[0]).Some? {
        ChildIsEntry(l, h, path[0]);
        LookupAfterAttach(d, l, p, e, m, dir, name, ChildOf(l, h, path[0]).value, path[1..]);
        if |path| > 1 {
          var init := path[..|path| - 1];
          assert init[0] == path[0] && init[1..] == path[1..][..|path| - 2];
          assert path[1..][|path| - 2] == path[|path| - 1];
          assert Lookup(l, h, init) == Lookup(l, ChildOf(l, h, path[0]).value, init[1..]);
        }
      } else if |path| > 1 {
        ChildAfterAttach(d, l, p, e, m, dir, name, h, path[1]);
        assert path[1..][0] == path[1] && path[..|path| - 1][0] == path[0];
        assert Lookup(l, h, path[..|path| - 1]) == None;
      } else {
        assert path[..0] == [];
      }
    }
  }

  lemma ChildAfterDetach(d: Disk, l: Layout, d': Disk, e: nat, i: nat, h: nat, x: string)
    requires |d.img| == |l.role| && TreeOK(l) && Detached(d, l, d', e, i) && In(l, e) && In(l, l.nodes[e].meta)
    requires h in l.nodes && h != e
    ensures ChildOf(DetachLayout(l, e, i), h, x) == if ChildOf(l, h, x) == Some(e) then None else ChildOf(l, h, x)
  {
    var l' := DetachLayout(l, e, i);
    var p := l.nodes[e].parent;
    assert PlaceOK(l, e);
    if l.nodes[h].dir {
      assert EntriesOK(l, h) && EntriesOK(l, p);
      var es := Entries(l.nodes[h]);
      hide TreeOK;
      if h == p {
        OthersAfterDetach(d, l, d', e, i);
        hide AllButOne, EntriesOK, FindEntry;
        FindWithout(l, l', es, e, i, x, 0);
      } else {
        assert forall k :: 0 <= k < |es| ==> es[k] in l'.nodes && l'.nodes[es[k]].name == l.nodes[es[k]].name;
        FindSame(l, l', es, x, 0);
        FoundIsNamed(l, es, x, 0);
      }
    }
  }

  /** The entries have different names, and all but the i-th keep theirs. */
  ghost predicate AllButOne(l: Layout, l': Layout, es: seq<nat>, i: nat) {
    && (forall k :: 0 <= k < |es| ==> es[k] in l.nodes)
    && (forall k, k' :: 0 <= k < k' < |es| ==> l.nodes[es[k]].name != l.nodes[es[k']].name)
    && (forall k :: 0 <= k < |es| && k != i ==> es[k] in l'.nodes && l'.nodes[es[k]].name == l.nodes[es[k]].name)
  }

  lemma {:induction false} OthersAfterDetach(d: Disk, l: Layout, d': Disk, e: nat, i: nat)
    requires |d.img| == |l.role| && Detached(d, l, d', e, i) && In(l, e) && In(l, l.nodes[e].meta)
    requires EntriesOK(l, l.nodes[e].parent)
    ensures AllButOne(l, DetachLayout(l, e, i), Entries(l.nodes[l.nodes[e].parent]), i)
    ensures e !in DetachLayout(l, e, i).nodes
  {
  }

  lemma {:induction false} NameIsGone(l: Layout, l': Layout, es: seq<nat>, e: nat, i: nat, name: string)
    requires i < |es| && es[i] == e && e in l.nodes && l.nodes[e].name == name
    requires AllButOne(l, l', es, i)
    ensures FindEntry(l', RemoveAt(es, i), name, i) == None
  {
    var es' := RemoveAt(es, i);
    assert forall k :: i <= k < |es'| ==> es'[k] == es[k + 1];
    FoundIsNamed(l', es', name, i);
  }

  lemma {:induction false} FindStep(l: Layout, es: seq<nat>, name: string, i: nat)
    requires i <= |es|
    ensures FindEntry(l, es, name, i) ==
            if i == |es| then None
            else if es[i] in l.nodes && l.nodes[es[i]].name == name then Some(es[i])
            else FindEntry(l, es, name, i + 1)
  {
  }

  lemma {:induction false} FindWithout(l: Layout, l': Layout, es: seq<nat>, e: nat, i: nat, name: string, j: nat)
    requires j <= |es| && i < |es| && es[i] == e && e !in l'.nodes && AllButOne(l, l', es, i)
    ensures FindEntry(l', RemoveAt(es, i), name, if j <= i then j else j - 1) ==
            if FindEntry(l, es, name, j) == Some(e) then None else FindEntry(l, es, name, j)
    decreases |es| - j
  {
    var es' := RemoveAt(es, i);
    if j < |es| {
      assert es[j] in l.nodes && (j != i ==> es[j] in l'.nodes && l'.nodes[es[j]].name == l.nodes[es[j]].name);
      assert (j < i ==> es'[j] == es[j]) && (i < j ==> es'[j - 1] == es[j]);
      assert j != i ==> es[j] != e;
      if j == i && l.nodes[e].name == name {
        NameIsGone(l, l', es, e, i, name);
      }
    }
    hide AllButOne, FindEntry, RemoveAt;
    FindStep(l, es, name, j);
    if j < |es| {
      FindWithout(l, l', es, e, i, name, j + 1);
      if j != i {
        FindStep(l', es', name, if j < i then j else j - 1);
      }
    } else {
      FindStep(l', es', name, j - 1);
    }
  }

  /** After an entry with nothing below it is removed, its own path leads nowhere and all others lead where
      they led before. */
  lemma {:induction false} LookupAfterDetach(d: Disk, l: Layout, d': Disk, e: nat, i: nat, h: nat, path: seq<string>)
    requires |d.img| == |l.role| && TreeOK(l) && Detached(d, l, d', e, i) && In(l, e) && In(l, l.nodes[e].meta)
    requires Bare(l, e) && h in l.nodes && h != e
    ensures Lookup(DetachLayout(l, e, i), h, path) ==
            if Lookup(l, h, path) == Some(e) then None else Lookup(l, h, path)
    decreases |path|
  {
    hide TreeOK, Detached;
    if path != [] {
      ChildAfterDetach(d, l, d', e, i, h, path[0]);
      if ChildOf(l, h, path[0]).Some? {
        ChildIsEntry(l, h, path[0]);
        var c := ChildOf(l, h, path[0]).value;
        if c == e {
          BareIsLeaf(l, e, path[1..]);
        } else {
          LookupAfterDetach(d, l, d', e, i, c, path[1..]);
        }
      }
    }
  }

  lemma BareIsLeaf(l: Layout, e: nat, path: seq<string>)
    requires e in l.nodes && Bare(l, e)
    ensures Lookup(l, e, path) == if path == [] then Some(e) else None
  {
    assert path != [] ==> ChildOf(l, e, path[0]) == None;
  }

  /** The same names in the same directories. */
  ghost predicate SameTree(l: Layout, l': Layout) {
    && l.nodes.Keys == l'.nodes.Keys
    && forall g :: g in l.nodes ==>
         && l'.nodes[g].dir == l.nodes[g].dir && l'.nodes[g].name == l.nodes[g].name
         && (l.nodes[g].dir ==> l'.nodes[g].parts == l.nodes[g].parts)
  }

  lemma {:induction false} LookupSame(l: Layout, l': Layout, h: nat, path: seq<string>)
    requires SameTree(l, l')
    ensures Lookup(l', h, path) == Lookup(l, h, path)
    decreases |path|
  {
    if path != [] {
      if h in l.nodes && l.nodes[h].dir && |l.nodes[h].parts| >= 1 {
        FindSame(l, l', Entries(l.nodes[h]), path[0], 0);
      }
      if ChildOf(l, h, path[0]).Some? {
        LookupSame(l, l', ChildOf(l, h, path[0]).value, path[1..]);
      }
    }
  }

  /** The entry name of directory p is new and leads to e; all other paths are as before. */
  ghost predicate EntryAdded(l: Layout, l': Layout, p: nat, e: nat, name: string) {
    forall path :: Lookup(l', ROOT, path) ==
      if Lookup(l, ROOT, path).Some? then Lookup(l, ROOT, path)
      else if path != [] && path[|path| - 1] == name && Lookup(l, ROOT, path[..|path| - 1]) == Some(p) then Some(e)
      else None
  }

  lemma AttachAddsEntry(d: Disk, l: Layout, l0: Layout, p: nat, e: nat, m: nat, dir: bool, name: string)
    requires |d.img| == |l.role| && TreeOK(l) && CanAttach(d, l, p, e, m, dir, name) && e !in l.nodes
    requires l0.nodes == l.nodes
    ensures EntryAdded(l0, AttachLayout(l, p, e, m, dir, name), p, e, name)
  {
    hide CanAttach, TreeOK;
    RootIsNode(l);
    forall path ensures Lookup(l0, ROOT, path) == Lookup(l, ROOT, path) {
      LookupSame(l, l0, ROOT, path);
    }
    CanAttachBounds(d, l, p, e, m, dir, name);
    forall path
      ensures Lookup(AttachLayout(l, p, e, m, dir, name), ROOT, path) ==
              if Lookup(l, ROOT, path).Some? then Lookup(l, ROOT, path)
              else if path != [] && path[|path| - 1] == name && Lookup(l, ROOT, path[..|path| - 1]) == Some(p)
              then Some(e) else None
    {
      LookupAfterAttach(d, l, p, e, m, dir, name, ROOT, path);
    }
  }

  lemma CanAttachBounds(d: Disk, l: Layout, p: nat, e: nat, m: nat, dir: bool, name: string)
    requires |d.img| == |l.role| && CanAttach(d, l, p, e, m, dir, name)
    ensures p in l.nodes && |l.nodes[p].parts| >= 1 && e < |l.role| && m < |l.role|
  {
  }

  // ---------------------------------------------------------------------------------------------
  // The tree as its users see it
  // ---------------------------------------------------------------------------------------------

  datatype Entry = Dir | File(bytes: seq<byte>)

  /** What is at a path. */
  ghost function At(l: Layout, path: seq<string>): Option<Entry> {
    match Lookup(l, ROOT, path)
    case None => None
    case Some(h) =>
      if h !in l.nodes then None
      else if l.nodes[h].dir then Some(Dir) else Some(File(Contents(l.nodes[h])))
  }

  /** Only what is at one path changed. */
  ghost predicate OnlyAt(l: Layout, l': Layout, path: seq<string>, entry: Option<Entry>) {
    At(l', path) == entry && forall q :: q != path ==> At(l', q) == At(l, q)
  }

  // ---------------------------------------------------------------------------------------------
  // Every block has one use, and the tree decides which blocks are free
  // ---------------------------------------------------------------------------------------------

  /** The blocks of a node. */
  ghost predicate Uses(n: Node, h: nat, b: nat) {
    || b == h || b == n.meta
    || (exists j :: 1 <= j < |n.chain| && n.chain[j] == b)
    || (!n.dir && exists j, i :: 0 <= j < |n.parts| && 0 <= i < |n.parts[j]| && n.parts[j][i] == b)
  }

  ghost predicate UsedIn(l: Layout, h: nat, b: nat) {
    h in l.nodes && Uses(l.nodes[h], h, b)
  }

  lemma UsedHasRole(d: Disk, l: Layout, z: nat, h: nat, b: nat)
    requires Inv(d, l, z) && UsedIn(l, h, b)
    ensures In(l, b) && h > 0 && Owner(l.role[b]) == h
  {
    hide TreeOK, FreeOK, ShapeOK, NodeImage, RoleOK;
    assert NodeOK(d.img, l, h, z);
    NodeOwns(l, h, b);
  }

  lemma NodeOwns(l: Layout, h: nat, b: nat)
    requires UsedIn(l, h, b) && NodeRoles(l, h)
    ensures In(l, b) && h > 0 && Owner(l.role[b]) == h
  {
    var n := l.nodes[h];
    if exists j :: 1 <= j < |n.chain| && n.chain[j] == b {
      var j :| 1 <= j < |n.chain| && n.chain[j] == b;
      assert Has(l, n.chain[j], ForChild(h, j));
    } else if !n.dir && exists j, i :: 0 <= j < |n.parts| && 0 <= i < |n.parts[j]| && n.parts[j][i] == b {
      var j, i :| 0 <= j < |n.parts| && 0 <= i < |n.parts[j]| && n.parts[j][i] == b;
      assert Has(l, n.parts[j][i], ForData(h, j, i));
    }
  }

  lemma RoleIsUse(l: Layout, h: nat, b: nat)
    requires b < |l.role| && h > 0 && Owner(l.role[b]) == h && RoleOK(l, b)
    ensures UsedIn(l, h, b)
  {
  }

  /** Every block but the superblock is on the free list or used by a node, never both and never by two
      nodes, and the free list has no duplicates. */
  ghost predicate Partitioned(d: Disk, l: Layout) {
    && (forall b: nat :: 0 < b < |d.img| ==> (b in l.free <==> !exists h :: UsedIn(l, h, b)))
    && (forall b: nat, h: nat, g: nat :: UsedIn(l, h, b) && UsedIn(l, g, b) ==> h == g)
    && (forall h: nat, b: nat :: UsedIn(l, h, b) ==> 0 < b < |d.img|)
    && (forall i, j :: 0 <= i < j < |l.free| ==> l.free[i] != l.free[j])
    && (forall i :: 0 <= i < |l.free| ==> 0 < l.free[i] < |d.img|)
  }

  lemma {:induction false} BlocksArePartitioned(d: Disk, l: Layout)
    requires AtRest(d, l)
    ensures Partitioned(d, l)
  {
    hide TreeOK, NodeOK, RoleOK, UsedIn;
    ListedIsFree(d, l);
    forall h: nat, b: nat | UsedIn(l, h, b) ensures In(l, b) && h > 0 && Owner(l.role[b]) == h {
      UsedHasRole(d, l, 0, h, b);
    }
    forall b: nat | 0 < b < |d.img| ensures b in l.free <==> !exists h :: UsedIn(l, h, b) {
      if l.role[b].ForFree? {
        FreeIsListed(d, l, b);
      } else {
        UserOf(d, l, b);
      }
    }
  }

  lemma ListedIsFree(d: Disk, l: Layout)
    requires |d.img| == |l.role| && FreeOK(d, l)
    ensures forall k :: 0 <= k < |l.free| ==> Has(l, l.free[k], ForFree(k))
    ensures forall b :: b in l.free ==> In(l, b) && l.role[b].ForFree?
  {
    forall k | 0 <= k < |l.free| ensures Has(l, l.free[k], ForFree(k)) {
      assert FreeBlockOK(d.img, l, k);
    }
  }

  lemma FreeIsListed(d: Disk, l: Layout, b: nat)
    requires AtRest(d, l) && 0 < b < |l.role| && l.role[b].ForFree?
    ensures b in l.free
  {
    hide SuperOK, FreeOK, NodeOK, TreeOK;
    assert RoleOK(l, b);
  }

  /** A block that is not free belongs to a node. */
  lemma UserOf(d: Disk, l: Layout, b: nat)
    requires AtRest(d, l) && 0 < b < |l.role| && !l.role[b].ForFree?
    ensures UsedIn(l, Owner(l.role[b]), b)
  {
    assert RoleOK(l, b);
    var h := Owner(l.role[b]);
    assert NodeOK(d.img, l, h, 0);
    RoleIsUse(l, h, b);
  }

  /** Two images of the same size with the same tree have the same free blocks, and so the same count. */
  lemma FreeIsDeterminedByTree(d: Disk, l: Layout, d': Disk, l': Layout)
    requires AtRest(d, l) && AtRest(d', l') && |d.img| == |d'.img| && l.nodes == l'.nodes
    ensures forall b :: b in l.free <==> b in l'.free
    ensures d.freeblks == d'.freeblks
  {
    hide TreeOK, NodeOK, RoleOK, FreeBlockOK;
    BlocksArePartitioned(d, l);
    BlocksArePartitioned(d', l');
    assert forall h: nat, b: nat :: UsedIn(l, h, b) <==> UsedIn(l', h, b);
    SameElements(l.free, l'.free);
  }

  lemma SameElements(a: seq<nat>, b: seq<nat>)
    requires forall i, j :: 0 <= i < j < |a| ==> a[i] != a[j]
    requires forall i, j :: 0 <= i < j < |b| ==> b[i] != b[j]
    requires forall x :: x in a <==> x in b
    ensures |a| == |b|
  {
    DistinctCount(a);
    DistinctCount(b);
    assert Elements(a) == Elements(b);
  }

  ghost function Elements(a: seq<nat>): set<nat> {
    set x | x in a
  }

  lemma {:induction false} DistinctCount(a: seq<nat>)
    requires forall i, j :: 0 <= i < j < |a| ==> a[i] != a[j]
    ensures |Elements(a)| == |a|
  {
    if a != [] {
      assert forall i :: 0 <= i < |a| - 1 ==> a[1..][i] == a[i + 1];
      DistinctCount(a[1..]);
      assert Elements(a) == Elements(a[1..]) + {a[0]};
      assert a[0] !in Elements(a[1..]);
    }
  }
}
