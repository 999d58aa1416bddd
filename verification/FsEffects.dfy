/** What whole operations do to the tree as its users see it. */
module FsEffects {
  import opened Common
  import opened FsLayout
  import opened FsPaths
  import opened FsTreeSteps
  import opened FsTree
  import opened FsReading
  import opened FsRemoval
  import opened FsChains
  import opened FsSpace

  function Front(path: seq<string>): seq<string>
    requires path != []
  {
    path[..|path| - 1]
  }

  /** All components of the path but the last exist, and are directories. */
  ghost predicate HasParent(l: Layout, path: seq<string>) {
    && path != [] && Lookup(l, ROOT, Front(path)).Some?
    && Lookup(l, ROOT, Front(path)).value in l.nodes && l.nodes[Lookup(l, ROOT, Front(path)).value].dir
  }

  ghost function Parent(l: Layout, path: seq<string>): nat
    requires HasParent(l, path)
  {
    Lookup(l, ROOT, Front(path)).value
  }

  /** If the parent exists, the code's assumption about the path holds, and the walk ends at the node or,
      with one name left, at the parent. */
  lemma {:induction false} ParentIsEnough(l: Layout, h: nat, path: seq<string>)
    requires path != [] && Lookup(l, h, Front(path)).Some?
    requires Lookup(l, h, Front(path)).value in l.nodes && l.nodes[Lookup(l, h, Front(path)).value].dir
    ensures Walkable(l, h, path)
    ensures Lookup(l, h, path) == ChildOf(l, Lookup(l, h, Front(path)).value, Last(path))
    ensures Lookup(l, h, path) == None ==> Walk(l, h, path) == (Lookup(l, h, Front(path)).value, [Last(path)])
    decreases |path|
  {
    if |path| == 1 {
      assert Front(path) == [];
      assert path == [Last(path)];
      assert ChildOf(l, h, path[0]).Some? ==>
          Lookup(l, ChildOf(l, h, path[0]).value, path[1..]) == ChildOf(l, h, path[0]);
    } else {
      assert Front(path)[0] == path[0] && Front(path)[1..] == Front(path[1..]);
      ParentIsEnough(l, ChildOf(l, h, path[0]).value, path[1..]);
    }
  }

  lemma CreatedAt(l: Layout, l': Layout, path: seq<string>, e: nat, dir: bool)
    requires TreeOK(l) && HasParent(l, path) && Lookup(l, ROOT, path) == None
    requires Made(l, l', Parent(l, path), e, Last(path), dir) && EntryAdded(l, l', Parent(l, path), e, Last(path))
    ensures Lookup(l', ROOT, path) == Some(e)
    ensures OnlyAt(l, l', path, Some(if dir then Dir else File([])))
  {
    hide Made, EntryAdded, TreeOK;
    CreatedHere(l, l', path, e, dir);
    forall q | q != path ensures At(l', q) == At(l, q) {
      CreatedElsewhere(l, l', path, e, dir, q);
    }
  }

  lemma CreatedHere(l: Layout, l': Layout, path: seq<string>, e: nat, dir: bool)
    requires HasParent(l, path) && Lookup(l, ROOT, path) == None
    requires Made(l, l', Parent(l, path), e, Last(path), dir) && EntryAdded(l, l', Parent(l, path), e, Last(path))
    ensures Lookup(l', ROOT, path) == Some(e) && At(l', path) == Some(if dir then Dir else File([]))
  {
    if !dir {
      EmptyContents(l'.nodes[e]);
    }
  }

  lemma CreatedElsewhere(l: Layout, l': Layout, path: seq<string>, e: nat, dir: bool, q: seq<string>)
    requires TreeOK(l) && HasParent(l, path) && Lookup(l, ROOT, path) == None && q != path
    requires Made(l, l', Parent(l, path), e, Last(path), dir) && EntryAdded(l, l', Parent(l, path), e, Last(path))
    ensures At(l', q) == At(l, q)
  {
    hide TreeOK, Lookup, Made;
    RootIsNode(l);
    if Lookup(l, ROOT, q).Some? {
      LookupIsNode(l, ROOT, q);
      MadeElsewhere(l, l', Parent(l, path), e, Last(path), dir, Lookup(l, ROOT, q).value);
    } else if q != [] && Last(q) == Last(path) {
      OtherPath(l, path, q);
    }
  }

  lemma MadeElsewhere(l: Layout, l': Layout, p: nat, e: nat, name: string, dir: bool, g: nat)
    requires Made(l, l', p, e, name, dir) && g in l.nodes
    ensures g in l'.nodes && l'.nodes[g].dir == l.nodes[g].dir
    ensures !l.nodes[g].dir ==> l'.nodes[g] == l.nodes[g]
  {
  }

  /** Two paths with the same parent and the same last name are the same. */
  lemma OtherPath(l: Layout, path: seq<string>, q: seq<string>)
    requires TreeOK(l) && HasParent(l, path) && q != [] && q != path && Last(q) == Last(path)
    ensures Lookup(l, ROOT, Front(q)) != Some(Parent(l, path))
  {
    hide TreeOK, Lookup;
    assert q == Front(q) + [Last(q)] && path == Front(path) + [Last(path)];
    if Lookup(l, ROOT, Front(q)) == Some(Parent(l, path)) {
      PathUnique(l, Front(q), Front(path));
    }
  }

  lemma EmptyContents(n: Node)
    requires n.data == [[]] || n.data == []
    ensures Contents(n) == []
  {
    assert n.data == [[]] ==> Concat(n.data) == [] + Concat(n.data[1..]) == [];
  }

  lemma WrittenAt(l: Layout, l': Layout, path: seq<string>, h: nat, bytes: seq<byte>)
    requires TreeOK(l) && Wrote(l, l', h, bytes) && !l.nodes[h].dir && Lookup(l, ROOT, path) == Some(h)
    ensures Lookup(l', ROOT, path) == Some(h)
    ensures OnlyAt(l, l', path, Some(File(Contents(l.nodes[h]) + bytes)))
  {
    SameTreeAt(l, l', path, h);
  }

  /** If only file h differs, only the path of h shows it. */
  lemma SameTreeAt(l: Layout, l': Layout, path: seq<string>, h: nat)
    requires TreeOK(l) && Lookup(l, ROOT, path) == Some(h) && h in l.nodes && h in l'.nodes && !l.nodes[h].dir
    requires l'.nodes == l.nodes[h := l'.nodes[h]] && !l'.nodes[h].dir && l'.nodes[h].name == l.nodes[h].name
    ensures Lookup(l', ROOT, path) == Some(h)
    ensures forall q :: q != path ==> At(l', q) == At(l, q)
  {
    LookupSame(l, l', ROOT, path);
    forall q | q != path ensures At(l', q) == At(l, q) {
      LookupSame(l, l', ROOT, q);
      if Lookup(l, ROOT, q) == Some(h) {
        PathUnique(l, q, path);
      }
    }
  }

  lemma GoneAt(l: Layout, l': Layout, path: seq<string>, e: nat)
    requires TreeOK(l) && Gone(l, l', e) && Lookup(l, ROOT, path) == Some(e) && l.nodes[l.nodes[e].parent].dir
    ensures OnlyAt(l, l', path, None)
  {
    forall q | q != path ensures At(l', q) == At(l, q) {
      if Lookup(l, ROOT, q) == Some(e) {
        PathUnique(l, q, path);
      } else if Lookup(l, ROOT, q).Some? {
        LookupIsNode(l, ROOT, q);
      }
    }
  }

  lemma OnlyAtTwice(l: Layout, l1: Layout, l2: Layout, path: seq<string>, a: Option<Entry>, b: Option<Entry>)
    requires OnlyAt(l, l1, path, a) && OnlyAt(l1, l2, path, b)
    ensures OnlyAt(l, l2, path, b)
  {
  }

  /** Node e, the last entry of p, is all that was added to the tree. */
  ghost predicate Added(l: Layout, l': Layout, p: nat, e: nat) {
    && p in l.nodes && l.nodes[p].dir && |l.nodes[p].parts| == 1 && e !in l.nodes && e in l'.nodes
    && l'.nodes[e].parent == p && e != ROOT
    && l'.nodes == l.nodes[p := WithEntries(l.nodes[p], Entries(l.nodes[p]) + [e])][e := l'.nodes[e]]
  }

  /** Removing what was added gives back the same tree. */
  lemma {:induction false} RemovalUndoesCreation(l: Layout, l1: Layout, l2: Layout, p: nat, e: nat)
    requires TreeOK(l) && Added(l, l1, p, e) && Dropped(l1, l2, e)
    ensures l2.nodes == l.nodes
  {
    hide TreeOK;
    var es := Entries(l.nodes[p]);
    NotAnEntry(l, p, e);
    assert Entries(l1.nodes[p]) == es + [e];
    var i :| 0 <= i < |es + [e]| && (es + [e])[i] == e
             && l2.nodes[p] == WithEntries(l1.nodes[p], RemoveAt(es + [e], i));
    LastRemoved(es, e, i);
    assert WithEntries(l1.nodes[p], es) == l.nodes[p];
    hide WithEntries, RemoveAt, Entries;
    forall g | g in l.nodes ensures g in l2.nodes && l2.nodes[g] == l.nodes[g] {
    }
  }

  lemma {:induction false} NotAnEntry(l: Layout, p: nat, e: nat)
    requires TreeOK(l) && p in l.nodes && l.nodes[p].dir && e !in l.nodes
    ensures |l.nodes[p].parts| >= 1 && e !in Entries(l.nodes[p])
  {
    assert EntriesOK(l, p);
  }

  lemma {:induction false} LastRemoved(es: seq<nat>, e: nat, i: nat)
    requires e !in es && i <= |es| && (es + [e])[i] == e
    ensures RemoveAt(es + [e], i) == es
  {
  }

  /** An empty file whose (no) blocks were freed is an ordinary file again. */
  lemma Unbury(d: Disk, l: Layout, h: nat)
    requires Inv(d, l, h) && h in l.nodes && !l.nodes[h].dir && h < |d.img| && l.nodes[h].meta < |d.img|
    requires l.nodes[h].parts == [[]] && l.nodes[h].chain == [h] && l.nodes[h].data == [[]]
    requires d.img[h].Inode? && d.img[h].next == 0 && Linked(d.img[h].links, [], l.max)
    requires d.img[l.nodes[h].meta].Info? && d.img[l.nodes[h].meta].size == 0
    ensures Inv(d, l, 0)
  {
    hide TreeOK, FreeOK, RoleOK, NodeOK;
    forall g | g in l.nodes ensures NodeOK(d.img, l, g, 0) {
      assert NodeOK(d.img, l, g, h);
      UnburyNode(d.img, l, h, g);
    }
  }

  lemma UnburyNode(img: seq<Block>, l: Layout, h: nat, g: nat)
    requires |img| == |l.role| && h in l.nodes && g in l.nodes && NodeOK(img, l, g, h)
    requires !l.nodes[h].dir && h < |img| && l.nodes[h].meta < |img|
    requires l.nodes[h].parts == [[]] && l.nodes[h].chain == [h] && l.nodes[h].data == [[]]
    requires img[h].Inode? && img[h].next == 0 && Linked(img[h].links, [], l.max)
    requires img[l.nodes[h].meta].Info? && img[l.nodes[h].meta].size == 0
    ensures NodeOK(img, l, g, 0)
  {
    hide Linked;
    if g == h {
      EmptyContents(l.nodes[h]);
    } else {
      hide ShapeOK, HeadOK, ChildOK;
    }
  }

  lemma MadeIsAdded(d: Disk, l: Layout, l': Layout, p: nat, e: nat, name: string, dir: bool)
    requires Inv(d, l, 0) && Made(l, l', p, e, name, dir)
    ensures Added(l, l', p, e)
  {
    hide TreeOK, FreeOK, RoleOK, NodeImage;
    assert NodeOK(d.img, l, p, 0);
    InvTree(d, l);
    RootIsNode(l);
  }

  lemma WroteIsAdded(l: Layout, l1: Layout, l2: Layout, p: nat, e: nat, bytes: seq<byte>)
    requires Added(l, l1, p, e) && Wrote(l1, l2, e, bytes)
    ensures Added(l, l2, p, e)
  {
  }

  /** The directory that an operation adds to has a free slot. */
  ghost predicate HasRoom(l: Layout, p: nat) {
    p in l.nodes && |l.nodes[p].parts| >= 1 && |Entries(l.nodes[p])| < l.max
  }

  /** Something is at a path exactly if the path leads to a node. */
  lemma AtNode(l: Layout, path: seq<string>)
    requires TreeOK(l)
    ensures At(l, path).Some? <==> Lookup(l, ROOT, path).Some?
    ensures Lookup(l, ROOT, path).Some? ==>
              && Lookup(l, ROOT, path).value in l.nodes
              && At(l, path) == Some(if l.nodes[Lookup(l, ROOT, path).value].dir then Dir
                                     else File(Contents(l.nodes[Lookup(l, ROOT, path).value])))
  {
    RootIsNode(l);
    if Lookup(l, ROOT, path).Some? {
      LookupIsNode(l, ROOT, path);
    }
  }

  /** A path the operations are specified for: it has a component, and does not go on below a file. */
  ghost predicate GoodPath(l: Layout, path: string) {
    path == "/" || (Tokens(path) != [] && Walkable(l, ROOT, Tokens(path)))
  }

  /** The size of the buffers that names are copied to. */
  const NAME_BUFFER := 50

  /** If the path does not exist, its deepest existing directory has a free link slot, and the name that is
      missing there fits. */
  ghost predicate PlaceFor(l: Layout, path: seq<string>) {
    var (b, rest) := Walk(l, ROOT, path);
    At(l, path) == None ==> rest != [] && |rest[0]| < NAME_BUFFER && HasRoom(l, b)
  }

  /** The path has a parent with room for it, and cost blocks are free. */
  ghost predicate CanMake(l: Layout, path: seq<string>, cost: nat, freeblks: nat) {
    HasParent(l, path) && PlaceFor(l, path) && (At(l, path) == None ==> cost <= freeblks)
  }

  /** The shortest prefix of a path that does not exist. */
  ghost function FirstMissing(l: Layout, path: seq<string>): seq<string> {
    var rest := Walk(l, ROOT, path).1;
    if 0 < |rest| <= |path| then path[..|path| - |rest| + 1] else path
  }

  lemma {:induction false} WalkIsDir(l: Layout, h: nat, path: seq<string>)
    requires Walkable(l, h, path) && Lookup(l, h, path) == None
    ensures Walk(l, h, path).0 in l.nodes && l.nodes[Walk(l, h, path).0].dir
    decreases |path|
  {
    if ChildOf(l, h, path[0]).Some? {
      WalkIsDir(l, ChildOf(l, h, path[0]).value, path[1..]);
    }
  }

  /** What an operation that makes an entry makes is the whole path exactly if the path's parent exists. */
  lemma {:induction false} FirstMissingIs(l: Layout, path: seq<string>)
    requires path != [] && Walkable(l, ROOT, path) && Lookup(l, ROOT, path) == None
    ensures var (b, rest) := Walk(l, ROOT, path);
            var made := FirstMissing(l, path);
            && made != [] && made <= path && rest != [] && Last(made) == rest[0]
            && HasParent(l, made) && Parent(l, made) == b
            && Lookup(l, ROOT, made) == None && ChildOf(l, b, Last(made)) == None
            && (made == path <==> HasParent(l, path))
  {
    hide Lookup, Walkable, Walk;
    var (b, rest) := Walk(l, ROOT, path);
    var made := FirstMissing(l, path);
    WalkIsLongestPrefix(l, ROOT, path);
    WalkIsDir(l, ROOT, path);
    var n := |path| - |rest|;
    assert Front(made) == path[..n] && Last(made) == rest[0] && made == path[..n] + [rest[0]];
    LookupSnoc(l, ROOT, path[..n], rest[0]);
    if HasParent(l, path) {
      ParentIsEnough(l, ROOT, path);
    }
  }

  /** A path with a parent, as the operations see it. */
  lemma {:induction false} WithParent(l: Layout, path: seq<string>)
    requires TreeOK(l) && HasParent(l, path)
    ensures path != [] && Walkable(l, ROOT, path)
    ensures At(l, path) == None ==> FirstMissing(l, path) == path
    ensures (At(l, path) == None ==> |Last(path)| < NAME_BUFFER && HasRoom(l, Parent(l, path))) ==> PlaceFor(l, path)
  {
    hide TreeOK, Lookup, Walkable, HasRoom;
    AtNode(l, path);
    ParentIsEnough(l, ROOT, path);
    if At(l, path) == None {
      assert path[..|path|] == path;
    }
  }

  /** Data blocks and child inodes of the file at a path. */
  ghost function BlocksAt(l: Layout, path: seq<string>): nat {
    match Lookup(l, ROOT, path)
    case None => 0
    case Some(h) => if h in l.nodes then Occupied(l.nodes[h].parts, 0) else 0
  }

  /** Links in the first inode of the file at a path. */
  ghost function LinksAt(l: Layout, path: seq<string>): nat {
    match Lookup(l, ROOT, path)
    case None => 0
    case Some(h) => if h in l.nodes && l.nodes[h].parts != [] then |l.nodes[h].parts[0]| else 0
  }

  /** What writing at a path finds there. */
  lemma StartOfWrite(d: Disk, l: Layout, path: string, tokens: seq<string>)
    requires AtRest(d, l) && tokens == Tokens(path) && path != "/" && GoodPath(l, path) && PlaceFor(l, tokens)
    requires At(l, tokens) != Some(Dir)
    ensures At(l, tokens) == None <==> Lookup(l, ROOT, tokens) == None
    ensures Lookup(l, ROOT, tokens) == None ==>
              && var made := FirstMissing(l, tokens);
              && HasParent(l, made) && Lookup(l, ROOT, made) == None
              && Walk(l, ROOT, tokens).0 == Parent(l, made) && Walk(l, ROOT, tokens).1 != []
              && Walk(l, ROOT, tokens).1[0] == Last(made)
              && ChildOf(l, Parent(l, made), Last(made)) == None && HasRoom(l, Parent(l, made))
    ensures Lookup(l, ROOT, tokens).Some? ==>
              && var h := Lookup(l, ROOT, tokens).value;
              && h in l.nodes && !l.nodes[h].dir && |l.nodes[h].parts| >= 1
              && At(l, tokens) == Some(File(Contents(l.nodes[h])))
              && BlocksAt(l, tokens) == Occupied(l.nodes[h].parts, 0) && LinksAt(l, tokens) == |l.nodes[h].parts[0]|
  {
    hide Inv, HasRoom;
    InvTree(d, l);
    AtNode(l, tokens);
    if Lookup(l, ROOT, tokens).Some? {
      NodeShape(d, l, 0, Lookup(l, ROOT, tokens).value);
    } else {
      FirstMissingIs(l, tokens);
    }
  }

  ghost predicate NewAt(l: Layout, l': Layout, path: seq<string>, entry: Entry) {
    && OnlyAt(l, l', path, Some(entry))
    && HasParent(l, path) && Lookup(l', ROOT, path).Some?
    && Added(l, l', Parent(l, path), Lookup(l', ROOT, path).value)
  }

  /** The operation removed the node at this path. */
  ghost predicate RemovedAt(l: Layout, l': Layout, path: seq<string>) {
    && OnlyAt(l, l', path, None)
    && Lookup(l, ROOT, path).Some? && Dropped(l, l', Lookup(l, ROOT, path).value)
  }

  lemma CreatedIsNew(d: Disk, l: Layout, l': Layout, path: seq<string>, e: nat, dir: bool)
    requires Inv(d, l, 0) && HasParent(l, path) && Lookup(l, ROOT, path) == None
    requires Made(l, l', Parent(l, path), e, Last(path), dir) && EntryAdded(l, l', Parent(l, path), e, Last(path))
    ensures NewAt(l, l', path, if dir then Dir else File([])) && Lookup(l', ROOT, path) == Some(e)
  {
    hide Inv, Made, EntryAdded, OnlyAt;
    InvTree(d, l);
    CreatedAt(l, l', path, e, dir);
    MadeIsAdded(d, l, l', Parent(l, path), e, Last(path), dir);
  }

  lemma {:induction false} EmptyFileHasNoBlocks(d: Disk, l: Layout, h: nat)
    requires Inv(d, l, 0) && h in l.nodes && !l.nodes[h].dir && Contents(l.nodes[h]) == []
    ensures l.nodes[h].parts == [[]] && l.nodes[h].chain == [h] && l.nodes[h].data == [[]]
  {
    hide Inv;
    NodeShape(d, l, 0, h);
    var n := l.nodes[h];
    if |n.parts[0]| > 0 {
      RestIsContents(n);
      RestSize(l, n, 0, 0);
    }
    assert n.parts[0] == [] && |n.parts| == 1;
    assert n.data[0] == [];
  }

  /** The file at the path got its bytes, and nothing else changed. */
  lemma WroteNew(l: Layout, l1: Layout, l2: Layout, path: seq<string>, e: nat, bytes: seq<byte>)
    requires TreeOK(l1) && NewAt(l, l1, path, File([])) && Lookup(l1, ROOT, path) == Some(e)
    requires Wrote(l1, l2, e, bytes)
    ensures NewAt(l, l2, path, File(bytes))
  {
    hide TreeOK;
    AtNode(l1, path);
    WrittenAt(l1, l2, path, e, bytes);
    assert Contents(l1.nodes[e]) + bytes == bytes;
    OnlyAtTwice(l, l1, l2, path, Some(File([])), Some(File(bytes)));
    WroteIsAdded(l, l1, l2, Parent(l, path), e, bytes);
  }

  lemma BuriedAt(l: Layout, l1: Layout, path: seq<string>, h: nat)
    requires TreeOK(l) && h in l.nodes && !l.nodes[h].dir && Lookup(l, ROOT, path) == Some(h)
    requires l1.nodes == BuryLayout(l, h).nodes
    ensures OnlyAt(l, l1, path, Some(File([]))) && Lookup(l1, ROOT, path) == Some(h)
  {
    SameTreeAt(l, l1, path, h);
    EmptyContents(l1.nodes[h]);
  }

  /** Removing a file: first its blocks, then its node. */
  lemma UnlinkedAt(l: Layout, l1: Layout, l2: Layout, path: seq<string>, h: nat)
    requires TreeOK(l) && TreeOK(l1) && h in l.nodes && !l.nodes[h].dir && Lookup(l, ROOT, path) == Some(h)
    requires l1.nodes == BuryLayout(l, h).nodes && Gone(l1, l2, h)
    ensures RemovedAt(l, l2, path)
  {
    hide TreeOK;
    BuriedAt(l, l1, path, h);
    NodePlace(l1, h);
    GoneAt(l1, l2, path, h);
    OnlyAtTwice(l, l1, l2, path, Some(File([])), None);
    NodePlace(l, h);
    assert forall g :: g in l2.nodes && g != l.nodes[h].parent ==> l2.nodes[g] == l.nodes[g];
  }

  lemma NodePlace(l: Layout, h: nat)
    requires TreeOK(l) && h in l.nodes && h != ROOT
    ensures l.nodes[h].parent in l.nodes && l.nodes[l.nodes[h].parent].dir && l.nodes[h].parent != h
  {
    assert PlaceOK(l, h);
  }

  lemma RmdirAt(l: Layout, l': Layout, path: seq<string>, h: nat)
    requires TreeOK(l) && Gone(l, l', h) && Lookup(l, ROOT, path) == Some(h)
    ensures RemovedAt(l, l', path)
  {
    hide TreeOK;
    NodePlace(l, h);
    GoneAt(l, l', path, h);
  }

  /** Freeing the blocks of a file that has none changes nothing. */
  lemma EmptyAgain(d0: Disk, l0: Layout, d: Disk, l: Layout, h: nat)
    requires AtRest(d0, l0) && h in l0.nodes && !l0.nodes[h].dir && Contents(l0.nodes[h]) == []
    requires Inv(d, l, h) && (forall b :: 0 <= b < |l.role| ==> l.role[b] != Loose)
    requires l.nodes == BuryLayout(l0, h).nodes && |d.img| == |d0.img| && l.max == l0.max
    requires h < |d.img| && h < |d0.img| && d0.img[h].Inode? && d.img[h] == d0.img[h].(next := 0)
    requires l.nodes[h].meta < |d.img| && d.img[l.nodes[h].meta].Info? && d.img[l.nodes[h].meta].size == 0
    ensures AtRest(d, l) && l.nodes == l0.nodes && d.freeblks == d0.freeblks
  {
    hide Inv;
    EmptyFileHasNoBlocks(d0, l0, h);
    NodeShape(d0, l0, 0, h);
    InodeAt(d0, l0, 0, h, 0);
    assert l.nodes[h] == l0.nodes[h];
    Unbury(d, l, h);
    FreeIsDeterminedByTree(d0, l0, d, l);
  }

  /** A directory has entries exactly if there is a path one name longer. */
  lemma EntriesArePaths(l: Layout, path: seq<string>, h: nat)
    requires TreeOK(l) && h in l.nodes && l.nodes[h].dir && Lookup(l, ROOT, path) == Some(h)
    ensures |l.nodes[h].parts| >= 1
    ensures Entries(l.nodes[h]) != [] <==> exists name :: At(l, path + [name]).Some?
  {
    hide TreeOK, At;
    DirOK(l, h);
    if Entries(l.nodes[h]) != [] {
      EntryIsChild(l, h, 0);
      var name := l.nodes[Entries(l.nodes[h])[0]].name;
      LookupSnoc(l, ROOT, path, name);
      AtNode(l, path + [name]);
    }
    if exists name :: At(l, path + [name]).Some? {
      var name :| At(l, path + [name]).Some?;
      AtNode(l, path + [name]);
      LookupSnoc(l, ROOT, path, name);
    }
  }

  lemma BareDir(d: Disk, l: Layout, h: nat)
    requires Inv(d, l, 0) && h in l.nodes && l.nodes[h].dir && |l.nodes[h].parts| >= 1 && Entries(l.nodes[h]) == []
    ensures Bare(l, h)
  {
    hide Inv;
    NodeShape(d, l, 0, h);
  }

  lemma MadeIsEmpty(l: Layout, l': Layout, p: nat, e: nat, name: string)
    requires Made(l, l', p, e, name, false)
    ensures e in l'.nodes && !l'.nodes[e].dir && l'.nodes[e].parts == [[]] && l'.nodes[e].chain == [e]
  {
  }

  lemma RewrittenAt(l: Layout, l1: Layout, l2: Layout, path: seq<string>, h: nat, bytes: seq<byte>)
    requires TreeOK(l1) && l1.nodes == l.nodes && h in l.nodes && !l.nodes[h].dir && Contents(l.nodes[h]) == []
    requires Lookup(l, ROOT, path) == Some(h) && Wrote(l1, l2, h, bytes)
    ensures OnlyAt(l, l2, path, Some(File(bytes)))
  {
    hide TreeOK;
    forall q ensures At(l1, q) == At(l, q) {
      LookupSame(l, l1, ROOT, q);
    }
    LookupSame(l, l1, ROOT, path);
    WrittenAt(l1, l2, path, h, bytes);
    assert Contents(l.nodes[h]) + bytes == bytes;
  }

  /** What was made at a path can be reached there. */
  lemma NewIsReachable(l: Layout, l': Layout, path: seq<string>, entry: Entry)
    requires TreeOK(l) && TreeOK(l') && NewAt(l, l', path, entry)
    ensures path != [] && HasParent(l', path) && At(l', path) == Some(entry)
  {
    hide TreeOK;
    assert Front(path) != path;
    AtNode(l, Front(path));
    AtNode(l', Front(path));
  }

  /** Nothing can be below a path that did not exist. */
  lemma NothingBelow(l: Layout, l': Layout, path: seq<string>)
    requires TreeOK(l) && NewAt(l, l', path, Dir) && At(l, path) == None
    ensures forall name :: At(l', path + [name]) == None
  {
    hide TreeOK;
    AtNode(l, path);
    forall name ensures At(l', path + [name]) == None {
      LookupSnoc(l, ROOT, path, name);
      assert path + [name] != path by { assert |path + [name]| != |path|; }
    }
  }

  /** Making a node and removing it gives back the tree, the number of free blocks and their set. */
  lemma MakingAndRemoving(d: Disk, l: Layout, l1: Layout, d2: Disk, l2: Layout, path: seq<string>, entry: Entry)
    requires AtRest(d, l) && AtRest(d2, l2) && |d2.img| == |d.img|
    requires NewAt(l, l1, path, entry) && RemovedAt(l1, l2, path)
    ensures l2.nodes == l.nodes && d2.freeblks == d.freeblks && forall b :: b in l2.free <==> b in l.free
  {
    hide Inv;
    InvTree(d, l);
    RemovalUndoesCreation(l, l1, l2, Parent(l, path), Lookup(l1, ROOT, path).value);
    FreeIsDeterminedByTree(d, l, d2, l2);
  }

  /** Half-way through overwriting a file, when its blocks have been freed and nothing has been written yet,
      its inode links a block that is on the free list, exactly if the file was not empty. */
  lemma OverwritingLinksFreeBlockIff(d0: Disk, l0: Layout, l: Layout, h: nat)
    requires AtRest(d0, l0) && h in l0.nodes && !l0.nodes[h].dir && |l.role| == |l0.role|
    requires forall b :: 0 <= b < |l.role| && IsContent(l0.role[b], h) ==> l.role[b].ForFree?
    ensures h < |d0.img| && d0.img[h].Inode? && |d0.img[h].links| > 0
    ensures var first := d0.img[h].links[0];
            (first != 0 && first < |l.role| && l.role[first].ForFree?) <==> Contents(l0.nodes[h]) != []
  {
    hide Inv;
    NodeShape(d0, l0, 0, h);
    InodeAt(d0, l0, 0, h, 0);
    var n := l0.nodes[h];
    RestIsContents(n);
    if |n.parts[0]| > 0 {
      RestSize(l0, n, 0, 0);
      assert Has(l0, n.parts[0][0], ForData(h, 0, 0));
    }
  }

  // ---------------------------------------------------------------------------------------------
  // A fresh image
  // ---------------------------------------------------------------------------------------------

  ghost function FreshLayout(max: nat, blksz: nat, blks: nat): Layout
    requires blks > 3
  {
    Layout(max, blksz,
           seq(blks, b requires 0 <= b < blks =>
             if b == 0 then ForSuper else if b == 1 then ForHead(1) else if b == 2 then ForMeta(1)
             else ForFree(blks - 1 - b)),
           seq(blks - 3, k requires 0 <= k < blks - 3 => blks - 1 - k),
           map[ROOT := Node(true, ROOT, 0, 2, "/", [ROOT], [[]], [])])
  }

  lemma FreshIsValid(d: Disk, max: nat, blksz: nat, blks: nat)
    requires blks > 3 && max > 0 && blksz > 0 && |d.img| == blks && d.freelist == 3 && d.freeblks == blks - 4
    requires d.img[0] == Super(d.freeblks, d.freelist)
    requires d.img[1].Inode? && d.img[1] == Inode(Directory, ROOT, 2, 0, d.img[1].links)
    requires Linked(d.img[1].links, [], max) && d.img[2] == Info(0, "/")
    requires forall b :: 3 <= b < blks ==> d.img[b] == Free(if b + 1 == blks then 0 else b + 1)
    ensures AtRest(d, FreshLayout(max, blksz, blks))
    ensures At(FreshLayout(max, blksz, blks), []) == Some(Dir)
    ensures forall path :: path != [] ==> At(FreshLayout(max, blksz, blks), path) == None
  {
    var l := FreshLayout(max, blksz, blks);
    forall k | 0 <= k < |l.free| ensures FreeBlockOK(d.img, l, k) {
    }
    FreshTree(l);
  }

  lemma FreshTree(l: Layout)
    requires l.nodes == map[ROOT := Node(true, ROOT, 0, 2, "/", [ROOT], [[]], [])]
    ensures TreeOK(l) && At(l, []) == Some(Dir)
    ensures forall path :: path != [] ==> At(l, path) == None
  {
    forall path | path != [] ensures At(l, path) == None {
      assert ChildOf(l, ROOT, path[0]) == None;
    }
  }
}
