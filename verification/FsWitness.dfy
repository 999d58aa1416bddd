/** Images on which a call goes wrong, reached from a fresh one by calls. */
module FsWitness {
  import opened Common
  import opened FsLayout
  import opened FsPaths
  import opened FsTree
  import opened FsSpace
  import opened FsReading
  import opened FsEffects
  import opened Files

  lemma PathOf(name: char)
    requires name != '/'
    ensures Tokens(['/', name]) == [[name]] && ['/', name] != "/"
  {
    TokensOfChild("", [name]);
    assert "" + "/" + [name] == ['/', name];
    assert |['/', name]| == 2;
  }

  /** A file of 23 blocks takes two more for itself and two child inodes. */
  lemma BigFile()
    ensures NewFileCost(23 * 128, 128, 11) == 27 && Checked(23 * 128, 128) == 23
  {
    NewFileCostIs(23 * 128, 128, 11);
  }

  lemma EmptyFileCost()
    ensures NewFileCost(0, 128, 11) == 2 && Checked(0, 128) == 1
  {
    NewFileCostIs(0, 128, 11);
  }

  lemma RootHasRoom(d: Disk, l: Layout, name: string)
    requires AtRest(d, l) && (forall path :: path != [] ==> At(l, path) == None) && l.max == 11
    ensures HasParent(l, [name]) && Parent(l, [name]) == ROOT && HasRoom(l, ROOT) && Entries(l.nodes[ROOT]) == []
  {
    hide Inv;
    InvTree(d, l);
    RootIsNode(l);
    assert Front([name]) == [];
    assert Lookup(l, ROOT, []) == Some(ROOT);
    hide At;
    EntriesArePaths(l, [], ROOT);
    forall x ensures At(l, [] + [x]) == None {
      assert [] + [x] != [];
    }
  }

  lemma StillHasRoom(l: Layout, l': Layout, name: string, entry: Entry, other: string)
    requires NewAt(l, l', [name], entry) && Parent(l, [name]) == ROOT && Entries(l.nodes[ROOT]) == []
    requires TreeOK(l') && l'.max == 11
    ensures HasParent(l', [other]) && Parent(l', [other]) == ROOT && HasRoom(l', ROOT)
  {
    RootIsNode(l');
    assert Front([other]) == [];
    assert Lookup(l', ROOT, []) == Some(ROOT);
  }

  /** A fresh image of 32 blocks of 128 bytes, with one file, /a. */
  method WithFile(bytes: seq<byte>) returns (fs: FileSystem)
    requires NewFileCost(|bytes|, 128, 11) <= 28
    ensures fs.Valid() && fs.blks == 32 && fs.blksz == 128 && fresh(fs) && fresh(fs.image)
    ensures fs.freeblks == 28 - NewFileCost(|bytes|, 128, 11) && TreeOK(fs.l) && fs.l.max == 11
    ensures At(fs.l, ["a"]) == Some(File(bytes)) && forall path :: path != [] && path != ["a"] ==> At(fs.l, path) == None
    ensures forall name :: HasParent(fs.l, [name]) && Parent(fs.l, [name]) == ROOT && HasRoom(fs.l, ROOT)
  {
    hide Inv, At, Lookup, NewAt, HasRoom, HasParent, Cost, NewFileCost, Checked, FirstMissing, PlaceFor, Walkable, TreeOK;
    fs := new FileSystem.Fresh(32, 128);
    PathOf('a');
    RootHasRoom(fs.D(), fs.l, ['a']);
    TreeOf(fs);
    ghost var l := fs.l;
    WithParent(l, ["a"]);
    fs.WriteWhole(['/', 'a'], bytes);
    TreeOf(fs);
    Something(l, fs.l, ["a"], File(bytes));
    forall path | path != [] && path != ["a"] ensures At(fs.l, path) == None {
      NothingElse(l, fs.l, ["a"], File(bytes), path);
    }
    forall name ensures HasParent(fs.l, [name]) && Parent(fs.l, [name]) == ROOT && HasRoom(fs.l, ROOT) {
      StillHasRoom(l, fs.l, ['a'], File(bytes), name);
    }
  }

  /** On that image, a file /a of 23 blocks leaves one block.  Writing an empty file /b passes the check for
      space, and runs out of blocks. */
  method CheckedWriteRunsOut() returns (fs: FileSystem, ghost d: Disk, ghost l: Layout, status: Status)
    ensures |d.img| == 32 && l.blksz == 128 && AtRest(d, l) && d.freeblks == 1
    ensures At(l, ["a"]) == Some(File(seq(23 * 128, i => 0 as byte))) && At(l, ["b"]) == None
    ensures Checked(0, 128) <= d.freeblks < NewFileCost(0, 128, l.max)
    ensures status == RanOut && fs.freeblks == 0
  {
    hide Inv, At, Lookup, HasRoom, HasParent, Cost, NewFileCost, Checked, FirstMissing, PlaceFor, Walkable, TreeOK;
    PathOf('b');
    BigFile();
    EmptyFileCost();
    fs := WithFile(seq(23 * 128, i => 0 as byte));
    d, l := fs.D(), fs.l;
    WithParent(l, ["b"]);
    ghost var links, chunks;
    status, links, chunks := fs.WriteFile(['/', 'b'], []);
  }

  lemma TreeOf(fs: FileSystem)
    requires fs.Valid()
    ensures TreeOK(fs.l)
  {
    hide Inv;
    InvTree(fs.D(), fs.l);
  }

  lemma NothingElse(l: Layout, l': Layout, path: seq<string>, entry: Entry, other: seq<string>)
    requires NewAt(l, l', path, entry) && other != path && At(l, other) == None
    ensures At(l', other) == None
  {
  }

  lemma OneBlockFile()
    ensures NewFileCost(1, 128, 11) == 3 && Checked(1, 128) == 1 && Chunks(1, 128) == 1
    ensures forall p: nat :: Cost(p, 1, 11) <= 2
  {
    NewFileCostIs(1, 128, 11);
    forall p: nat ensures Cost(p, 1, 11) <= 2 {
      assert Cost(p + 1, 0, 11) == 0 && Cost(1, 0, 11) == 0;
    }
  }

  /** On a fresh image, the file /a gets one byte.  Writing another byte to it succeeds, and leaves the image
      of no file system. */
  method OverwritingSpoilsTheImage() returns (fs: FileSystem, ghost d: Disk, ghost l: Layout, status: Status)
    ensures |d.img| == 32 && l.blksz == 128 && AtRest(d, l) && At(l, ["a"]) == Some(File([1]))
    ensures status == Ok && forall l2 :: !AtRest(fs.D(), l2)
  {
    hide Inv, AtRest, At, Lookup, HasRoom, HasParent, Cost, NewFileCost, Checked, BlocksAt, LinksAt, FirstMissing,
         PlaceFor, Walkable, TreeOK;
    PathOf('a');
    OneBlockFile();
    fs := WithFile([1]);
    d, l := fs.D(), fs.l;
    WithParent(l, ["a"]);
    ghost var links, chunks;
    status, links, chunks := fs.WriteFile(['/', 'a'], [2]);
  }

  lemma Something(l: Layout, l': Layout, path: seq<string>, entry: Entry)
    requires NewAt(l, l', path, entry)
    ensures At(l', path) == Some(entry)
  {
  }
}
