/** What the invariant says about the blocks an operation reads. */
module FsReading {
  import opened Common
  import opened FsLayout
  import opened FsSteps
  import opened FsTreeSteps
  import opened FsTree

  /** The j-th inode of a node. */
  lemma InodeAt(d: Disk, l: Layout, z: nat, h: nat, j: nat)
    requires Inv(d, l, z) && h in l.nodes && h != z && j < |l.nodes[h].chain|
    ensures var n := l.nodes[h];
            && |n.chain| == |n.parts| && n.chain[0] == h
            && In(l, n.chain[j]) && n.chain[j] < |d.img| == |l.role| && d.img[n.chain[j]].Inode?
            && d.img[n.chain[j]].next == (if j + 1 < |n.chain| then n.chain[j + 1] else 0)
            && (j + 1 < |n.chain| ==> n.chain[j + 1] != 0)
            && Linked(d.img[n.chain[j]].links, n.parts[j], l.max)
            && 0 in d.img[n.chain[j]].links
            && d.img[n.chain[j]].links[|n.parts[j]|] == 0
            && (forall i :: 0 <= i < |n.parts[j]| ==> d.img[n.chain[j]].links[i] == n.parts[j][i] != 0)
  {
    hide TreeOK, FreeOK, RoleOK;
    var n := l.nodes[h];
    assert NodeOK(d.img, l, h, z);
    if j > 0 {
      assert Has(l, n.chain[j], ForChild(h, j)) && ChildOK(d.img, l, h, j);
    }
    assert j + 1 < |n.chain| ==> Has(l, n.chain[j + 1], ForChild(h, j + 1));
    hide Linked;
    LinkedItems(d.img[n.chain[j]].links, n.parts[j], l.max);
  }

  lemma LinkedItems(links: seq<nat>, items: seq<nat>, max: nat)
    requires Linked(links, items, max)
    ensures |items| < |links| && links[|items|] == 0 && 0 in links
    ensures forall i :: 0 <= i < |items| ==> links[i] == items[i] != 0
  {
    assert links[|items|] == 0;
    assert forall i :: 0 <= i < |items| ==> links[i] == links[..|items|][i] == items[i];
  }

  /** The shape of a node. */
  lemma NodeShape(d: Disk, l: Layout, z: nat, h: nat)
    requires Inv(d, l, z) && h in l.nodes
    ensures ShapeOK(l, l.nodes[h]) && NodeRoles(l, h) && l.max > 0 && l.blksz > 0
    ensures 0 < h < |d.img| == |l.role| && |l.nodes[h].chain| == |l.nodes[h].parts| >= 1
  {
    hide TreeOK, FreeOK, RoleOK, ShapeOK;
    assert NodeOK(d.img, l, h, z);
  }

  /** The first inode of a node and its metadata. */
  lemma HeadAt(d: Disk, l: Layout, z: nat, h: nat)
    requires Inv(d, l, z) && h in l.nodes
    ensures 0 < h < |d.img| && l.nodes[h].meta < |d.img| && l.nodes[h].meta != 0 && l.nodes[h].meta != h
    ensures d.img[h].Inode? && d.img[h].mode == (if l.nodes[h].dir then Directory else Regular)
    ensures d.img[h].parent == l.nodes[h].parent && d.img[h].meta == l.nodes[h].meta
    ensures d.img[l.nodes[h].meta].Info? && d.img[l.nodes[h].meta].name == l.nodes[h].name
    ensures Has(l, l.nodes[h].meta, ForMeta(h))
    ensures |l.nodes[h].parts| >= 1 && (h != z ==> d.img[l.nodes[h].meta].size == Size(l.nodes[h]))
  {
    hide TreeOK, FreeOK, RoleOK;
    assert NodeOK(d.img, l, h, z);
  }

  /** A directory's inode links exactly to its entries, its size is their number, and the names that the
      image holds for them are different. */
  lemma DirectoryIsExact(d: Disk, l: Layout, h: nat)
    requires AtRest(d, l) && h in l.nodes && l.nodes[h].dir
    ensures |l.nodes[h].parts| >= 1 && h < |d.img| && d.img[h].Inode?
    ensures Linked(d.img[h].links, Entries(l.nodes[h]), l.max)
    ensures d.img[h].meta < |d.img| && d.img[d.img[h].meta].Info?
    ensures d.img[d.img[h].meta].size == |Entries(l.nodes[h])|
    ensures forall i, j :: 0 <= i < j < |Entries(l.nodes[h])| ==>
              EntryName(d, Entries(l.nodes[h])[i]) != EntryName(d, Entries(l.nodes[h])[j])
  {
    hide Inv, TreeOK, NodeRoles, ShapeOK, Linked;
    InvTree(d, l);
    DirOK(l, h);
    NodeShape(d, l, 0, h);
    InodeAt(d, l, 0, h, 0);
    HeadAt(d, l, 0, h);
    var es := Entries(l.nodes[h]);
    forall i | 0 <= i < |es|
      ensures EntryName(d, es[i]) == Some(l.nodes[es[i]].name)
    {
      EntryAt(d, l, h, i);
    }
  }

  /** What the image holds for the i-th entry of a directory. */
  lemma {:induction false} EntryAt(d: Disk, l: Layout, p: nat, i: nat)
    requires Inv(d, l, 0) && p in l.nodes && l.nodes[p].dir && |l.nodes[p].parts| >= 1 && i < |Entries(l.nodes[p])|
    ensures var e := Entries(l.nodes[p])[i];
            && e in l.nodes && e < |d.img| && d.img[e].Inode? && d.img[e].meta < |d.img|
            && d.img[d.img[e].meta].Info? && d.img[d.img[e].meta].name == l.nodes[e].name
  {
    assert EntriesOK(l, p);
    hide Inv;
    HeadAt(d, l, 0, Entries(l.nodes[p])[i]);
  }

  /** No entry has the name. */
  lemma {:induction false} NoEntryOf(l: Layout, p: nat, name: string)
    requires p in l.nodes && l.nodes[p].dir && |l.nodes[p].parts| >= 1
    requires forall k :: 0 <= k < |Entries(l.nodes[p])| ==>
               Entries(l.nodes[p])[k] in l.nodes && l.nodes[Entries(l.nodes[p])[k]].name != name
    ensures ChildOf(l, p, name) == None
  {
    FoundIsNamed(l, Entries(l.nodes[p]), name, 0);
  }

  /** The name that the image holds for a node. */
  function EntryName(d: Disk, e: nat): Option<string> {
    if e < |d.img| && d.img[e].Inode? && d.img[e].meta < |d.img| && d.img[d.img[e].meta].Info?
    then Some(d.img[d.img[e].meta].name) else None
  }

  /** A child inode knows its node. */
  lemma ChildAt(d: Disk, l: Layout, z: nat, h: nat, j: nat)
    requires Inv(d, l, z) && h in l.nodes && h != z && 1 <= j < |l.nodes[h].chain|
    ensures l.nodes[h].chain[j] < |d.img| && d.img[l.nodes[h].chain[j]].Inode?
    ensures d.img[l.nodes[h].chain[j]].mode == Child && d.img[l.nodes[h].chain[j]].parent == h
  {
    hide TreeOK, FreeOK, RoleOK;
    assert NodeOK(d.img, l, h, z);
    assert Has(l, l.nodes[h].chain[j], ForChild(h, j)) && ChildOK(d.img, l, h, j);
  }

  /** The last inode of a node is full. */
  ghost predicate LastFull(l: Layout, n: Node) {
    |n.parts| >= 1 && |n.parts[|n.parts| - 1]| >= l.max
  }

  /** The last inode of a node has one more link, and the node's size grew. */
  ghost predicate TailRelinked(img: seq<Block>, img': seq<Block>, n: Node, b: nat, inc: nat) {
    && |n.chain| >= 1 && |n.parts| >= 1
    && var t, k := n.chain[|n.chain| - 1], |n.parts[|n.parts| - 1]|;
    && t < |img| && img[t].Inode? && k + 1 < |img[t].links|
    && n.meta < |img| && img[n.meta].Info?
    && img' == img[t := Relinked(img[t], k, b)][n.meta := img[n.meta].(size := img[n.meta].size + inc)]
  }

  /** Linking behind the last inode and counting it is the step of appending. */
  lemma AppendedBy(d: Disk, l: Layout, d': Disk, h: nat, b: nat, inc: nat)
    requires Inv(d, l, 0) && h in l.nodes && b != 0 && !LastFull(l, l.nodes[h])
    requires d'.freelist == d.freelist && d'.freeblks == d.freeblks && |d.img| == |l.role|
    requires NodeRoles(l, h) && TailRelinked(d.img, d'.img, l.nodes[h], b, inc)
    ensures Appended(d, l, d', h, b, inc)
  {
    hide Inv;
    TailOwned(l, h);
  }

  function Relinked(x: Block, k: nat, b: nat): Block
    requires x.Inode? && k + 1 < |x.links|
  {
    x.(links := x.links[k := b][k + 1 := 0])
  }

  /** Chaining a new inode and counting it is the step of deepening. */
  lemma DeepenedBy(d: Disk, l: Layout, d': Disk, h: nat, c: nat, b: nat, inc: nat, links: seq<nat>)
    requires |d.img| == |l.role| && h in l.nodes && NodeRoles(l, h) && Has(l, c, Loose)
    requires d'.freelist == d.freelist && d'.freeblks == d.freeblks && Linked(links, [b], l.max)
    requires var n := l.nodes[h];
             var t := n.chain[|n.chain| - 1];
             && t < |d.img| && d.img[t].Inode? && n.meta < |d.img| && d.img[n.meta].Info?
             && d'.img == d.img[t := d.img[t].(next := c)][c := Inode(Child, h, t, 0, links)]
                               [n.meta := d.img[n.meta].(size := d.img[n.meta].size + inc)]
    ensures Deepened(d, l, d', h, c, b, inc)
  {
    TailOwned(l, h);
  }

  ghost predicate OnlyLoose(l: Layout, b: nat) {
    Has(l, b, Loose) && forall c :: 0 <= c < |l.role| && c != b ==> l.role[c] != Loose
  }

  /** File h got one more chunk at its end; nothing else changed in the tree. */
  ghost predicate GotChunk(l: Layout, l': Layout, h: nat, bytes: seq<byte>) {
    && h in l.nodes && h in l'.nodes && l'.nodes == l.nodes[h := l'.nodes[h]]
    && l'.max == l.max && l'.blksz == l.blksz && |l'.role| == |l.role|
    && var n, n' := l.nodes[h], l'.nodes[h];
    && |n.parts| >= 1 && |n'.parts| >= 1
    && n'.dir == n.dir && n'.parent == n.parent && n'.depth == n.depth && n'.meta == n.meta && n'.name == n.name
    && Contents(n') == Contents(n) + bytes
    && |n'.parts[|n'.parts| - 1]| == (if LastFull(l, n) then 1 else |n.parts[|n.parts| - 1]| + 1)
    && (|bytes| == l.blksz ==> AllFull(l', n'))
  }

  lemma AppendIsChunk(l: Layout, h: nat, b: nat, bytes: seq<byte>)
    requires h in l.nodes && Has(l, b, Loose) && OnlyLoose(l, b) && AllFull(l, l.nodes[h])
    requires |l.nodes[h].parts| == |l.nodes[h].data| >= 1 && !LastFull(l, l.nodes[h])
    ensures GotChunk(l, AppendLayout(l, h, b, bytes), h, bytes)
    ensures forall c :: 0 <= c < |l.role| ==> AppendLayout(l, h, b, bytes).role[c] != Loose
  {
    LongerContents(l.nodes[h], b, bytes);
  }

  lemma DeepenIsChunk(l: Layout, h: nat, c: nat, b: nat, bytes: seq<byte>)
    requires h in l.nodes && Has(l, b, Loose) && Has(l, c, Loose) && b != c && AllFull(l, l.nodes[h])
    requires forall e :: 0 <= e < |l.role| && e != b && e != c ==> l.role[e] != Loose
    requires LastFull(l, l.nodes[h])
    ensures GotChunk(l, DeepenLayout(l, h, c, b, bytes), h, bytes)
    ensures forall e :: 0 <= e < |l.role| ==> DeepenLayout(l, h, c, b, bytes).role[e] != Loose
  {
    DeeperContents(l.nodes[h], c, b, bytes);
  }

  /** Taking blocks does not touch the tree. */
  lemma ChunkAfterTake(l: Layout, l1: Layout, l2: Layout, h: nat, bytes: seq<byte>)
    requires l1.nodes == l.nodes && l1.max == l.max && l1.blksz == l.blksz && |l1.role| == |l.role|
    requires GotChunk(l1, l2, h, bytes)
    ensures GotChunk(l, l2, h, bytes)
  {
  }

  lemma FinishAppend(d: Disk, l: Layout, d': Disk, h: nat, b: nat, bytes: seq<byte>)
    requires Inv(d, l, 0) && h in l.nodes && h != 0 && !l.nodes[h].dir && AllFull(l, l.nodes[h]) && NodeRoles(l, h)
    requires |l.nodes[h].parts| >= 1 && !LastFull(l, l.nodes[h]) && OnlyLoose(l, b)
    requires d.img[b] == Data(bytes) && 0 < |bytes| <= l.blksz && Appended(d, l, d', h, b, |bytes|)
    ensures |l.nodes[h].data| == |l.nodes[h].parts|
    ensures AtRest(d', AppendLayout(l, h, b, bytes)) && GotChunk(l, AppendLayout(l, h, b, bytes), h, bytes)
  {
    hide Inv, NodeRoles, Appended;
    AppendKeeps(d, l, d', 0, h, b, bytes);
    AppendIsChunk(l, h, b, bytes);
  }

  lemma FinishDeepen(d: Disk, l: Layout, d': Disk, h: nat, c: nat, b: nat, bytes: seq<byte>)
    requires Inv(d, l, 0) && h in l.nodes && h != 0 && !l.nodes[h].dir && AllFull(l, l.nodes[h]) && NodeRoles(l, h)
    requires ShapeOK(l, l.nodes[h]) && LastFull(l, l.nodes[h]) && l.max > 0
    requires Has(l, b, Loose) && Has(l, c, Loose) && b != c
    requires forall e :: 0 <= e < |l.role| && e != b && e != c ==> l.role[e] != Loose
    requires d.img[b] == Data(bytes) && 0 < |bytes| <= l.blksz && Deepened(d, l, d', h, c, b, |bytes|)
    ensures AtRest(d', DeepenLayout(l, h, c, b, bytes)) && GotChunk(l, DeepenLayout(l, h, c, b, bytes), h, bytes)
  {
    hide Inv, NodeRoles, Deepened;
    DeepenKeeps(d, l, d', 0, h, c, b, bytes);
    DeepenIsChunk(l, h, c, b, bytes);
  }

  lemma SameFullness(l: Layout, l': Layout, n: Node)
    requires l'.max == l.max && l'.blksz == l.blksz
    ensures LastFull(l', n) <==> LastFull(l, n)
    ensures AllFull(l', n) <==> AllFull(l, n)
  {
  }

  /** File h has more bytes at its end; nothing else changed in the tree. */
  ghost predicate Wrote(l: Layout, l': Layout, h: nat, bytes: seq<byte>) {
    && h in l.nodes && h in l'.nodes && l'.nodes == l.nodes[h := l'.nodes[h]]
    && l'.max == l.max && l'.blksz == l.blksz && |l'.role| == |l.role|
    && var n, n' := l.nodes[h], l'.nodes[h];
    && n'.dir == n.dir && n'.parent == n.parent && n'.depth == n.depth && n'.meta == n.meta && n'.name == n.name
    && Contents(n') == Contents(n) + bytes
  }

  lemma WroteMore(l: Layout, l1: Layout, l2: Layout, h: nat, a: seq<byte>, b: seq<byte>)
    requires Wrote(l, l1, h, a) && GotChunk(l1, l2, h, b)
    ensures Wrote(l, l2, h, a + b)
  {
    assert Contents(l.nodes[h]) + a + b == Contents(l.nodes[h]) + (a + b);
  }

  lemma WroteNothing(l: Layout, h: nat)
    requires h in l.nodes
    ensures Wrote(l, l, h, [])
  {
  }

  // ---------------------------------------------------------------------------------------------
  // Reading a file from a position in its chain
  // ---------------------------------------------------------------------------------------------

  /** The bytes from the i-th block of the j-th inode on. */
  ghost function Rest(data: seq<seq<seq<byte>>>, j: nat, i: nat): seq<byte>
    decreases |data| - j, if j < |data| then |data[j]| - i else 0
  {
    if j >= |data| then []
    else if i < |data[j]| then data[j][i] + Rest(data, j, i + 1)
    else Rest(data, j + 1, 0)
  }

  lemma {:induction false} RestIsConcat(data: seq<seq<seq<byte>>>, j: nat, i: nat)
    requires j < |data| ==> i <= |data[j]|
    ensures Rest(data, j, i) == if j >= |data| then [] else Concat(data[j][i..]) + Concat(Concat(data[j + 1..]))
    decreases |data| - j, if j < |data| then |data[j]| - i else 0
  {
    if j < |data| {
      if i < |data[j]| {
        RestIsConcat(data, j, i + 1);
        assert data[j][i..][1..] == data[j][i + 1..];
      } else {
        RestIsConcat(data, j + 1, 0);
        assert data[j][i..] == [];
        if j + 1 < |data| {
          assert data[j + 1..][0] == data[j + 1] && data[j + 1..][1..] == data[j + 2..];
          ConcatAppend(data[j + 1], Concat(data[j + 2..]));
          assert data[j + 1][0..] == data[j + 1];
        }
      }
    }
  }

  lemma RestIsContents(n: Node)
    requires |n.data| >= 1
    ensures Rest(n.data, 0, 0) == Contents(n)
    ensures |n.data| == 1 && n.data[0] == [] ==> Contents(n) == []
  {
    RestIsConcat(n.data, 0, 0);
    assert n.data[0][0..] == n.data[0];
    ConcatAppend(n.data[0], Concat(n.data[1..]));
  }

  /** More than a block is left exactly if the block at hand is not the last one; then it is full. */
  lemma RestSize(l: Layout, n: Node, j: nat, i: nat)
    requires ShapeOK(l, n) && !n.dir && j < |n.parts| && i < |n.parts[j]| && l.max > 0 && l.blksz > 0
    ensures var last := j + 1 == |n.parts| && i + 1 == |n.parts[j]|;
            && |n.data| == |n.parts| && |n.data[j]| == |n.parts[j]|
            && (|Rest(n.data, j, i)| > l.blksz <==> !last)
            && (last ==> Rest(n.data, j, i) == n.data[j][i])
            && (!last ==> |n.data[j][i]| == l.blksz)
            && |Rest(n.data, j, i)| > 0
            && Rest(n.data, j, i) == n.data[j][i] + Rest(n.data, j, i + 1)
  {
    assert ChunkOK(n.data[j][i], l.blksz, j + 1 == |n.parts| && i + 1 == |n.parts[j]|);
    assert Rest(n.data, j, i) == n.data[j][i] + Rest(n.data, j, i + 1);
    if i + 1 < |n.parts[j]| {
      assert ChunkOK(n.data[j][i + 1], l.blksz, j + 1 == |n.parts| && i + 2 == |n.parts[j]|);
      assert Rest(n.data, j, i + 1) == n.data[j][i + 1] + Rest(n.data, j, i + 2);
    } else if j + 1 < |n.parts| {
      assert |n.parts[j + 1]| >= 1;
      assert ChunkOK(n.data[j + 1][0], l.blksz, j + 2 == |n.parts| && 1 == |n.parts[j + 1]|);
      assert Rest(n.data, j, i + 1) == Rest(n.data, j + 1, 0) == n.data[j + 1][0] + Rest(n.data, j + 1, 1);
    } else {
      assert Rest(n.data, j, i + 1) == Rest(n.data, j + 1, 0) == [];
    }
  }

  /** At the end of an inode's links, something is left exactly if there is a next inode. */
  lemma RestAtEnd(l: Layout, n: Node, j: nat)
    requires ShapeOK(l, n) && !n.dir && j < |n.parts| && l.max > 0 && l.blksz > 0
    ensures |n.data| == |n.parts| && |n.data[j]| == |n.parts[j]|
    ensures Rest(n.data, j, |n.parts[j]|) == Rest(n.data, j + 1, 0)
    ensures j + 1 == |n.parts| ==> Rest(n.data, j + 1, 0) == []
    ensures j + 1 < |n.parts| ==> |n.parts[j + 1]| >= 1 && |Rest(n.data, j + 1, 0)| > 0
  {
    if j + 1 < |n.parts| {
      assert |n.parts[j + 1]| >= 1;
      RestSize(l, n, j + 1, 0);
    }
  }

  /** A linked data block holds its chunk. */
  lemma DataAt(d: Disk, l: Layout, z: nat, h: nat, j: nat, i: nat)
    requires Inv(d, l, z) && h in l.nodes && h != z && !l.nodes[h].dir
    requires j < |l.nodes[h].parts| && i < |l.nodes[h].parts[j]|
    ensures var n := l.nodes[h];
            && |n.data| == |n.parts| && |n.data[j]| == |n.parts[j]|
            && n.parts[j][i] < |d.img| && d.img[n.parts[j][i]] == Data(n.data[j][i])
  {
    hide TreeOK, FreeOK, RoleOK;
    assert NodeOK(d.img, l, h, z);
    assert Has(l, l.nodes[h].parts[j][i], ForData(h, j, i));
  }

  /** node is a copy of the j-th inode. */
  ghost predicate AtInode(n: Node, j: nat, node: Block) {
    && j < |n.parts| == |n.chain| && node.Inode?
    && node.next == (if j + 1 < |n.chain| then n.chain[j + 1] else 0)
    && (j + 1 < |n.chain| ==> n.chain[j + 1] != 0)
    && |n.parts[j]| < |node.links| && node.links[|n.parts[j]|] == 0
    && forall i :: 0 <= i < |n.parts[j]| ==> node.links[i] == n.parts[j][i] != 0
  }

  ghost predicate CanGrow(l: Layout, h: nat) {
    h in l.nodes && !l.nodes[h].dir && |l.nodes[h].parts| >= 1 && AllFull(l, l.nodes[h])
  }

  lemma EmptyFile(d: Disk, l: Layout, h: nat)
    requires Inv(d, l, 0) && h in l.nodes && !l.nodes[h].dir && l.nodes[h].parts == [[]]
    ensures CanGrow(l, h) && Contents(l.nodes[h]) == []
  {
    hide Inv, NodeRoles;
    NodeShape(d, l, 0, h);
    var data := l.nodes[h].data;
    assert |data| == 1 && |data[0]| == 0;
    assert data == [[]] && Concat(data[1..]) == [] && Concat(data) == [];
  }

  lemma StartOfFile(l: Layout, n: Node)
    requires ShapeOK(l, n) && !n.dir
    ensures Rest(n.data, 0, 0) == Contents(n)
    ensures Contents(n) != [] ==> |n.parts[0]| > 0
  {
    RestIsContents(n);
  }

  /** Where reading stands after an inode: if everything else is in later inodes, there is a next one, and
      otherwise this is the last one. */
  lemma AfterInode(l: Layout, n: Node, j: nat, i: nat)
    requires ShapeOK(l, n) && !n.dir && j < |n.parts| && i <= |n.parts[j]| && l.max > 0 && l.blksz > 0
    requires i == |n.parts[j]| || |Rest(n.data, j, i)| <= l.blksz
    ensures i == |n.parts[j]| ==> Rest(n.data, j, i) == Rest(n.data, j + 1, 0)
    ensures i == |n.parts[j]| && j + 1 == |n.parts| ==> Rest(n.data, j, i) == []
    ensures j + 1 < |n.parts| ==> i == |n.parts[j]| && |n.parts[j + 1]| >= 1
  {
    if i == |n.parts[j]| {
      RestAtEnd(l, n, j);
    } else {
      RestSize(l, n, j, i);
    }
  }

  // ---------------------------------------------------------------------------------------------
  // Making and removing nodes
  // ---------------------------------------------------------------------------------------------

  /** The tree got an empty node e, the last entry of directory p. */
  ghost predicate Made(l: Layout, l': Layout, p: nat, e: nat, name: string, dir: bool) {
    && p in l.nodes && l.nodes[p].dir && |l.nodes[p].parts| >= 1 && e !in l.nodes && e in l'.nodes
    && l'.nodes[e] == EmptyNode(dir, p, l.nodes[p].depth + 1, l'.nodes[e].meta, name, e)
    && l'.nodes == l.nodes[p := WithEntries(l.nodes[p], Entries(l.nodes[p]) + [e])][e := l'.nodes[e]]
  }

  lemma ReadyToAttach(d: Disk, l0: Layout, l: Layout, p: nat, e: nat, m: nat, dir: bool, name: string)
    requires Inv(d, l, 0) && l.nodes == l0.nodes && l.max == l0.max
    requires p in l.nodes && l.nodes[p].dir && |l.nodes[p].parts| >= 1 && |Entries(l.nodes[p])| < l.max
    requires ChildOf(l0, p, name) == None
    requires Has(l, e, Loose) && Has(l, m, Loose) && e != m
    requires d.img[m] == Info(0, name) && d.img[e].Inode?
    requires d.img[e] == Inode(if dir then Directory else Regular, p, m, 0, d.img[e].links)
    requires |d.img[e].links| == l.max + 1 && d.img[e].links[0] == 0
    ensures CanAttach(d, l, p, e, m, dir, name) && !LastFull(l, l.nodes[p]) && e !in l.nodes && p != 0 && e != 0
    ensures |l.nodes[p].chain| >= 1
  {
    hide Inv, NodeRoles;
    NodeShape(d, l, 0, p);
    LooseIsNoNode(d, l, 0, e);
    InvTree(d, l);
    RootIsNode(l);
    DirOK(l, p);
    FoundIsNamed(l0, Entries(l0.nodes[p]), name, 0);
  }

  lemma DirOK(l: Layout, p: nat)
    requires TreeOK(l) && p in l.nodes && l.nodes[p].dir
    ensures |l.nodes[p].parts| >= 1 && EntriesOK(l, p)
  {
  }

  lemma FinishAttach(d: Disk, l: Layout, d': Disk, l0: Layout, p: nat, e: nat, m: nat, dir: bool, name: string)
    requires Inv(d, l, 0) && CanAttach(d, l, p, e, m, dir, name) && e !in l.nodes && p != 0 && e != 0
    requires NodeRoles(l, p) && Appended(d, l, d', p, e, 1) && l.nodes == l0.nodes
    requires forall b :: 0 <= b < |l.role| && b != e && b != m ==> l.role[b] != Loose
    ensures p in l.nodes && |l.nodes[p].parts| >= 1 && e < |l.role| && m < |l.role|
    ensures AtRest(d', AttachLayout(l, p, e, m, dir, name))
    ensures Made(l0, AttachLayout(l, p, e, m, dir, name), p, e, name, dir)
    ensures EntryAdded(l0, AttachLayout(l, p, e, m, dir, name), p, e, name)
  {
    hide Inv, NodeRoles, Appended, EntryAdded;
    InvTree(d, l);
    AttachKeeps(d, l, d', 0, p, e, m, dir, name);
    AttachAddsEntry(d, l, l0, p, e, m, dir, name);
  }

  lemma InvTree(d: Disk, l: Layout)
    requires Inv(d, l, 0)
    ensures TreeOK(l) && |d.img| == |l.role|
  {
  }
}
