/** The ways in which the file system's operations change the image and its layout, and that each of them
    keeps the invariant. */
module FsSteps {
  import opened Common
  import opened FsLayout

  /** All nodes stay intact if only blocks that no node owns change. */
  lemma NodesFrame(d: Disk, l: Layout, d': Disk, l': Layout, z: nat)
    requires |d.img| == |l.role| == |d'.img| == |l'.role| && l'.nodes == l.nodes && l'.max == l.max && l'.blksz == l.blksz
    requires forall h :: h in l.nodes ==> NodeOK(d.img, l, h, z)
    requires forall b :: 0 <= b < |l.role| && Owner(l.role[b]) != 0 ==> l'.role[b] == l.role[b] && d'.img[b] == d.img[b]
    ensures forall h :: h in l'.nodes ==> NodeOK(d'.img, l', h, z)
  {
    forall h | h in l.nodes ensures NodeOK(d'.img, l', h, z) {
      assert NodeOK(d.img, l, h, z);
      NodeFrame(d.img, l, d'.img, l', h, z, z);
    }
  }

  // ---------------------------------------------------------------------------------------------
  // fs_get_block
  // ---------------------------------------------------------------------------------------------

  ghost function TakeDisk(d: Disk, next: nat): Disk
    requires |d.img| > 0 && d.freeblks > 0
  {
    Disk(d.img[0 := Super(d.freeblks - 1, next)], next, d.freeblks - 1)
  }

  ghost function TakeLayout(l: Layout): Layout
    requires |l.free| > 0 && l.free[|l.free| - 1] < |l.role|
  {
    l.(role := l.role[l.free[|l.free| - 1] := Loose], free := l.free[..|l.free| - 1])
  }

  /** Block c, the head of the free list, was taken. */
  ghost predicate TookHead(l: Layout, l': Layout, c: nat) {
    && |l.free| > 0 && l.free[|l.free| - 1] == c && Has(l, c, ForFree(|l.free| - 1))
    && l' == TakeLayout(l)
  }

  /** The head of the free list. */
  lemma HeadOfFree(d: Disk, l: Layout)
    requires |d.img| == |l.role| && FreeOK(d, l)
    ensures Has(l, d.freelist, ForFree(|l.free| - 1)) && d.freelist == l.free[|l.free| - 1]
    ensures d.img[d.freelist] == Free(if d.freeblks == 0 then 0 else l.free[|l.free| - 2])
  {
    assert FreeBlockOK(d.img, l, |l.free| - 1);
  }

  lemma TakeKeeps(d: Disk, l: Layout, z: nat)
    requires Inv(d, l, z) && d.freeblks > 0
    ensures d.freelist < |d.img| && d.img[d.freelist].Free? && |l.free| > 0 && l.free[|l.free| - 1] < |l.role|
    ensures Inv(TakeDisk(d, d.img[d.freelist].next), TakeLayout(l), z)
  {
    hide FreeOK, RoleOK, NodeOK, TreeOK;
    HeadOfFree(d, l);
    var d', l' := TakeDisk(d, d.img[d.freelist].next), TakeLayout(l);
    TakeKeepsFree(d, l);
    forall b | 0 <= b < |l'.role| ensures RoleOK(l', b) {
      TakeKeepsRole(l, b);
    }
    NodesFrame(d, l, d', l', z);
    TreeFrame(l, l');
  }

  lemma TakeKeepsFree(d: Disk, l: Layout)
    requires SuperOK(d, l) && FreeOK(d, l) && d.freeblks > 0
    ensures |l.free| > 0 && Has(l, l.free[|l.free| - 1], ForFree(|l.free| - 1))
    ensures FreeOK(TakeDisk(d, l.free[|l.free| - 2]), TakeLayout(l))
  {
    HeadOfFree(d, l);
    var d', l' := TakeDisk(d, l.free[|l.free| - 2]), TakeLayout(l);
    forall k | 0 <= k < |l'.free| ensures FreeBlockOK(d'.img, l', k) {
      assert FreeBlockOK(d.img, l, k);
    }
  }

  lemma TakeKeepsRole(l: Layout, b: nat)
    requires |l.free| > 0 && l.free[|l.free| - 1] < |l.role| && b < |l.role|
    requires RoleOK(l, b)
    ensures RoleOK(TakeLayout(l), b)
  {
  }

  lemma TreeFrame(l: Layout, l': Layout)
    requires TreeOK(l) && l'.nodes == l.nodes
    ensures TreeOK(l')
  {
    forall h | h in l.nodes && h != ROOT ensures PlaceOK(l', h) {
      assert PlaceOK(l, h);
    }
    forall h | h in l.nodes && l.nodes[h].dir ensures EntriesOK(l', h) {
      assert EntriesOK(l, h);
    }
  }

  // ---------------------------------------------------------------------------------------------
  // fs_put_block
  // ---------------------------------------------------------------------------------------------

  ghost function GiveDisk(d: Disk, b: nat): Disk
    requires 0 < b < |d.img|
  {
    Disk(d.img[b := Free(d.freelist)][0 := Super(d.freeblks + 1, b)], b, d.freeblks + 1)
  }

  ghost function GiveLayout(l: Layout, b: nat): Layout
    requires b < |l.role|
  {
    l.(role := l.role[b := ForFree(|l.free|)], free := l.free + [b])
  }

  lemma GiveKeeps(d: Disk, l: Layout, z: nat, b: nat)
    requires Inv(d, l, z) && Has(l, b, Loose)
    ensures Inv(GiveDisk(d, b), GiveLayout(l, b), z)
  {
    hide FreeOK, RoleOK, NodeOK, TreeOK;
    var d', l' := GiveDisk(d, b), GiveLayout(l, b);
    GiveKeepsFree(d, l, b);
    forall c | 0 <= c < |l'.role| ensures RoleOK(l', c) {
      GiveKeepsRole(l, b, c);
    }
    NodesFrame(d, l, d', l', z);
    TreeFrame(l, l');
  }

  lemma GiveKeepsFree(d: Disk, l: Layout, b: nat)
    requires SuperOK(d, l) && FreeOK(d, l) && Has(l, b, Loose)
    ensures FreeOK(GiveDisk(d, b), GiveLayout(l, b))
  {
    var d', l' := GiveDisk(d, b), GiveLayout(l, b);
    forall k | 0 <= k < |l'.free| ensures FreeBlockOK(d'.img, l', k) {
      if k < |l.free| {
        assert FreeBlockOK(d.img, l, k);
      }
    }
  }

  lemma GiveKeepsRole(l: Layout, b: nat, c: nat)
    requires Has(l, b, Loose) && c < |l.role| && RoleOK(l, c)
    ensures RoleOK(GiveLayout(l, b), c)
  {
  }

  // ---------------------------------------------------------------------------------------------
  // Writing to a block that nothing uses yet
  // ---------------------------------------------------------------------------------------------

  ghost function WriteDisk(d: Disk, b: nat, x: Block): Disk
    requires b < |d.img|
  {
    d.(img := d.img[b := x])
  }

  lemma WriteKeeps(d: Disk, l: Layout, z: nat, b: nat, x: Block)
    requires Inv(d, l, z) && Has(l, b, Loose)
    ensures Inv(WriteDisk(d, b, x), l, z)
  {
    hide RoleOK, NodeOK, TreeOK;
    var d' := WriteDisk(d, b, x);
    forall k | 0 <= k < |l.free| ensures FreeBlockOK(d'.img, l, k) {
      assert FreeBlockOK(d.img, l, k);
    }
    NodesFrame(d, l, d', l, z);
  }

  // ---------------------------------------------------------------------------------------------
  // Adding a data block to a file
  // ---------------------------------------------------------------------------------------------

  /** Every block of the file so far is full, so another can follow. */
  ghost predicate AllFull(l: Layout, n: Node) {
    && |n.data| == |n.parts|
    && (forall j :: 0 <= j < |n.parts| ==> |n.data[j]| == |n.parts[j]|)
    && forall j, i :: 0 <= j < |n.parts| && 0 <= i < |n.parts[j]| ==> |n.data[j][i]| == l.blksz
  }

  /** One more block at the end of the last inode. */
  ghost function Longer(n: Node, b: nat, bytes: seq<byte>): Node
    requires |n.parts| == |n.data| >= 1
  {
    var t := |n.parts| - 1;
    n.(parts := n.parts[t := n.parts[t] + [b]], data := n.data[t := n.data[t] + [bytes]])
  }

  /** One more inode with one block. */
  ghost function Deeper(n: Node, c: nat, b: nat, bytes: seq<byte>): Node {
    n.(chain := n.chain + [c], parts := n.parts + [[b]], data := n.data + [[bytes]])
  }

  lemma LongerContents(n: Node, b: nat, bytes: seq<byte>)
    requires |n.parts| == |n.data| >= 1
    ensures Contents(Longer(n, b, bytes)) == Contents(n) + bytes
  {
    var t := |n.data| - 1;
    var init := n.data[..t];
    assert n.data == init + [n.data[t]];
    assert Longer(n, b, bytes).data == init + [n.data[t] + [bytes]];
    ConcatAppend(init, [n.data[t]]);
    ConcatAppend(init, [n.data[t] + [bytes]]);
    ConcatOne(n.data[t]);
    ConcatOne(n.data[t] + [bytes]);
    assert Concat(Longer(n, b, bytes).data) == Concat(n.data) + [bytes];
    ConcatAppend(Concat(n.data), [bytes]);
    ConcatOne(bytes);
  }

  lemma DeeperContents(n: Node, c: nat, b: nat, bytes: seq<byte>)
    ensures Contents(Deeper(n, c, b, bytes)) == Contents(n) + bytes
  {
    ConcatAppend(n.data, [[bytes]]);
    ConcatOne([bytes]);
    ConcatAppend(Concat(n.data), [bytes]);
    ConcatOne(bytes);
  }

  ghost function AppendLayout(l: Layout, h: nat, b: nat, bytes: seq<byte>): Layout
    requires h in l.nodes && b < |l.role| && |l.nodes[h].parts| == |l.nodes[h].data| >= 1
  {
    var n := l.nodes[h];
    l.(role := l.role[b := ForData(h, |n.parts| - 1, |n.parts[|n.parts| - 1]|)],
       nodes := l.nodes[h := Longer(n, b, bytes)])
  }

  ghost function DeepenLayout(l: Layout, h: nat, c: nat, b: nat, bytes: seq<byte>): Layout
    requires h in l.nodes && b < |l.role| && c < |l.role|
  {
    var n := l.nodes[h];
    l.(role := l.role[b := ForData(h, |n.parts|, 0)][c := ForChild(h, |n.parts|)],
       nodes := l.nodes[h := Deeper(n, c, b, bytes)])
  }

  predicate Links(x: Block, y: Block, k: nat, b: nat) {
    && x.Inode? && y.Inode? && k + 1 < |x.links|
    && y == x.(links := x.links[k := b][k + 1 := 0])
  }

  lemma LinkedOneMore(links: seq<nat>, items: seq<nat>, max: nat, b: nat)
    requires Linked(links, items, max) && |items| < max && b != 0
    ensures Linked(links[|items| := b][|items| + 1 := 0], items + [b], max)
  {
  }

  /** The image after linking b at the end of the last inode of file h. */
  ghost predicate Appended(d: Disk, l: Layout, d': Disk, h: nat, b: nat, inc: nat)
    requires h in l.nodes && |d.img| == |l.role| && NodeRoles(l, h)
  {
    var n := l.nodes[h];
    var t := n.chain[|n.chain| - 1];
    && |d'.img| == |d.img| && d'.freelist == d.freelist && d'.freeblks == d.freeblks
    && t < |d.img| && n.meta < |d.img|
    && Links(d.img[t], d'.img[t], |n.parts[|n.parts| - 1]|, b)
    && d.img[n.meta].Info? && d'.img[n.meta] == d.img[n.meta].(size := d.img[n.meta].size + inc)
    && forall c :: 0 <= c < |d.img| && c != t && c != n.meta ==> d'.img[c] == d.img[c]
  }

  lemma AppendKeeps(d: Disk, l: Layout, d': Disk, z: nat, h: nat, b: nat, bytes: seq<byte>)
    requires Inv(d, l, z) && h in l.nodes && h != z && !l.nodes[h].dir && AllFull(l, l.nodes[h])
    requires |l.nodes[h].parts| >= 1 && |l.nodes[h].parts[|l.nodes[h].parts| - 1]| < l.max
    requires Has(l, b, Loose) && d.img[b] == Data(bytes) && 0 < |bytes| <= l.blksz
    requires NodeRoles(l, h) && Appended(d, l, d', h, b, |bytes|)
    ensures Inv(d', AppendLayout(l, h, b, bytes), z)
  {
    hide NodeRoles, ShapeOK, NodeImage, RoleOK, TreeOK, Appended;
    var l' := AppendLayout(l, h, b, bytes);
    assert NodeOK(d.img, l, h, z);
    TailOwned(l, h);
    AppendKeepsFree(d, l, d', h, b, bytes);
    forall c | 0 <= c < |l'.role| ensures RoleOK(l', c) {
      assert RoleOK(l, c);
      AppendKeepsRole(l, h, b, bytes, c);
    }
    forall g | g in l'.nodes ensures NodeOK(d'.img, l', g, z) {
      assert NodeOK(d.img, l, g, z);
      if g == h {
        AppendKeepsHere(d, l, d', z, h, b, bytes);
      } else {
        AppendKeepsOther(d, l, d', z, h, b, bytes, g);
      }
    }
    TreeOfFile(l, l', h);
  }

  /** The last inode of a chain belongs to its node. */
  lemma TailOwned(l: Layout, h: nat)
    requires h in l.nodes && NodeRoles(l, h)
    ensures var n := l.nodes[h];
            && |n.chain| == |n.parts| >= 1
            && In(l, n.chain[|n.chain| - 1]) && Owner(l.role[n.chain[|n.chain| - 1]]) == h
            && In(l, n.meta) && l.role[n.meta] == ForMeta(h) && h > 0
  {
    var n := l.nodes[h];
    assert |n.chain| > 1 ==> Has(l, n.chain[|n.chain| - 1], ForChild(h, |n.chain| - 1));
  }

  lemma AppendKeepsFree(d: Disk, l: Layout, d': Disk, h: nat, b: nat, bytes: seq<byte>)
    requires SuperOK(d, l) && FreeOK(d, l) && h in l.nodes && NodeRoles(l, h)
    requires |l.nodes[h].parts| == |l.nodes[h].data| >= 1
    requires Has(l, b, Loose) && Appended(d, l, d', h, b, |bytes|)
    ensures SuperOK(d', AppendLayout(l, h, b, bytes)) && FreeOK(d', AppendLayout(l, h, b, bytes))
  {
    TailOwned(l, h);
    var l' := AppendLayout(l, h, b, bytes);
    forall k | 0 <= k < |l.free| ensures FreeBlockOK(d'.img, l', k) {
      assert FreeBlockOK(d.img, l, k);
    }
  }

  lemma AppendKeepsRole(l: Layout, h: nat, b: nat, bytes: seq<byte>, c: nat)
    requires h in l.nodes && Has(l, b, Loose) && c < |l.role| && RoleOK(l, c) && !l.nodes[h].dir
    requires |l.nodes[h].parts| == |l.nodes[h].data| >= 1
    ensures RoleOK(AppendLayout(l, h, b, bytes), c)
  {
  }

  lemma AppendKeepsOther(d: Disk, l: Layout, d': Disk, z: nat, h: nat, b: nat, bytes: seq<byte>, g: nat)
    requires SuperOK(d, l) && h in l.nodes && NodeRoles(l, h) && |l.nodes[h].parts| == |l.nodes[h].data| >= 1
    requires Has(l, b, Loose) && Appended(d, l, d', h, b, |bytes|)
    requires g in l.nodes && g != h && NodeOK(d.img, l, g, z)
    ensures NodeOK(d'.img, AppendLayout(l, h, b, bytes), g, z)
  {
    TailOwned(l, h);
    NodeFrame(d.img, l, d'.img, AppendLayout(l, h, b, bytes), g, z, z);
  }

  /** A file may change its blocks without the tree noticing. */
  lemma TreeOfFile(l: Layout, l': Layout, h: nat)
    requires TreeOK(l) && h in l.nodes && h in l'.nodes && !l.nodes[h].dir
    requires l'.nodes == l.nodes[h := l'.nodes[h]] && |l'.nodes[h].parts| >= 1
    requires var n, n' := l.nodes[h], l'.nodes[h];
             !n'.dir && n'.parent == n.parent && n'.depth == n.depth && n'.name == n.name
    ensures TreeOK(l')
  {
    forall g | g in l'.nodes && g != ROOT ensures PlaceOK(l', g) {
      assert PlaceOK(l, g);
    }
    forall g | g in l'.nodes && l'.nodes[g].dir ensures EntriesOK(l', g) {
      SameEntries(l, l', h, g);
    }
  }

  lemma SameEntries(l: Layout, l': Layout, h: nat, g: nat)
    requires h in l.nodes && h in l'.nodes && l'.nodes == l.nodes[h := l'.nodes[h]]
    requires l'.nodes[h].parent == l.nodes[h].parent && l'.nodes[h].name == l.nodes[h].name
    requires g in l.nodes && g != h && |l.nodes[g].parts| >= 1 && EntriesOK(l, g)
    ensures EntriesOK(l', g)
  {
    assert forall i :: 0 <= i < |Entries(l.nodes[g])| ==>
             && Entries(l.nodes[g])[i] in l'.nodes
             && l'.nodes[Entries(l.nodes[g])[i]].name == l.nodes[Entries(l.nodes[g])[i]].name;
  }

  lemma AppendKeepsHere(d: Disk, l: Layout, d': Disk, z: nat, h: nat, b: nat, bytes: seq<byte>)
    requires SuperOK(d, l) && h in l.nodes && h != z && !l.nodes[h].dir && AllFull(l, l.nodes[h])
    requires |l.nodes[h].parts| >= 1 && |l.nodes[h].parts[|l.nodes[h].parts| - 1]| < l.max
    requires Has(l, b, Loose) && d.img[b] == Data(bytes) && 0 < |bytes| <= l.blksz
    requires NodeOK(d.img, l, h, z) && Appended(d, l, d', h, b, |bytes|)
    ensures NodeOK(d'.img, AppendLayout(l, h, b, bytes), h, z)
  {
    hide NodeImage, Appended;
    AppendRoles(l, h, b, bytes);
    AppendShape(l, h, b, bytes);
    AppendImage(d, l, d', z, h, b, bytes);
  }

  lemma AppendRoles(l: Layout, h: nat, b: nat, bytes: seq<byte>)
    requires h in l.nodes && !l.nodes[h].dir && |l.nodes[h].parts| == |l.nodes[h].data| >= 1
    requires Has(l, b, Loose) && NodeRoles(l, h)
    ensures NodeRoles(AppendLayout(l, h, b, bytes), h)
  {
    var l' := AppendLayout(l, h, b, bytes);
    var n, n' := l.nodes[h], l'.nodes[h];
    forall j | 1 <= j < |n'.chain| ensures Has(l', n'.chain[j], ForChild(h, j)) {
      assert Has(l, n.chain[j], ForChild(h, j));
    }
    forall j, i | 0 <= j < |n'.parts| && 0 <= i < |n'.parts[j]| ensures Has(l', n'.parts[j][i], ForData(h, j, i)) {
      if i < |n.parts[j]| {
        assert Has(l, n.parts[j][i], ForData(h, j, i));
      }
    }
  }

  lemma AppendShape(l: Layout, h: nat, b: nat, bytes: seq<byte>)
    requires h in l.nodes && !l.nodes[h].dir && AllFull(l, l.nodes[h]) && ShapeOK(l, l.nodes[h])
    requires |l.nodes[h].parts[|l.nodes[h].parts| - 1]| < l.max && b < |l.role|
    requires 0 < |bytes| <= l.blksz
    ensures ShapeOK(AppendLayout(l, h, b, bytes), AppendLayout(l, h, b, bytes).nodes[h])
  {
    var l' := AppendLayout(l, h, b, bytes);
    var n, n' := l.nodes[h], l'.nodes[h];
    forall j, i | 0 <= j < |n'.parts| && 0 <= i < |n'.parts[j]|
      ensures ChunkOK(n'.data[j][i], l.blksz, j + 1 == |n'.parts| && i + 1 == |n'.parts[j]|)
    {
      if i < |n.parts[j]| {
        assert n'.data[j][i] == n.data[j][i];
      }
    }
  }

  lemma AppendImage(d: Disk, l: Layout, d': Disk, z: nat, h: nat, b: nat, bytes: seq<byte>)
    requires SuperOK(d, l) && h in l.nodes && h != z && !l.nodes[h].dir
    requires |l.nodes[h].parts| >= 1 && |l.nodes[h].parts[|l.nodes[h].parts| - 1]| < l.max
    requires Has(l, b, Loose) && d.img[b] == Data(bytes)
    requires NodeOK(d.img, l, h, z) && Appended(d, l, d', h, b, |bytes|)
    requires NodeRoles(AppendLayout(l, h, b, bytes), h)
    requires ShapeOK(AppendLayout(l, h, b, bytes), AppendLayout(l, h, b, bytes).nodes[h])
    ensures NodeImage(d'.img, AppendLayout(l, h, b, bytes), h, z)
  {
    var l' := AppendLayout(l, h, b, bytes);
    var n, n' := l.nodes[h], l'.nodes[h];
    TailOwned(l, h);
    LongerContents(n, b, bytes);
    AppendLinked(d, l, d', z, h, b, bytes);
    forall j | 1 <= j < |n'.chain| ensures ChildOK(d'.img, l', h, j) {
      AppendChildInode(d, l, d', z, h, b, bytes, j);
    }
    forall j, i | 0 <= j < |n'.parts| && 0 <= i < |n'.parts[j]| ensures d'.img[n'.parts[j][i]] == Data(n'.data[j][i]) {
      AppendData(d, l, d', z, h, b, bytes, j, i);
    }
  }

  lemma AppendChildInode(d: Disk, l: Layout, d': Disk, z: nat, h: nat, b: nat, bytes: seq<byte>, j: nat)
    requires SuperOK(d, l) && h in l.nodes && h != z && !l.nodes[h].dir && Has(l, b, Loose)
    requires |l.nodes[h].parts| >= 1 && |l.nodes[h].parts[|l.nodes[h].parts| - 1]| < l.max
    requires NodeOK(d.img, l, h, z) && Appended(d, l, d', h, b, |bytes|) && 1 <= j < |l.nodes[h].chain|
    ensures ChildOK(d'.img, AppendLayout(l, h, b, bytes), h, j)
  {
    var n := l.nodes[h];
    var t := |n.chain| - 1;
    TailOwned(l, h);
    AppendLinked(d, l, d', z, h, b, bytes);
    assert Has(l, n.chain[j], ForChild(h, j)) && ChildOK(d.img, l, h, j);
    assert Has(l, n.chain[t], ForChild(h, t));
  }

  lemma AppendData(d: Disk, l: Layout, d': Disk, z: nat, h: nat, b: nat, bytes: seq<byte>, j: nat, i: nat)
    requires SuperOK(d, l) && h in l.nodes && h != z && !l.nodes[h].dir && |l.nodes[h].parts| >= 1
    requires Has(l, b, Loose) && d.img[b] == Data(bytes)
    requires NodeOK(d.img, l, h, z) && Appended(d, l, d', h, b, |bytes|)
    requires var n' := Longer(l.nodes[h], b, bytes); j < |n'.parts| && i < |n'.parts[j]|
    ensures var n' := Longer(l.nodes[h], b, bytes);
            |n'.parts| == |n'.data| && |n'.parts[j]| == |n'.data[j]| && n'.parts[j][i] < |d.img|
            && d'.img[n'.parts[j][i]] == Data(n'.data[j][i])
  {
    var n := l.nodes[h];
    var t := |n.chain| - 1;
    TailOwned(l, h);
    assert t > 0 ==> Has(l, n.chain[t], ForChild(h, t));
    if i < |n.parts[j]| {
      assert Has(l, n.parts[j][i], ForData(h, j, i));
    }
  }

  lemma AppendLinked(d: Disk, l: Layout, d': Disk, z: nat, h: nat, b: nat, bytes: seq<byte>)
    requires SuperOK(d, l) && h in l.nodes && h != z && !l.nodes[h].dir && b != 0
    requires |l.nodes[h].parts| >= 1 && |l.nodes[h].parts[|l.nodes[h].parts| - 1]| < l.max
    requires NodeOK(d.img, l, h, z) && Appended(d, l, d', h, b, |bytes|)
    ensures var n := l.nodes[h];
            var t := |n.chain| - 1;
            && d'.img[n.chain[t]].Inode? && Linked(d'.img[n.chain[t]].links, n.parts[t] + [b], l.max)
            && (t > 0 ==> d'.img[h] == d.img[h])
  {
    var n := l.nodes[h];
    var t := |n.chain| - 1;
    TailOwned(l, h);
    if t > 0 {
      assert Has(l, n.chain[t], ForChild(h, t)) && ChildOK(d.img, l, h, t);
    }
    LinkedOneMore(d.img[n.chain[t]].links, n.parts[t], l.max, b);
  }

  // ---------------------------------------------------------------------------------------------
  // Adding a child inode with a data block to a file
  // ---------------------------------------------------------------------------------------------

  /** The image after chaining inode c, which links b, behind the last inode of file h. */
  ghost predicate Deepened(d: Disk, l: Layout, d': Disk, h: nat, c: nat, b: nat, inc: nat)
    requires h in l.nodes && |d.img| == |l.role| && NodeRoles(l, h)
  {
    var n := l.nodes[h];
    var t := n.chain[|n.chain| - 1];
    && |d'.img| == |d.img| && d'.freelist == d.freelist && d'.freeblks == d.freeblks
    && t < |d.img| && n.meta < |d.img| && c < |d.img|
    && d.img[t].Inode? && d'.img[t] == d.img[t].(next := c)
    && d'.img[c].Inode? && d'.img[c] == Inode(Child, h, t, 0, d'.img[c].links) && Linked(d'.img[c].links, [b], l.max)
    && d.img[n.meta].Info? && d'.img[n.meta] == d.img[n.meta].(size := d.img[n.meta].size + inc)
    && forall e :: 0 <= e < |d.img| && e != t && e != n.meta && e != c ==> d'.img[e] == d.img[e]
  }

  ghost predicate CanDeepen(d: Disk, l: Layout, h: nat, c: nat, b: nat, bytes: seq<byte>)
    requires |d.img| == |l.role|
  {
    && h in l.nodes && !l.nodes[h].dir && AllFull(l, l.nodes[h])
    && |l.nodes[h].parts| >= 1 && |l.nodes[h].parts[|l.nodes[h].parts| - 1]| == l.max > 0
    && Has(l, b, Loose) && d.img[b] == Data(bytes) && 0 < |bytes| <= l.blksz
    && Has(l, c, Loose) && b != c
  }

  lemma DeepenKeeps(d: Disk, l: Layout, d': Disk, z: nat, h: nat, c: nat, b: nat, bytes: seq<byte>)
    requires Inv(d, l, z) && h != z && CanDeepen(d, l, h, c, b, bytes)
    requires NodeRoles(l, h) && Deepened(d, l, d', h, c, b, |bytes|)
    ensures Inv(d', DeepenLayout(l, h, c, b, bytes), z)
  {
    hide NodeRoles, ShapeOK, NodeImage, RoleOK, TreeOK, Deepened;
    var l' := DeepenLayout(l, h, c, b, bytes);
    assert NodeOK(d.img, l, h, z);
    TailOwned(l, h);
    DeepenKeepsFree(d, l, d', h, c, b, bytes);
    forall e | 0 <= e < |l'.role| ensures RoleOK(l', e) {
      assert RoleOK(l, e);
      DeepenKeepsRole(l, h, c, b, bytes, e);
    }
    forall g | g in l'.nodes ensures NodeOK(d'.img, l', g, z) {
      assert NodeOK(d.img, l, g, z);
      if g == h {
        DeepenRoles(l, h, c, b, bytes);
        DeepenShape(l, h, c, b, bytes);
        DeepenImage(d, l, d', z, h, c, b, bytes);
      } else {
        DeepenKeepsOther(d, l, d', z, h, c, b, bytes, g);
      }
    }
    TreeOfFile(l, l', h);
  }

  lemma DeepenKeepsFree(d: Disk, l: Layout, d': Disk, h: nat, c: nat, b: nat, bytes: seq<byte>)
    requires SuperOK(d, l) && FreeOK(d, l) && CanDeepen(d, l, h, c, b, bytes)
    requires NodeRoles(l, h) && Deepened(d, l, d', h, c, b, |bytes|)
    ensures SuperOK(d', DeepenLayout(l, h, c, b, bytes)) && FreeOK(d', DeepenLayout(l, h, c, b, bytes))
  {
    TailOwned(l, h);
    var l' := DeepenLayout(l, h, c, b, bytes);
    forall k | 0 <= k < |l.free| ensures FreeBlockOK(d'.img, l', k) {
      assert FreeBlockOK(d.img, l, k);
    }
  }

  lemma DeepenKeepsRole(l: Layout, h: nat, c: nat, b: nat, bytes: seq<byte>, e: nat)
    requires h in l.nodes && Has(l, b, Loose) && Has(l, c, Loose) && b != c && !l.nodes[h].dir
    requires e < |l.role| && RoleOK(l, e) && |l.nodes[h].chain| == |l.nodes[h].parts| >= 1
    ensures RoleOK(DeepenLayout(l, h, c, b, bytes), e)
  {
  }

  lemma DeepenKeepsOther(d: Disk, l: Layout, d': Disk, z: nat, h: nat, c: nat, b: nat, bytes: seq<byte>, g: nat)
    requires SuperOK(d, l) && CanDeepen(d, l, h, c, b, bytes)
    requires NodeRoles(l, h) && Deepened(d, l, d', h, c, b, |bytes|)
    requires g in l.nodes && g != h && NodeOK(d.img, l, g, z)
    ensures NodeOK(d'.img, DeepenLayout(l, h, c, b, bytes), g, z)
  {
    hide ShapeOK, NodeImage, AllFull;
    TailOwned(l, h);
    NodeFrame(d.img, l, d'.img, DeepenLayout(l, h, c, b, bytes), g, z, z);
  }

  lemma DeepenRoles(l: Layout, h: nat, c: nat, b: nat, bytes: seq<byte>)
    requires h in l.nodes && !l.nodes[h].dir && NodeRoles(l, h)
    requires Has(l, b, Loose) && Has(l, c, Loose) && b != c
    ensures NodeRoles(DeepenLayout(l, h, c, b, bytes), h)
  {
    var l' := DeepenLayout(l, h, c, b, bytes);
    var n, n' := l.nodes[h], l'.nodes[h];
    forall j | 1 <= j < |n'.chain| ensures Has(l', n'.chain[j], ForChild(h, j)) {
      assert j < |n.chain| ==> Has(l, n.chain[j], ForChild(h, j));
    }
    forall j, i | 0 <= j < |n'.parts| && 0 <= i < |n'.parts[j]| ensures Has(l', n'.parts[j][i], ForData(h, j, i)) {
      assert j < |n.parts| ==> Has(l, n.parts[j][i], ForData(h, j, i));
    }
  }

  lemma DeepenShape(l: Layout, h: nat, c: nat, b: nat, bytes: seq<byte>)
    requires h in l.nodes && !l.nodes[h].dir && AllFull(l, l.nodes[h]) && ShapeOK(l, l.nodes[h])
    requires |l.nodes[h].parts[|l.nodes[h].parts| - 1]| == l.max > 0 && b < |l.role| && c < |l.role|
    requires 0 < |bytes| <= l.blksz
    ensures ShapeOK(DeepenLayout(l, h, c, b, bytes), DeepenLayout(l, h, c, b, bytes).nodes[h])
  {
    var l' := DeepenLayout(l, h, c, b, bytes);
    var n, n' := l.nodes[h], l'.nodes[h];
    forall j, i | 0 <= j < |n'.parts| && 0 <= i < |n'.parts[j]|
      ensures ChunkOK(n'.data[j][i], l.blksz, j + 1 == |n'.parts| && i + 1 == |n'.parts[j]|)
    {
      assert j < |n.parts| ==> n'.data[j][i] == n.data[j][i];
    }
  }

  lemma DeepenMeta(d: Disk, l: Layout, d': Disk, z: nat, h: nat, c: nat, b: nat, bytes: seq<byte>)
    requires SuperOK(d, l) && h != z && CanDeepen(d, l, h, c, b, bytes)
    requires NodeOK(d.img, l, h, z) && Deepened(d, l, d', h, c, b, |bytes|)
    ensures var n' := Deeper(l.nodes[h], c, b, bytes);
            && n'.meta == l.nodes[h].meta < |d'.img| && d'.img[n'.meta].Info? && d'.img[n'.meta].name == n'.name
            && |n'.parts| >= 1 && d'.img[n'.meta].size == Size(n')
  {
    TailOwned(l, h);
    DeeperContents(l.nodes[h], c, b, bytes);
  }

  lemma DeepenImage(d: Disk, l: Layout, d': Disk, z: nat, h: nat, c: nat, b: nat, bytes: seq<byte>)
    requires SuperOK(d, l) && h != z && CanDeepen(d, l, h, c, b, bytes)
    requires NodeOK(d.img, l, h, z) && Deepened(d, l, d', h, c, b, |bytes|)
    requires NodeRoles(DeepenLayout(l, h, c, b, bytes), h)
    requires ShapeOK(DeepenLayout(l, h, c, b, bytes), DeepenLayout(l, h, c, b, bytes).nodes[h])
    ensures NodeImage(d'.img, DeepenLayout(l, h, c, b, bytes), h, z)
  {
    hide NodeImage, HeadOK, ChildOK, NodeOK, NodeRoles, Deepened;
    var l' := DeepenLayout(l, h, c, b, bytes);
    var n' := l'.nodes[h];
    SameLength(d, l, d', z, h, c, b, |bytes|);
    DeepenMeta(d, l, d', z, h, c, b, bytes);
    DeepenHead(d, l, d', z, h, c, b, bytes);
    forall j | 1 <= j < |n'.chain|
      ensures n'.chain[j] < |d'.img| && ChildOK(d'.img, l', h, j)
    {
      DeepenChildInode(d, l, d', z, h, c, b, bytes, j);
    }
    forall j, i | 0 <= j < |n'.parts| && 0 <= i < |n'.parts[j]|
      ensures n'.parts[j][i] < |d'.img| && d'.img[n'.parts[j][i]] == Data(n'.data[j][i])
    {
      DeepenData(d, l, d', z, h, c, b, bytes, j, i);
    }
    FileImage(d'.img, l', h, z);
  }

  lemma SameLength(d: Disk, l: Layout, d': Disk, z: nat, h: nat, c: nat, b: nat, inc: nat)
    requires h in l.nodes && |d.img| == |l.role| && NodeOK(d.img, l, h, z) && Deepened(d, l, d', h, c, b, inc)
    ensures |d'.img| == |d.img|
  {
  }

  /** What makes up the image of a file. */
  lemma FileImage(img: seq<Block>, l: Layout, h: nat, z: nat)
    requires h in l.nodes && h != z && !l.nodes[h].dir && |img| == |l.role| && NodeRoles(l, h) && ShapeOK(l, l.nodes[h])
    requires img[l.nodes[h].meta].Info? && img[l.nodes[h].meta].name == l.nodes[h].name
    requires img[l.nodes[h].meta].size == Size(l.nodes[h]) && HeadOK(img, l, h)
    requires forall j :: 1 <= j < |l.nodes[h].chain| ==> ChildOK(img, l, h, j)
    requires forall j, i :: 0 <= j < |l.nodes[h].parts| && 0 <= i < |l.nodes[h].parts[j]| ==>
                              img[l.nodes[h].parts[j][i]] == Data(l.nodes[h].data[j][i])
    ensures NodeImage(img, l, h, z)
  {
  }

  lemma DeepenHead(d: Disk, l: Layout, d': Disk, z: nat, h: nat, c: nat, b: nat, bytes: seq<byte>)
    requires SuperOK(d, l) && h != z && CanDeepen(d, l, h, c, b, bytes)
    requires NodeOK(d.img, l, h, z) && Deepened(d, l, d', h, c, b, |bytes|)
    ensures HeadOK(d'.img, DeepenLayout(l, h, c, b, bytes), h)
  {
    var n := l.nodes[h];
    TailOwned(l, h);
    assert |n.chain| > 1 ==> Has(l, n.chain[|n.chain| - 1], ForChild(h, |n.chain| - 1));
  }

  lemma DeepenChildInode(d: Disk, l: Layout, d': Disk, z: nat, h: nat, c: nat, b: nat, bytes: seq<byte>, j: nat)
    requires SuperOK(d, l) && h != z && CanDeepen(d, l, h, c, b, bytes)
    requires NodeOK(d.img, l, h, z) && Deepened(d, l, d', h, c, b, |bytes|) && 1 <= j <= |l.nodes[h].chain|
    ensures DeepenLayout(l, h, c, b, bytes).nodes[h].chain[j] < |d'.img|
    ensures ChildOK(d'.img, DeepenLayout(l, h, c, b, bytes), h, j)
  {
    hide ShapeOK, AllFull, HeadOK, Linked, Size;
    var n := l.nodes[h];
    TailOwned(l, h);
    if j < |n.chain| {
      assert Has(l, n.chain[j], ForChild(h, j)) && ChildOK(d.img, l, h, j);
      assert Has(l, n.chain[|n.chain| - 1], ForChild(h, |n.chain| - 1));
    }
  }

  lemma DeepenData(d: Disk, l: Layout, d': Disk, z: nat, h: nat, c: nat, b: nat, bytes: seq<byte>, j: nat, i: nat)
    requires SuperOK(d, l) && h != z && CanDeepen(d, l, h, c, b, bytes)
    requires NodeOK(d.img, l, h, z) && Deepened(d, l, d', h, c, b, |bytes|)
    requires var n' := Deeper(l.nodes[h], c, b, bytes); j < |n'.parts| && i < |n'.parts[j]|
    ensures var n' := Deeper(l.nodes[h], c, b, bytes);
            |n'.parts| == |n'.data| && |n'.parts[j]| == |n'.data[j]| && n'.parts[j][i] < |d.img|
            && d'.img[n'.parts[j][i]] == Data(n'.data[j][i])
  {
    var n := l.nodes[h];
    TailOwned(l, h);
    assert |n.chain| > 1 ==> Has(l, n.chain[|n.chain| - 1], ForChild(h, |n.chain| - 1));
    if j < |n.parts| {
      assert Has(l, n.parts[j][i], ForData(h, j, i));
    }
  }
}
