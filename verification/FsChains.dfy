/** Chains of inodes as the code walks and extends them, whatever the linked blocks are used for. */
module FsChains {
  import opened Common
  import opened FsLayout
  import opened FsSteps
  import opened FsReading

  /** The j-th inode of a chain, with its links. */
  ghost predicate InodeOn(img: seq<Block>, chain: seq<nat>, parts: seq<seq<nat>>, max: nat, j: nat)
    requires j < |chain| == |parts|
  {
    && 0 < chain[j] < |img| && img[chain[j]].Inode? && Linked(img[chain[j]].links, parts[j], max)
    && img[chain[j]].next == (if j + 1 < |chain| then chain[j + 1] else 0)
    && (img[chain[j]].mode == Child <==> j > 0)
    && (j > 0 ==> img[chain[j]].parent == chain[0])
  }

  /** All inodes but the last are full. */
  ghost predicate Threaded(img: seq<Block>, chain: seq<nat>, parts: seq<seq<nat>>, max: nat) {
    && |chain| == |parts| >= 1
    && (forall j :: 0 <= j < |chain| ==> InodeOn(img, chain, parts, max, j))
    && (forall j :: 0 <= j < |parts| - 1 ==> |parts[j]| == max)
    && (forall i, j :: 0 <= i < j < |chain| ==> chain[i] != chain[j])
  }

  function Last<T>(s: seq<T>): T
    requires s != []
  {
    s[|s| - 1]
  }

  /** The last inode has no room. */
  predicate TailFull(parts: seq<seq<nat>>, max: nat)
    requires parts != []
  {
    |Last(parts)| >= max
  }

  /** Blocks that one more link takes, with its data block. */
  function Need(parts: seq<seq<nat>>, max: nat): nat
    requires parts != []
  {
    if TailFull(parts, max) then 2 else 1
  }

  ghost predicate HasMeta(img: seq<Block>, h: nat) {
    h < |img| && img[h].Inode? && 0 < img[h].meta < |img| && img[img[h].meta].Info?
  }

  /** How much the size recorded for an entity grows with one more link. */
  ghost function Increment(img: seq<Block>, h: nat, nbytes: nat): nat {
    if h < |img| && img[h].Inode? && img[h].mode == Directory then 1 else nbytes
  }

  /** What the code sees of the j-th inode. */
  lemma {:induction false} InodeOf(img: seq<Block>, chain: seq<nat>, parts: seq<seq<nat>>, max: nat, j: nat)
    requires Threaded(img, chain, parts, max) && j < |chain|
    ensures |chain| == |parts| && 0 < chain[j] < |img| && img[chain[j]].Inode? && 0 in img[chain[j]].links
    ensures Linked(img[chain[j]].links, parts[j], max) && |parts[j]| <= max
    ensures |parts[j]| < |img[chain[j]].links| && img[chain[j]].links[|parts[j]|] == 0
    ensures forall i :: 0 <= i < |parts[j]| ==> img[chain[j]].links[i] != 0
    ensures img[chain[j]].next == (if j + 1 < |chain| then chain[j + 1] else 0)
    ensures j + 1 < |chain| ==> chain[j + 1] != 0 && |parts[j]| == max
    ensures (img[chain[j]].mode == Child <==> j > 0) && (j > 0 ==> img[chain[j]].parent == chain[0])
  {
    assert InodeOn(img, chain, parts, max, j);
    assert j + 1 < |chain| ==> InodeOn(img, chain, parts, max, j + 1);
    LinkedItems(img[chain[j]].links, parts[j], max);
  }

  lemma NonEmpty(img: seq<Block>, chain: seq<nat>, parts: seq<seq<nat>>, max: nat)
    requires Threaded(img, chain, parts, max)
    ensures |chain| == |parts| >= 1
  {
  }

  lemma {:induction false} NodeIsThreaded(d: Disk, l: Layout, z: nat, h: nat)
    requires Inv(d, l, z) && h in l.nodes && h != z
    ensures Threaded(d.img, l.nodes[h].chain, l.nodes[h].parts, l.max) && l.nodes[h].chain[0] == h
    ensures HasMeta(d.img, h) && d.img[h].meta == l.nodes[h].meta
    ensures TailFull(l.nodes[h].parts, l.max) <==> LastFull(l, l.nodes[h])
  {
    hide Inv;
    var n := l.nodes[h];
    NodeShape(d, l, z, h);
    HeadAt(d, l, z, h);
    forall j | 0 <= j < |n.chain|
      ensures InodeOn(d.img, n.chain, n.parts, l.max, j)
    {
      hide ShapeOK, NodeRoles, Linked;
      InodeAt(d, l, z, h, j);
      if j > 0 {
        ChildAt(d, l, z, h, j);
      }
    }
    forall i, j | 0 <= i < j < |n.chain|
      ensures n.chain[i] != n.chain[j]
    {
      assert Has(l, n.chain[j], ForChild(h, j));
      assert i > 0 ==> Has(l, n.chain[i], ForChild(h, i));
    }
  }

  lemma {:induction false} ThreadedFrame(img: seq<Block>, img': seq<Block>, chain: seq<nat>, parts: seq<seq<nat>>, max: nat)
    requires Threaded(img, chain, parts, max) && |img'| == |img|
    requires forall j :: 0 <= j < |chain| ==> chain[j] < |img| && img'[chain[j]] == img[chain[j]]
    ensures Threaded(img', chain, parts, max)
  {
    hide Linked;
    forall j | 0 <= j < |chain|
      ensures InodeOn(img', chain, parts, max, j)
    {
      assert InodeOn(img, chain, parts, max, j);
    }
  }

  /** Taking a block changes only the superblock. */
  lemma {:induction false} ThreadedAfterTake(d: Disk, next: nat, chain: seq<nat>, parts: seq<seq<nat>>, max: nat)
    requires |d.img| > 0 && d.freeblks > 0 && Threaded(d.img, chain, parts, max)
    ensures Threaded(TakeDisk(d, next).img, chain, parts, max)
    ensures HasMeta(d.img, chain[0]) ==>
              HasMeta(TakeDisk(d, next).img, chain[0]) && TakeDisk(d, next).img[chain[0]] == d.img[chain[0]]
  {
    forall j | 0 <= j < |chain|
      ensures 0 < chain[j] < |d.img|
    {
      assert InodeOn(d.img, chain, parts, max, j);
    }
    ThreadedFrame(d.img, TakeDisk(d, next).img, chain, parts, max);
  }

  /** Writing a block that is no inode of the chain. */
  lemma {:induction false} ThreadedAfterWrite(d: Disk, b: nat, x: Block, chain: seq<nat>, parts: seq<seq<nat>>, max: nat)
    requires b < |d.img| && !d.img[b].Inode? && Threaded(d.img, chain, parts, max)
    ensures Threaded(WriteDisk(d, b, x).img, chain, parts, max)
    ensures HasMeta(d.img, chain[0]) && !d.img[b].Info? ==>
              HasMeta(WriteDisk(d, b, x).img, chain[0]) && WriteDisk(d, b, x).img[chain[0]] == d.img[chain[0]]
  {
    forall j | 0 <= j < |chain|
      ensures chain[j] < |d.img| && chain[j] != b
    {
      assert InodeOn(d.img, chain, parts, max, j);
    }
    ThreadedFrame(d.img, WriteDisk(d, b, x).img, chain, parts, max);
  }

  // ---------------------------------------------------------------------------------------------
  // One more link
  // ---------------------------------------------------------------------------------------------

  function LongerTail(parts: seq<seq<nat>>, b: nat): (r: seq<seq<nat>>)
    requires parts != []
    ensures |r| == |parts|
  {
    parts[|parts| - 1 := Last(parts) + [b]]
  }

  /** Block b was linked behind the last link of the last inode, and counted. */
  ghost predicate LinkedBehind(img: seq<Block>, img': seq<Block>, chain: seq<nat>, parts: seq<seq<nat>>, b: nat, inc: nat) {
    && chain != [] && parts != [] && HasMeta(img, chain[0])
    && var t, k, m := Last(chain), |Last(parts)|, img[chain[0]].meta;
    && t < |img| && img[t].Inode? && k + 1 < |img[t].links|
    && img' == img[t := Relinked(img[t], k, b)][m := img[m].(size := img[m].size + inc)]
  }

  /** Block b was linked in a new inode c behind the last one, and counted. */
  ghost predicate LinkedInNew(img: seq<Block>, img': seq<Block>, chain: seq<nat>, c: nat, b: nat, inc: nat, max: nat) {
    && chain != [] && HasMeta(img, chain[0])
    && var t, m := Last(chain), img[chain[0]].meta;
    && t < |img| && img[t].Inode? && 0 < c < |img| && c != t && c != m && |img'| == |img|
    && img'[c].Inode? && Linked(img'[c].links, [b], max)
    && img' == img[t := img[t].(next := c)][c := Inode(Child, chain[0], t, 0, img'[c].links)]
                  [m := img[m].(size := img[m].size + inc)]
  }

  lemma {:induction false} LongerThreaded(img: seq<Block>, img': seq<Block>, chain: seq<nat>, parts: seq<seq<nat>>,
                                          max: nat, b: nat, inc: nat)
    requires Threaded(img, chain, parts, max) && !TailFull(parts, max) && b != 0
    requires LinkedBehind(img, img', chain, parts, b, inc)
    ensures Threaded(img', chain, LongerTail(parts, b), max) && HasMeta(img', chain[0])
    ensures img'[chain[0]] == img[chain[0]].(links := img'[chain[0]].links)
  {
    var parts' := LongerTail(parts, b);
    var n := |chain| - 1;
    assert InodeOn(img, chain, parts, max, n) && InodeOn(img, chain, parts, max, 0);
    LinkedOneMore(img[chain[n]].links, parts[n], max, b);
    hide Linked;
    forall j | 0 <= j < |chain|
      ensures InodeOn(img', chain, parts', max, j)
    {
      assert InodeOn(img, chain, parts, max, j);
    }
  }

  lemma {:induction false} DeeperThreaded(img: seq<Block>, img': seq<Block>, chain: seq<nat>, parts: seq<seq<nat>>,
                                          max: nat, c: nat, b: nat, inc: nat)
    requires Threaded(img, chain, parts, max) && |Last(parts)| == max
    requires LinkedInNew(img, img', chain, c, b, inc, max) && c < |img| && !img[c].Inode?
    ensures Threaded(img', chain + [c], parts + [[b]], max) && HasMeta(img', chain[0])
    ensures img'[chain[0]] == img[chain[0]].(next := img'[chain[0]].next)
  {
    var chain', parts' := chain + [c], parts + [[b]];
    hide Linked;
    assert InodeOn(img, chain, parts, max, 0);
    forall j | 0 <= j < |chain|
      ensures chain[j] != c
    {
      assert InodeOn(img, chain, parts, max, j);
    }
    forall j | 0 <= j < |chain'|
      ensures InodeOn(img', chain', parts', max, j)
    {
      if j < |chain| {
        assert InodeOn(img, chain, parts, max, j);
      }
    }
  }

  /** The links of a node in order: one more of them is the step of appending or deepening. */
  lemma {:induction false} BehindIsAppended(d: Disk, l: Layout, d': Disk, h: nat, b: nat, inc: nat)
    requires Inv(d, l, 0) && h in l.nodes && h != 0 && b != 0 && !LastFull(l, l.nodes[h])
    requires LinkedBehind(d.img, d'.img, l.nodes[h].chain, l.nodes[h].parts, b, inc) && d' == d.(img := d'.img)
    ensures NodeRoles(l, h) && |d.img| == |l.role| && Appended(d, l, d', h, b, inc)
  {
    hide Inv, ShapeOK, NodeRoles;
    NodeShape(d, l, 0, h);
    HeadAt(d, l, 0, h);
    NodeHead(l, h);
    AppendedBy(d, l, d', h, b, inc);
  }

  lemma NodeHead(l: Layout, h: nat)
    requires h in l.nodes && NodeRoles(l, h)
    ensures |l.nodes[h].chain| == |l.nodes[h].parts| >= 1 && l.nodes[h].chain[0] == h
  {
  }

  lemma {:induction false} InNewIsDeepened(d: Disk, l: Layout, d': Disk, h: nat, c: nat, b: nat, inc: nat)
    requires Inv(d, l, 0) && h in l.nodes && h != 0 && Has(l, c, Loose)
    requires LinkedInNew(d.img, d'.img, l.nodes[h].chain, c, b, inc, l.max) && d' == d.(img := d'.img)
    ensures NodeRoles(l, h) && |d.img| == |l.role| && Deepened(d, l, d', h, c, b, inc)
  {
    hide Inv, ShapeOK, NodeRoles, Linked;
    NodeShape(d, l, 0, h);
    HeadAt(d, l, 0, h);
    NodeHead(l, h);
    DeepenedBy(d, l, d', h, c, b, inc, d'.img[c].links);
  }

  /** The chunk written and linked behind: a file in order with the chunk at its end. */
  lemma {:induction false} WroteBehind(d0: Disk, l0: Layout, d: Disk, l: Layout, d': Disk, h: nat, b: nat, bytes: seq<byte>)
    requires AtRest(d0, l0) && CanGrow(l0, h) && TookHead(l0, l, b) && Inv(d, l, 0) && b < |d.img|
    requires d.img[b] == Data(bytes) && 0 < |bytes| <= l.blksz && !TailFull(l0.nodes[h].parts, l0.max)
    requires LinkedBehind(d.img, d'.img, l.nodes[h].chain, l.nodes[h].parts, b, |bytes|) && d' == d.(img := d'.img)
    ensures h in l.nodes && b < |l.role| && |l.nodes[h].parts| == |l.nodes[h].data| >= 1
    ensures AtRest(d', AppendLayout(l, h, b, bytes)) && GotChunk(l0, AppendLayout(l, h, b, bytes), h, bytes)
  {
    hide Inv, NodeRoles, ShapeOK, Appended, AllFull, GotChunk, LinkedBehind;
    NodeShape(d, l, 0, h);
    SameFullness(l0, l, l.nodes[h]);
    BehindIsAppended(d, l, d', h, b, |bytes|);
    OnlyTaken(l0, l, b);
    FinishAppend(d, l, d', h, b, bytes);
    ChunkAfterTake(l0, l, AppendLayout(l, h, b, bytes), h, bytes);
  }

  lemma OnlyTaken(l0: Layout, l: Layout, b: nat)
    requires (forall c :: 0 <= c < |l0.role| ==> l0.role[c] != Loose) && TookHead(l0, l, b)
    ensures OnlyLoose(l, b) && l.nodes == l0.nodes && l.max == l0.max && l.blksz == l0.blksz && |l.role| == |l0.role|
  {
  }

  lemma {:induction false} WroteInNew(d0: Disk, l0: Layout, l1: Layout, d: Disk, l: Layout, d': Disk, h: nat, b: nat, c: nat,
                                      bytes: seq<byte>)
    requires AtRest(d0, l0) && CanGrow(l0, h) && TookHead(l0, l1, b) && TookHead(l1, l, c) && Inv(d, l, 0)
    requires b < |d.img| && d.img[b] == Data(bytes) && 0 < |bytes| <= l.blksz && TailFull(l0.nodes[h].parts, l0.max)
    requires LinkedInNew(d.img, d'.img, l.nodes[h].chain, c, b, |bytes|, l.max) && d' == d.(img := d'.img)
    ensures AtRest(d', DeepenLayout(l, h, c, b, bytes)) && GotChunk(l0, DeepenLayout(l, h, c, b, bytes), h, bytes)
  {
    hide Inv, NodeRoles, Deepened, AllFull, GotChunk, LinkedInNew;
    NodeShape(d, l, 0, h);
    OnlyTaken(l0, l1, b);
    TakenToo(l1, l, b, c);
    SameFullness(l0, l, l.nodes[h]);
    InNewIsDeepened(d, l, d', h, c, b, |bytes|);
    FinishDeepen(d, l, d', h, c, b, bytes);
    ChunkAfterTake(l0, l, DeepenLayout(l, h, c, b, bytes), h, bytes);
  }

  lemma TakenToo(l0: Layout, l: Layout, b: nat, c: nat)
    requires OnlyLoose(l0, b) && TookHead(l0, l, c)
    ensures Has(l, b, Loose) && Has(l, c, Loose) && b != c
    ensures forall e :: 0 <= e < |l.role| && e != b && e != c ==> l.role[e] != Loose
    ensures l.nodes == l0.nodes && l.max == l0.max && l.blksz == l0.blksz && |l.role| == |l0.role|
  {
  }

  lemma GrowsOn(l: Layout, l': Layout, h: nat, bytes: seq<byte>)
    requires CanGrow(l, h) && GotChunk(l, l', h, bytes) && |bytes| == l.blksz
    ensures CanGrow(l', h)
  {
  }

  // ---------------------------------------------------------------------------------------------
  // Searching a directory
  // ---------------------------------------------------------------------------------------------

  /** Where the block with this number starts in the image. */
  function ByteOffset(b: nat, blksz: nat): nat {
    b * blksz
  }

  /** The search of a directory sees the links of the first inode, and then seeks to the byte whose offset is
      the number of the next inode.  These are all entries, and there is no seek, exactly if the directory has
      at most as many entries as an inode has links; otherwise the seek misses the next inode. */
  lemma {:induction false} SearchMissesIff(img: seq<Block>, chain: seq<nat>, parts: seq<seq<nat>>, max: nat, blksz: nat)
    requires Threaded(img, chain, parts, max) && blksz > 1 && (|parts| > 1 ==> Last(parts) != [])
    ensures |chain| >= 1 && chain[0] < |img| && img[chain[0]].Inode?
    ensures |Concat(parts)| <= max <==> img[chain[0]].next == 0
    ensures |Concat(parts)| <= max ==> parts[0] == Concat(parts)
    ensures |Concat(parts)| > max ==>
              && parts[0] == Concat(parts)[..max] && |chain| > 1
              && img[chain[0]].next == chain[1] != ByteOffset(chain[1], blksz)
  {
    hide Threaded;
    NonEmpty(img, chain, parts, max);
    InodeOf(img, chain, parts, max, 0);
    if |parts| > 1 {
      InodeOf(img, chain, parts, max, 1);
      LastIn(parts[1..]);
      assert |parts[0]| == max;
      NotItself(chain[1], blksz);
    } else {
      assert parts[1..] == [];
    }
  }

  lemma NotItself(b: nat, blksz: nat)
    requires b > 0 && blksz > 1
    ensures b < ByteOffset(b, blksz)
  {
  }

  lemma {:induction false} LastIn(parts: seq<seq<nat>>)
    requires parts != [] && Last(parts) != []
    ensures Concat(parts) != []
  {
    if |parts| > 1 {
      LastIn(parts[1..]);
    }
  }

  // ---------------------------------------------------------------------------------------------
  // The image determines a chain
  // ---------------------------------------------------------------------------------------------

  lemma {:induction false} LinkedOnce(links: seq<nat>, a: seq<nat>, max: nat, b: seq<nat>, max': nat)
    requires Linked(links, a, max) && Linked(links, b, max')
    ensures a == b && max == max'
  {
    LinkedItems(links, a, max);
    LinkedItems(links, b, max');
    assert |a| == |b|;
  }

  lemma {:induction false} ThreadedOnce(img: seq<Block>, a: seq<nat>, p: seq<seq<nat>>, max: nat,
                                        b: seq<nat>, q: seq<seq<nat>>, max': nat, j: nat)
    requires Threaded(img, a, p, max) && Threaded(img, b, q, max') && a[0] == b[0] && j < |a|
    ensures j < |b| && a[j] == b[j] && p[j] == q[j] && max == max'
    ensures j + 1 == |a| <==> j + 1 == |b|
  {
    hide Linked;
    if j > 0 {
      ThreadedOnce(img, a, p, max, b, q, max', j - 1);
      assert InodeOn(img, a, p, max, j - 1) && InodeOn(img, b, q, max', j - 1);
    }
    assert InodeOn(img, a, p, max, j) && InodeOn(img, b, q, max', j);
    LinkedOnce(img[a[j]].links, p[j], max, q[j], max');
    assert j + 1 < |a| ==> InodeOn(img, a, p, max, j + 1);
    assert j + 1 < |b| ==> InodeOn(img, b, q, max', j + 1);
  }
}
