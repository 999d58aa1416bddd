/** Overwriting a file.  Its blocks are freed but its inode keeps the links to them, and new blocks are
    linked behind the stale links.  So the file's old first block ends up in two places. */
module FsStale {
  import opened Common
  import opened FsLayout
  import opened FsSteps
  import opened FsTreeSteps
  import opened FsTree
  import opened FsReading
  import opened FsRemoval
  import opened FsChains
  import opened FsSpace

  /** A block is linked at another position than as the file's very first. */
  predicate LinkedAgain(parts: seq<seq<nat>>, b: nat) {
    exists j, i :: 0 <= j < |parts| && 0 <= i < |parts[j]| && (j > 0 || i > 0) && parts[j][i] == b
  }

  /** The block is free, or an inode of the chain, or linked again. */
  ghost predicate Shared(l: Layout, chain: seq<nat>, parts: seq<seq<nat>>, first: nat) {
    && In(l, first) && chain != []
    && (l.role[first].ForFree? || first in chain[1..] || LinkedAgain(parts, first))
  }

  /** File h is being overwritten: everything else is in order, and the first link of h is stale. */
  ghost predicate Stale(d: Disk, l: Layout, h: nat, chain: seq<nat>, parts: seq<seq<nat>>, first: nat) {
    && Inv(d, l, h) && h in l.nodes && |chain| == |parts| >= 1
    && Threaded(d.img, chain, parts, l.max) && chain[0] == h
    && (forall j :: 1 <= j < |chain| ==> Has(l, chain[j], Loose))
    && parts[0] != [] && parts[0][0] == first && Shared(l, chain, parts, first)
  }

  lemma {:induction false} StaleMeta(d: Disk, l: Layout, h: nat)
    requires Inv(d, l, h) && h in l.nodes
    ensures HasMeta(d.img, h) && d.img[h].mode == Regular && d.img[h].meta == l.nodes[h].meta && |d.img| == |l.role|
    ensures l.role[0] == ForSuper && Has(l, h, ForHead(h)) && Has(l, l.nodes[h].meta, ForMeta(h))
  {
    hide TreeOK, FreeOK, RoleOK;
    assert NodeOK(d.img, l, h, h);
  }

  /** What writing a chunk relies on, for a file in order and for one that is being overwritten. */
  lemma {:induction false} WritingStarts(d: Disk, l: Layout, h: nat, z: nat, chain: seq<nat>, parts: seq<seq<nat>>,
                                         first: nat)
    requires if z == 0 then AtRest(d, l) && CanGrow(l, h) && chain == l.nodes[h].chain && parts == l.nodes[h].parts
             else z == h && Stale(d, l, h, chain, parts, first)
    ensures Inv(d, l, z) && Threaded(d.img, chain, parts, l.max) && HasMeta(d.img, h)
    ensures chain != [] && chain[0] == h < |d.img| && h in chain && parts != [] && |Last(parts)| <= l.max
    ensures forall n :: Increment(d.img, h, n) == n
  {
    hide Inv, Threaded, AllFull, Shared;
    if z == 0 {
      NotNull(d, l, h);
      NodeIsThreaded(d, l, 0, h);
      HeadAt(d, l, 0, h);
    } else {
      StaleMeta(d, l, h);
    }
    NonEmpty(d.img, chain, parts, l.max);
    InodeOf(d.img, chain, parts, l.max, |chain| - 1);
  }

  lemma NotNull(d: Disk, l: Layout, h: nat)
    requires Inv(d, l, 0) && h in l.nodes
    ensures h != 0
  {
    hide Inv;
    NodeShape(d, l, 0, h);
  }

  lemma FirstLinks(d: Disk, l: Layout, h: nat)
    requires Inv(d, l, 0) && h in l.nodes
    ensures h != 0 && |l.nodes[h].parts| >= 1 && |l.nodes[h].parts[0]| <= l.max
  {
    hide Inv;
    NodeShape(d, l, 0, h);
    NodeIsThreaded(d, l, 0, h);
    hide Threaded;
    InodeOf(d.img, l.nodes[h].chain, l.nodes[h].parts, l.max, 0);
  }

  /** The state in which the new bytes start to be written. */
  lemma {:induction false} StaleStart(d0: Disk, l0: Layout, d: Disk, l: Layout, h: nat)
    requires AtRest(d0, l0) && h in l0.nodes && !l0.nodes[h].dir && Contents(l0.nodes[h]) != []
    requires Inv(d, l, h) && h in l.nodes && |l.role| == |l0.role| && l.max == l0.max
    requires forall b :: 0 <= b < |l.role| && IsContent(l0.role[b], h) ==> l.role[b].ForFree?
    requires h < |d.img| && h < |d0.img| && d0.img[h].Inode? && d.img[h] == d0.img[h].(next := 0)
    ensures |l0.nodes[h].parts| >= 1 && l0.nodes[h].parts[0] != []
    ensures Stale(d, l, h, [h], [l0.nodes[h].parts[0]], l0.nodes[h].parts[0][0])
  {
    hide Inv;
    var n := l0.nodes[h];
    NodeShape(d0, l0, 0, h);
    InodeAt(d0, l0, 0, h, 0);
    HeadAt(d0, l0, 0, h);
    StartOfFile(l0, n);
    var first := n.parts[0][0];
    assert Has(l0, first, ForData(h, 0, 0));
    assert InodeOn(d.img, [h], [n.parts[0]], l.max, 0);
  }

  // ---------------------------------------------------------------------------------------------
  // One more chunk
  // ---------------------------------------------------------------------------------------------

  lemma {:induction false} LooseIsOther(d: Disk, l: Layout, h: nat, b: nat)
    requires Inv(d, l, h) && h in l.nodes && Has(l, b, Loose)
    ensures b != h && b != l.nodes[h].meta
  {
    hide Inv;
    StaleMeta(d, l, h);
  }

  /** Linking behind the last inode keeps everything else. */
  lemma {:induction false} BehindKeeps(d: Disk, l: Layout, h: nat, d': Disk, chain: seq<nat>, parts: seq<seq<nat>>,
                                       b: nat, inc: nat)
    requires Inv(d, l, h) && h in l.nodes && chain != [] && chain[0] == h && parts != []
    requires Last(chain) == h || Has(l, Last(chain), Loose)
    requires LinkedBehind(d.img, d'.img, chain, parts, b, inc) && d' == d.(img := d'.img)
    ensures Inv(d', l, h)
  {
    hide Inv;
    StaleMeta(d, l, h);
    var t, m, k := Last(chain), l.nodes[h].meta, |Last(parts)|;
    var x := Relinked(d.img[t], k, b);
    var y := d.img[m].(size := d.img[m].size + inc);
    NameOfFile(d, l, h);
    if t == h {
      RewriteBuried(d, l, h, x, y);
      assert d' == RewrittenDisk(d, h, m, x, y);
    } else {
      LooseIsOther(d, l, h, t);
      WriteKeeps(d, l, h, t, x);
      RewriteBuried(WriteDisk(d, t, x), l, h, d.img[h], y);
      assert d'.img == RewrittenDisk(WriteDisk(d, t, x), h, m, d.img[h], y).img;
    }
  }

  lemma {:induction false} NameOfFile(d: Disk, l: Layout, h: nat)
    requires Inv(d, l, h) && h in l.nodes
    ensures h < |d.img| && d.img[h].Inode? && d.img[h].parent == l.nodes[h].parent
    ensures l.nodes[h].meta < |d.img| && d.img[l.nodes[h].meta].Info? && d.img[l.nodes[h].meta].name == l.nodes[h].name
  {
    hide TreeOK, FreeOK, RoleOK;
    assert NodeOK(d.img, l, h, h);
  }

  /** So does chaining a new inode. */
  lemma {:induction false} InNewKeeps(d: Disk, l: Layout, h: nat, d': Disk, chain: seq<nat>, c: nat, b: nat, inc: nat,
                                      max: nat)
    requires Inv(d, l, h) && h in l.nodes && chain != [] && chain[0] == h
    requires (Last(chain) == h || Has(l, Last(chain), Loose)) && Has(l, c, Loose)
    requires LinkedInNew(d.img, d'.img, chain, c, b, inc, max) && d' == d.(img := d'.img)
    ensures Inv(d', l, h)
  {
    hide Inv;
    StaleMeta(d, l, h);
    NameOfFile(d, l, h);
    LooseIsOther(d, l, h, c);
    var t, m := Last(chain), l.nodes[h].meta;
    var x := d.img[t].(next := c);
    var y := d.img[m].(size := d.img[m].size + inc);
    WriteKeeps(d, l, h, c, d'.img[c]);
    var d1 := WriteDisk(d, c, d'.img[c]);
    if t == h {
      RewriteBuried(d1, l, h, x, y);
      assert d'.img == RewrittenDisk(d1, h, m, x, y).img;
    } else {
      LooseIsOther(d, l, h, t);
      WriteKeeps(d1, l, h, t, x);
      RewriteBuried(WriteDisk(d1, t, x), l, h, d.img[h], y);
      assert d'.img == RewrittenDisk(WriteDisk(d1, t, x), h, m, d.img[h], y).img;
    }
  }

  /** If the block that was free is taken, it is linked again, or becomes an inode of the chain. */
  lemma {:induction false} SharedAfterLink(l: Layout, l': Layout, chain: seq<nat>, parts: seq<seq<nat>>, first: nat, b: nat)
    requires Shared(l, chain, parts, first) && TookHead(l, l', b) && parts != [] && parts[0] != []
    ensures Shared(l', chain, LongerTail(parts, b), first)
  {
    var parts' := LongerTail(parts, b);
    if LinkedAgain(parts, first) {
      var j, i :| 0 <= j < |parts| && 0 <= i < |parts[j]| && (j > 0 || i > 0) && parts[j][i] == first;
      assert parts'[j][i] == first;
    } else if first == b {
      assert parts'[|parts| - 1][|Last(parts)|] == b;
    }
  }

  lemma {:induction false} SharedAfterChain(l: Layout, l1: Layout, l': Layout, chain: seq<nat>, parts: seq<seq<nat>>,
                                            first: nat, b: nat, c: nat)
    requires Shared(l, chain, parts, first) && TookHead(l, l1, b) && TookHead(l1, l', c) && parts != []
    ensures Shared(l', chain + [c], parts + [[b]], first)
  {
    var parts', chain' := parts + [[b]], chain + [c];
    assert chain'[1..] == chain[1..] + [c];
    if LinkedAgain(parts, first) {
      var j, i :| 0 <= j < |parts| && 0 <= i < |parts[j]| && (j > 0 || i > 0) && parts[j][i] == first;
      assert parts'[j][i] == first;
    } else if first == b {
      assert parts'[|parts|][0] == b;
    }
  }

  lemma {:induction false} LooseStays(l: Layout, l': Layout, b: nat, c: nat)
    requires TookHead(l, l', b) && Has(l, c, Loose)
    ensures Has(l', c, Loose) && c != b
  {
  }

  /** One more chunk behind the last link. */
  lemma {:induction false} StaleLonger(d: Disk, l: Layout, h: nat, chain: seq<nat>, parts: seq<seq<nat>>, first: nat,
                                       d1: Disk, l1: Layout, d': Disk, b: nat, inc: nat)
    requires Stale(d, l, h, chain, parts, first) && TookHead(l, l1, b) && !TailFull(parts, l.max)
    requires Inv(d1, l1, h) && l1.nodes == l.nodes && Threaded(d1.img, chain, parts, l.max)
    requires LinkedBehind(d1.img, d'.img, chain, parts, b, inc) && d' == d1.(img := d'.img)
    ensures Stale(d', l1, h, chain, LongerTail(parts, b), first)
  {
    hide Inv, Threaded, Shared, LinkedBehind;
    StaleChain(l, l1, h, chain, b);
    BehindKeeps(d1, l1, h, d', chain, parts, b, inc);
    LongerThreaded(d1.img, d'.img, chain, parts, l.max, b, inc);
    SharedAfterLink(l, l1, chain, parts, first, b);
  }

  lemma {:induction false} StaleChain(l: Layout, l': Layout, h: nat, chain: seq<nat>, b: nat)
    requires chain != [] && chain[0] == h && (forall j :: 1 <= j < |chain| ==> Has(l, chain[j], Loose))
    requires TookHead(l, l', b)
    ensures forall j :: 1 <= j < |chain| ==> Has(l', chain[j], Loose)
    ensures Last(chain) == h || Has(l', Last(chain), Loose)
    ensures l'.max == l.max && b != 0 && Has(l', b, Loose)
  {
    forall j | 1 <= j < |chain| ensures Has(l', chain[j], Loose) {
      LooseStays(l, l', b, chain[j]);
    }
  }

  /** One more chunk in a new inode. */
  lemma {:induction false} StaleDeeper(d: Disk, l: Layout, h: nat, chain: seq<nat>, parts: seq<seq<nat>>, first: nat,
                                       l1: Layout, d2: Disk, l2: Layout, d': Disk, b: nat, c: nat, inc: nat)
    requires Stale(d, l, h, chain, parts, first) && TookHead(l, l1, b) && TookHead(l1, l2, c) && |Last(parts)| == l.max
    requires Inv(d2, l2, h) && l2.nodes == l.nodes && Threaded(d2.img, chain, parts, l.max)
    requires c < |d2.img| && !d2.img[c].Inode?
    requires LinkedInNew(d2.img, d'.img, chain, c, b, inc, l.max) && d' == d2.(img := d'.img)
    ensures Stale(d', l2, h, chain + [c], parts + [[b]], first)
  {
    hide Inv, Threaded, Shared, LinkedInNew;
    StaleChain(l, l1, h, chain, b);
    StaleChain(l1, l2, h, chain, c);
    InNewKeeps(d2, l2, h, d', chain, c, b, inc, l.max);
    DeeperThreaded(d2.img, d'.img, chain, parts, l.max, c, b, inc);
    SharedAfterChain(l, l1, l2, chain, parts, first, b, c);
  }

  // ---------------------------------------------------------------------------------------------
  // Where the chunks are put
  // ---------------------------------------------------------------------------------------------

  /** A chunk was put in block b, which was free; all other data blocks are as they were. */
  ghost predicate Placed(img: seq<Block>, img': seq<Block>, b: nat, bytes: seq<byte>) {
    && b < |img| == |img'| && img[b].Free? && img'[b] == Data(bytes)
    && forall e :: 0 <= e < |img| && img[e].Data? ==> img'[e] == img[e]
  }

  lemma {:induction false} BehindKeepsData(img: seq<Block>, img': seq<Block>, chain: seq<nat>, parts: seq<seq<nat>>,
                                           b: nat, inc: nat)
    requires LinkedBehind(img, img', chain, parts, b, inc)
    ensures |img'| == |img| && forall e :: 0 <= e < |img| && img[e].Data? ==> img'[e] == img[e]
  {
  }

  lemma {:induction false} InNewKeepsData(img: seq<Block>, img': seq<Block>, chain: seq<nat>, c: nat, b: nat, inc: nat,
                                          max: nat)
    requires LinkedInNew(img, img', chain, c, b, inc, max) && c < |img| && !img[c].Data?
    ensures |img'| == |img| && forall e :: 0 <= e < |img| && img[e].Data? ==> img'[e] == img[e]
  {
  }

  lemma {:induction false} TakeKeepsData(d: Disk, l: Layout, z: nat, next: nat)
    requires Inv(d, l, z) && d.freeblks > 0
    ensures |d.img| > 0 && d.img[0].Super? && |TakeDisk(d, next).img| == |d.img|
    ensures forall e :: 1 <= e < |d.img| ==> TakeDisk(d, next).img[e] == d.img[e]
  {
    hide TreeOK, FreeOK, RoleOK, NodeOK;
  }

  lemma {:induction false} PlacedBehind(img: seq<Block>, img1: seq<Block>, img': seq<Block>, chain: seq<nat>,
                                        parts: seq<seq<nat>>, b: nat, bytes: seq<byte>, inc: nat)
    requires Placed(img, img1, b, bytes) && LinkedBehind(img1, img', chain, parts, b, inc)
    ensures Placed(img, img', b, bytes)
  {
    hide LinkedBehind;
    BehindKeepsData(img1, img', chain, parts, b, inc);
  }

  lemma {:induction false} PlacedInNew(img: seq<Block>, d1: Disk, l1: Layout, z: nat, next: nat, img': seq<Block>,
                                       chain: seq<nat>, b: nat, c: nat, bytes: seq<byte>, inc: nat, max: nat)
    requires Placed(img, d1.img, b, bytes) && Inv(d1, l1, z) && d1.freeblks > 0 && c < |d1.img| && d1.img[c].Free?
    requires LinkedInNew(TakeDisk(d1, next).img, img', chain, c, b, inc, max)
    ensures Placed(img, img', b, bytes)
  {
    hide Inv, LinkedInNew;
    TakeKeepsData(d1, l1, z, next);
    var taken := TakeDisk(d1, next).img;
    hide TakeDisk;
    InNewKeepsData(taken, img', chain, c, b, inc, max);
  }

  lemma TookNodes(l: Layout, l': Layout, c: nat)
    requires TookHead(l, l', c)
    ensures l'.nodes == l.nodes && |l'.role| == |l.role| && Has(l', c, Loose)
  {
  }

  lemma {:induction false} PlacedFirst(d: Disk, l: Layout, z: nat, next: nat, b: nat, bytes: seq<byte>)
    requires Inv(d, l, z) && d.freeblks > 0 && 0 < b < |d.img| && d.img[b].Free?
    ensures Placed(d.img, TakeDisk(d, next).img[b := Data(bytes)], b, bytes)
  {
    hide Inv;
    TakeKeepsData(d, l, z, next);
  }

  /** The links of a chain in order, with one more. */
  lemma {:induction false} OneMoreLink(parts: seq<seq<nat>>, b: nat)
    requires parts != []
    ensures Concat(LongerTail(parts, b)) == Concat(parts) + [b] && Concat(parts + [[b]]) == Concat(parts) + [b]
  {
    var front := parts[..|parts| - 1];
    assert parts == front + [Last(parts)] && LongerTail(parts, b) == front + [Last(parts) + [b]];
    ConcatAppend(front, [Last(parts)]);
    ConcatAppend(front, [Last(parts) + [b]]);
    ConcatAppend(parts, [[b]]);
    ConcatOne(Last(parts));
    ConcatOne(Last(parts) + [b]);
    ConcatOne([b]);
    SumAssociative(Concat(front), Last(parts), [b]);
  }

  /** The chunks are in these blocks, all different. */
  ghost predicate PutIn(img: seq<Block>, placed: seq<nat>, chunks: seq<seq<byte>>) {
    && |placed| == |chunks|
    && (forall j :: 0 <= j < |placed| ==> placed[j] < |img| && img[placed[j]] == Data(chunks[j]))
    && forall i, j :: 0 <= i < j < |placed| ==> placed[i] != placed[j]
  }

  lemma {:induction false} PutOneMore(img: seq<Block>, img': seq<Block>, placed: seq<nat>, chunks: seq<seq<byte>>,
                                      b: nat, bytes: seq<byte>)
    requires PutIn(img, placed, chunks) && Placed(img, img', b, bytes)
    ensures PutIn(img', placed + [b], chunks + [bytes])
  {
  }

  /** Behind the stale links come the blocks of the chunks; the first of them was the head of the free list. */
  ghost predicate LaidOut(img: seq<Block>, stale: seq<nat>, parts: seq<seq<nat>>, chunks: seq<seq<byte>>, head: nat,
                          freelist: nat)
  {
    var links := Concat(parts);
    && |links| == |stale| + |chunks| && links[..|stale|] == stale && PutIn(img, links[|stale|..], chunks)
    && if chunks == [] then freelist == head else links[|stale|] == head
  }

  lemma {:induction false} LaidOutFirst(img: seq<Block>, stale: seq<nat>, freelist: nat)
    ensures LaidOut(img, stale, [stale], [], freelist, freelist)
  {
    ConcatOne(stale);
  }

  lemma {:induction false} LaidOutMore(img: seq<Block>, img': seq<Block>, stale: seq<nat>, parts: seq<seq<nat>>,
                                       parts': seq<seq<nat>>, chunks: seq<seq<byte>>, head: nat, b: nat, bytes: seq<byte>,
                                       freelist: nat)
    requires LaidOut(img, stale, parts, chunks, head, b) && Placed(img, img', b, bytes)
    requires Concat(parts') == Concat(parts) + [b]
    ensures LaidOut(img', stale, parts', chunks + [bytes], head, freelist)
  {
    var links, links' := Concat(parts), Concat(parts');
    PutOneMore(img, img', links[|stale|..], chunks, b, bytes);
    assert links'[|stale|..] == links[|stale|..] + [b];
  }

  /** The bytes in pieces of a block each, but for the last one, which may be shorter. */
  ghost predicate CutUp(bytes: seq<byte>, chunks: seq<seq<byte>>, blksz: nat) {
    && Concat(chunks) == bytes
    && forall j :: 0 <= j < |chunks| ==> ChunkOK(chunks[j], blksz, j + 1 == |chunks|)
  }

  lemma {:induction false} CutUpMore(bytes: seq<byte>, chunks: seq<seq<byte>>, blksz: nat, piece: seq<byte>)
    requires CutUp(bytes, chunks, blksz) && 0 < |piece| <= blksz && (chunks != [] ==> |Last(chunks)| == blksz)
    ensures CutUp(bytes + piece, chunks + [piece], blksz)
  {
    ConcatAppend(chunks, [piece]);
    ConcatOne(piece);
  }

  /** What overwriting leaves behind the inode of file h: the stale links, and behind them the blocks where the
      chunks were put. */
  ghost predicate Overwritten(img: seq<Block>, h: nat, stale: nat, links: seq<nat>, chunks: seq<seq<byte>>, max: nat) {
    && |links| == stale + |chunks| && PutIn(img, links[stale..], chunks)
    && exists chain: seq<nat>, parts: seq<seq<nat>> ::
         Threaded(img, chain, parts, max) && chain[0] == h && Concat(parts) == links
  }

  /** Reading follows the links from the first on; at every position it finds the block where the chunk of
      that position was put. */
  predicate RightPlaces(links: seq<nat>, stale: nat) {
    forall i: nat :: i < |links| - stale ==> RightPlace(links, stale, i)
  }

  predicate RightPlace(links: seq<nat>, stale: nat, i: nat)
    requires i < |links| - stale
  {
    links[i] == links[stale + i]
  }

  /** With the chunks put in different blocks, the first of them in block head, that is so exactly if there is no
      chunk, or one chunk behind one stale link to that block. */
  lemma {:induction false} RightPlacesIff(links: seq<nat>, stale: nat, head: nat)
    requires 1 <= stale <= |links| && (stale < |links| ==> links[stale] == head)
    requires forall i, j :: stale <= i < j < |links| ==> links[i] != links[j]
    requires head == links[0] ==> stale == 1
    ensures RightPlaces(links, stale) <==> |links| == stale || (|links| == stale + 1 && head == links[0])
  {
    if |links| > stale {
      assert RightPlace(links, stale, 0) <==> head == links[0];
      if |links| > stale + 1 && stale == 1 {
        assert !RightPlace(links, stale, 1);
      }
    }
  }

  /** The block that was freed last is the file's first exactly if the file had one block. */
  lemma {:induction false} LastFreedIsFirstIff(d: Disk, l: Layout, h: nat, head: nat)
    requires Inv(d, l, 0) && h in l.nodes && !l.nodes[h].dir
    requires |l.nodes[h].chain| == |l.nodes[h].parts| >= 1 && l.nodes[h].parts[0] != []
    requires head == if |l.nodes[h].chain| > 1 then Last(l.nodes[h].chain) else Last(l.nodes[h].parts[0])
    ensures head == l.nodes[h].parts[0][0] <==> Occupied(l.nodes[h].parts, 0) == 1
    ensures head == l.nodes[h].parts[0][0] ==> |l.nodes[h].parts[0]| == 1
  {
    hide Inv, ShapeOK;
    var n := l.nodes[h];
    NodeShape(d, l, 0, h);
    assert Has(l, n.parts[0][0], ForData(h, 0, 0));
    if |n.chain| > 1 {
      assert Has(l, n.chain[|n.chain| - 1], ForChild(h, |n.chain| - 1));
      assert Occupied(n.parts, 0) == |n.parts[0]| + Occupied(n.parts, 1);
    } else {
      assert Has(l, Last(n.parts[0]), ForData(h, 0, |n.parts[0]| - 1));
      assert Occupied(n.parts, 1) == 0;
    }
  }

  /** What reading finds once a file has been overwritten. */
  lemma {:induction false} ReadBackIff(d0: Disk, l0: Layout, d: Disk, l: Layout, h: nat, chain: seq<nat>, parts: seq<seq<nat>>,
                                       chunks: seq<seq<byte>>, head: nat, freelist: nat, buf: seq<byte>)
    requires AtRest(d0, l0) && h in l0.nodes && !l0.nodes[h].dir && |l0.nodes[h].parts| >= 1
    requires Contents(l0.nodes[h]) != [] && CutUp(buf, chunks, l0.blksz)
    requires var n := l0.nodes[h];
             && (|n.chain| > 1 ==> head == Last(n.chain))
             && (|n.chain| == |n.parts| == 1 && n.parts[0] != [] ==> head == Last(n.parts[0]))
    requires Threaded(d.img, chain, parts, l.max) && chain[0] == h
    requires LaidOut(d.img, l0.nodes[h].parts[0], parts, chunks, head, freelist)
    ensures Overwritten(d.img, h, |l0.nodes[h].parts[0]|, Concat(parts), chunks, l.max)
    ensures RightPlaces(Concat(parts), |l0.nodes[h].parts[0]|)
            <==> buf == [] || (|chunks| == 1 && Occupied(l0.nodes[h].parts, 0) == 1)
  {
    hide Inv, Threaded, ShapeOK, RightPlaces;
    var n, links := l0.nodes[h], Concat(parts);
    NodeShape(d0, l0, 0, h);
    StartOfFile(l0, n);
    LastFreedIsFirstIff(d0, l0, h, head);
    NothingCutUp(buf, chunks, l0.blksz);
    var stale := |n.parts[0]|;
    assert links[0] == n.parts[0][0] by {
      assert links[..stale][0] == links[0];
    }
    forall i, j | stale <= i < j < |links| ensures links[i] != links[j] {
      assert links[stale..][i - stale] == links[i] && links[stale..][j - stale] == links[j];
    }
    RightPlacesIff(links, stale, head);
  }

  lemma StaleIsThreaded(d: Disk, l: Layout, h: nat, chain: seq<nat>, parts: seq<seq<nat>>, first: nat)
    requires Stale(d, l, h, chain, parts, first)
    ensures Threaded(d.img, chain, parts, l.max) && |chain| >= 1 && chain[0] == h
  {
  }

  lemma {:induction false} NothingCutUp(bytes: seq<byte>, chunks: seq<seq<byte>>, blksz: nat)
    requires CutUp(bytes, chunks, blksz) && blksz > 0
    ensures bytes == [] <==> chunks == []
  {
    if chunks != [] {
      assert ChunkOK(chunks[0], blksz, 1 == |chunks|);
      assert bytes == chunks[0] + Concat(chunks[1..]);
    }
  }

  // ---------------------------------------------------------------------------------------------
  // No meaning is left
  // ---------------------------------------------------------------------------------------------

  /** The entries of a directory are in the image. */
  lemma {:induction false} SameEntries(d: Disk, l: Layout, z: nat, l2: Layout, p: nat)
    requires Inv(d, l, z) && Inv(d, l2, 0) && p in l.nodes && p in l2.nodes && p != z && l.nodes[p].dir
    ensures |l.nodes[p].parts| >= 1 && |l2.nodes[p].parts| >= 1 && l2.nodes[p].dir
    ensures Entries(l2.nodes[p]) == Entries(l.nodes[p])
  {
    hide Inv, ShapeOK, NodeRoles, Linked;
    NodeShape(d, l, z, p);
    NodeShape(d, l2, 0, p);
    HeadAt(d, l, z, p);
    HeadAt(d, l2, 0, p);
    InodeAt(d, l, z, p, 0);
    InodeAt(d, l2, 0, p, 0);
    LinkedOnce(d.img[p].links, l.nodes[p].parts[0], l.max, l2.nodes[p].parts[0], l2.max);
  }

  /** Whatever an image in order would mean, it has the nodes that this one has. */
  lemma {:induction false} NodesAreInImage(d: Disk, l: Layout, h: nat, l2: Layout, g: nat)
    requires Inv(d, l, h) && h in l.nodes && AtRest(d, l2) && g in l.nodes
    ensures g in l2.nodes
    decreases l.nodes[g].depth
  {
    hide Inv;
    InvTreeAny(d, l, h);
    InvTree(d, l2);
    if g == ROOT {
      RootIsNode(l2);
    } else {
      var p := l.nodes[g].parent;
      assert PlaceOK(l, g);
      hide TreeOK;
      NodesAreInImage(d, l, h, l2, p);
      FileIsNoDir(d, l, h);
      SameEntries(d, l, h, l2, p);
      DirOKAny(l2, p);
    }
  }

  lemma {:induction false} FileIsNoDir(d: Disk, l: Layout, h: nat)
    requires Inv(d, l, h) && h in l.nodes
    ensures !l.nodes[h].dir
  {
    hide TreeOK, FreeOK, RoleOK;
    assert NodeOK(d.img, l, h, h);
  }

  lemma DirOKAny(l: Layout, p: nat)
    requires TreeOK(l) && p in l.nodes && l.nodes[p].dir
    ensures |l.nodes[p].parts| >= 1 && forall e :: e in Entries(l.nodes[p]) ==> e in l.nodes
  {
  }

  /** The image that overwriting a file leaves, if the file was not empty, is the image of no file system:
      its first link leads to a block that is free, or an inode, or linked twice. */
  lemma {:induction false} StaleIsNeverAtRest(d: Disk, l: Layout, h: nat, chain: seq<nat>, parts: seq<seq<nat>>,
                                              first: nat, l2: Layout)
    requires Stale(d, l, h, chain, parts, first)
    ensures !AtRest(d, l2)
  {
    hide AtRest, Inv, Threaded, Shared;
    if AtRest(d, l2) {
      NotShared(d, l, h, chain, parts, first, l2);
    }
  }

  lemma {:induction false} NotShared(d: Disk, l: Layout, h: nat, chain: seq<nat>, parts: seq<seq<nat>>, first: nat,
                                     l2: Layout)
    requires Inv(d, l, h) && h in l.nodes && Threaded(d.img, chain, parts, l.max) && chain[0] == h
    requires parts[0] != [] && parts[0][0] == first && AtRest(d, l2)
    ensures !Shared(l, chain, parts, first)
  {
    hide Inv, Threaded, Shared, NodeRoles;
    NodesAreInImage(d, l, h, l2, h);
    StaleMeta(d, l, h);
    HeadAt(d, l2, 0, h);
    NodeIsThreaded(d, l2, 0, h);
    NodeShape(d, l2, 0, h);
    SameChain(d.img, chain, parts, l.max, l2.nodes[h].chain, l2.nodes[h].parts, l2.max);
    OneRole(d, l, l2, h, chain, parts, first);
  }

  lemma {:induction false} SameChain(img: seq<Block>, a: seq<nat>, p: seq<seq<nat>>, max: nat,
                                     b: seq<nat>, q: seq<seq<nat>>, max': nat)
    requires Threaded(img, a, p, max) && Threaded(img, b, q, max') && a[0] == b[0]
    ensures a == b && p == q
  {
    ThreadedOnce(img, a, p, max, b, q, max', |a| - 1);
    forall j | 0 <= j < |a|
      ensures j < |b| && b[j] == a[j] && q[j] == p[j]
    {
      ThreadedOnce(img, a, p, max, b, q, max', j);
    }
    assert |a| == |b| == |p| == |q|;
  }

  lemma {:induction false} FreeReadsFree(d: Disk, l: Layout, z: nat, b: nat)
    requires Inv(d, l, z) && In(l, b) && l.role[b].ForFree?
    ensures b < |d.img| && d.img[b].Free?
  {
    hide TreeOK, NodeOK;
    assert RoleOK(l, b);
    assert FreeBlockOK(d.img, l, l.role[b].k);
  }

  /** Its first block has one role, as the file's first, so it is shared with nothing. */
  lemma {:induction false} OneRole(d: Disk, l: Layout, l2: Layout, h: nat, chain: seq<nat>, parts: seq<seq<nat>>,
                                   first: nat)
    requires Inv(d, l, h) && AtRest(d, l2) && h in l2.nodes && !l2.nodes[h].dir && chain != [] && |chain| == |parts|
    requires NodeRoles(l2, h) && parts[0] != [] && parts[0][0] == first
    requires chain == l2.nodes[h].chain && parts == l2.nodes[h].parts
    ensures !Shared(l, chain, parts, first)
  {
    hide Inv;
    var n := l2.nodes[h];
    assert Has(l2, first, ForData(h, 0, 0));
    if In(l, first) && l.role[first].ForFree? {
      FreeReadsFree(d, l, h, first);
      DataAt(d, l2, 0, h, 0, 0);
    }
    forall j | 1 <= j < |chain|
      ensures chain[j] != first
    {
      assert Has(l2, n.chain[j], ForChild(h, j));
    }
    forall j, i | 0 <= j < |parts| && 0 <= i < |parts[j]| && (j > 0 || i > 0)
      ensures parts[j][i] != first
    {
      assert Has(l2, n.parts[j][i], ForData(h, j, i));
    }
  }
}
