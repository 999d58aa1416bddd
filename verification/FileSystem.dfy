/** The file system's operations on the image. */
module Files {
  import opened Common
  import opened FsLayout
  import opened FsPaths
  import opened FsSteps
  import opened FsTreeSteps
  import opened FsTree
  import opened FsSpace
  import opened FsReading
  import opened FsRemoval
  import opened FsChains
  import opened FsStale
  import opened FsEffects

  const MIN_BLOCK_SIZE := 128
  const MIN_BLOCK_COUNT := 32

  /** sizeof(struct inode) and sizeof(uint64_t) */
  const INODE_HEADER := 32
  const LINK_SIZE := 8

  /** How many links fit behind the header of an inode and in front of the zero that ends them. */
  function MaxLinks(blksz: nat): (m: nat)
    requires blksz >= MIN_BLOCK_SIZE
    ensures m > 0 && 32 + 8 * (m + 1) <= blksz < 32 + 8 * (m + 2)
  {
    (blksz - INODE_HEADER) / LINK_SIZE - 1
  }

  function Zeros(n: nat): (z: seq<nat>)
    ensures |z| == n && forall i :: 0 <= i < n ==> z[i] == 0
  {
    seq(n, i => 0)
  }

  /** Zero, or -1 with the error that errno would hold.  RanOut stands for a call that goes on with block 0
      after it asked for a block when none was left, and Aborted for a failing assertion. */
  datatype Status = Ok | NoEntry | Exists | NotADirectory | NotEmpty | NoSpace | RanOut | Aborted

  datatype Formatting = Formatted(fs: FileSystem) | BadBlockSize | TooFewBlocks

  class FileSystem {
    const blks: nat
    const blksz: nat
    const image: array<Block>
    var freelist: nat
    var freeblks: nat
    ghost var l: Layout

    ghost function D(): Disk
      reads this, image
    {
      Disk(image[..], freelist, freeblks)
    }

    ghost predicate Sized()
      reads this
    {
      && image.Length == blks == |l.role| && blks >= MIN_BLOCK_COUNT && blksz >= MIN_BLOCK_SIZE
      && l.blksz == blksz && l.max == MaxLinks(blksz)
    }

    ghost predicate Valid()
      reads this, image
    {
      Sized() && AtRest(D(), l)
    }

    /** Between the calls inside an operation: z is the file whose blocks are being freed. */
    ghost predicate Busy(z: nat)
      reads this, image
    {
      Sized() && Inv(D(), l, z)
    }

    /** fs_format, once the sizes are known to be big enough: an empty root directory, and every other
        block but the superblock on the free list. */
    constructor Fresh(blks: nat, blksz: nat)
      requires blks >= MIN_BLOCK_COUNT && blksz >= MIN_BLOCK_SIZE
      ensures Valid() && this.blks == blks && this.blksz == blksz && freeblks == blks - 4 && fresh(image)
      ensures At(l, []) == Some(Dir) && forall path :: path != [] ==> At(l, path) == None
      ensures freelist == 3 && image[0] == Super(blks - 4, 3) && image[2] == Info(0, "/")
      ensures image[1] == Inode(Directory, 1, 2, 0, Zeros(MaxLinks(blksz) + 1))
      ensures forall b :: 3 <= b < blks ==> image[b] == Free(if b + 1 == blks then 0 else b + 1)
    {
      hide Inv, AtRest, At, Lookup;
      this.blks, this.blksz := blks, blksz;
      image := new Block[blks](i => Unformatted);
      freelist, freeblks := 3, blks - 4;
      l := FreshLayout(MaxLinks(blksz), blksz, blks);
      new;
      image[0] := Super(freeblks, freelist);
      image[1] := Inode(Directory, ROOT, 2, 0, Zeros(MaxLinks(blksz) + 1));
      image[2] := Info(0, "/");
      for cnt := 3 to blks
        invariant freelist == 3 && freeblks == blks - 4 && l == FreshLayout(MaxLinks(blksz), blksz, blks)
        invariant image[0] == Super(freeblks, freelist) && image[2] == Info(0, "/")
        invariant image[1] == Inode(Directory, ROOT, 2, 0, Zeros(MaxLinks(blksz) + 1))
        invariant forall b :: 3 <= b < cnt ==> image[b] == Free(if b + 1 == blks then 0 else b + 1)
      {
        image[cnt] := Free(if cnt + 1 == blks then 0 else cnt + 1);
      }
      FreshIsValid(D(), MaxLinks(blksz), blksz, blks);
    }

    /** fs_format for a file of so many bytes. */
    static method Format(size: nat, blocksize: nat) returns (r: Formatting)
      ensures r == BadBlockSize <==> blocksize < 128
      ensures r == TooFewBlocks <==> blocksize >= 128 && size < 32 * blocksize
      ensures r.Formatted? ==>
                && r.fs.Valid() && fresh(r.fs) && fresh(r.fs.image)
                && r.fs.blks == size / blocksize && r.fs.blksz == blocksize && r.fs.freeblks == r.fs.blks - 4
                && At(r.fs.l, []) == Some(Dir) && forall path :: path != [] ==> At(r.fs.l, path) == None
    {
      hide Inv, AtRest, At;
      if blocksize < MIN_BLOCK_SIZE {
        return BadBlockSize;
      }
      QuotientAtLeast(32, size, blocksize);
      if size / blocksize < MIN_BLOCK_COUNT {
        return TooFewBlocks;
      }
      var fs := new FileSystem.Fresh(size / blocksize, blocksize);
      return Formatted(fs);
    }

    // -------------------------------------------------------------------------------------------
    // The free list
    // -------------------------------------------------------------------------------------------

    /** Take the head of the free list; 0 if the count says there is none. */
    method GetBlock(ghost z: nat) returns (b: nat)
      requires Busy(z)
      modifies `freelist, `freeblks, `l, image
      ensures Busy(z)
      ensures old(freeblks) == 0 ==> b == 0 && D() == old(D()) && l == old(l)
      ensures old(freeblks) > 0 ==>
                && b == old(freelist) && TookHead(old(l), l, b)
                && D() == TakeDisk(old(D()), freelist)
                && 0 < b < image.Length && old(image[b]).Free?
                && freelist == old(image[b]).next && freeblks == old(freeblks) - 1
                && image[..] == old(image[..])[0 := Super(freeblks, freelist)]
    {
      hide NodeOK, TreeOK, RoleOK;
      if freeblks == 0 {
        return 0;
      }
      HeadOfFree(D(), l);
      TakeKeeps(D(), l, z);
      b := freelist;
      freelist := image[b].next;
      freeblks := freeblks - 1;
      image[0] := Super(freeblks, freelist);
      l := TakeLayout(l);
    }

    /** Make a block the head of the free list. */
    method PutBlock(b: nat, ghost z: nat)
      requires Busy(z) && Has(l, b, Loose)
      modifies `freelist, `freeblks, `l, image
      ensures Busy(z) && l == GiveLayout(old(l), b) && D() == GiveDisk(old(D()), b)
      ensures freelist == b && freeblks == old(freeblks) + 1
      ensures image[..] == old(image[..])[b := Free(old(freelist))][0 := Super(freeblks, freelist)]
    {
      hide NodeOK, TreeOK, RoleOK, FreeOK;
      GiveKeeps(D(), l, z, b);
      image[b] := Free(freelist);
      freelist := b;
      freeblks := freeblks + 1;
      image[0] := Super(freeblks, freelist);
      l := GiveLayout(l, b);
    }

    // -------------------------------------------------------------------------------------------
    // Inodes and links
    // -------------------------------------------------------------------------------------------

    /** How many links come before the terminator. */
    method NumLinks(links: seq<nat>) returns (n: nat)
      requires 0 in links
      ensures n < |links| && links[n] == 0 && forall i :: 0 <= i < n ==> links[i] != 0
    {
      n := 0;
      while links[n] != 0
        invariant n < |links| && forall i :: 0 <= i < n ==> links[i] != 0
        decreases |links| - n
      {
        n := n + 1;
        ghost var k :| 0 <= k < |links| && links[k] == 0;
        assert n <= k;
      }
    }

    /** The first inode of a chain with room for a link; 0 if all are full. */
    method NodeWithSpace(h: nat, ghost chain: seq<nat>, ghost parts: seq<seq<nat>>) returns (b: nat)
      requires blksz >= MIN_BLOCK_SIZE && Threaded(image[..], chain, parts, MaxLinks(blksz)) && chain[0] == h
      ensures b == if TailFull(parts, MaxLinks(blksz)) then 0 else Last(chain)
    {
      hide Threaded;
      ghost var j := 0;
      b := h;
      NonEmpty(image[..], chain, parts, MaxLinks(blksz));
      InodeOf(image[..], chain, parts, MaxLinks(blksz), 0);
      var count := NumLinks(image[b].links);
      while count >= MaxLinks(blksz) && image[b].next != 0
        invariant j < |chain| == |parts| && b == chain[j] && b < image.Length
        invariant image[b].Inode? && count == |parts[j]|
        invariant image[b].next == if j + 1 < |chain| then chain[j + 1] else 0
        invariant j + 1 < |chain| ==> chain[j + 1] != 0
        invariant j + 1 < |parts| ==> |parts[j]| == MaxLinks(blksz)
        decreases |chain| - j
      {
        b := image[b].next;
        j := j + 1;
        InodeOf(image[..], chain, parts, MaxLinks(blksz), j);
        count := NumLinks(image[b].links);
      }
      if count >= MaxLinks(blksz) {
        b := 0;
      }
    }

    method LastInode(h: nat, ghost chain: seq<nat>, ghost parts: seq<seq<nat>>) returns (b: nat)
      requires blksz >= MIN_BLOCK_SIZE && Threaded(image[..], chain, parts, MaxLinks(blksz)) && chain[0] == h
      ensures b == Last(chain)
    {
      hide Threaded;
      ghost var j := 0;
      b := h;
      NonEmpty(image[..], chain, parts, MaxLinks(blksz));
      InodeOf(image[..], chain, parts, MaxLinks(blksz), 0);
      while image[b].next != 0
        invariant j < |chain| == |parts| && b == chain[j] && b < image.Length
        invariant image[b].Inode?
        invariant image[b].next == if j + 1 < |chain| then chain[j + 1] else 0
        invariant j + 1 < |chain| ==> chain[j + 1] != 0
        decreases |chain| - j
      {
        b := image[b].next;
        j := j + 1;
        InodeOf(image[..], chain, parts, MaxLinks(blksz), j);
      }
    }

    /** Link b behind the last link of an inode with room for it. */
    method LinkBehind(t: nat, b: nat, ghost items: seq<nat>, ghost max: nat)
      requires t < image.Length && image[t].Inode? && Linked(image[t].links, items, max) && |items| < max && b != 0
      modifies image
      ensures image[..] == old(image[..])[t := Relinked(old(image[t]), |items|, b)]
    {
      assert image[t].links[|items|] == 0;
      assert forall i :: 0 <= i < |items| ==> image[t].links[i] == image[t].links[..|items|][i] != 0;
      var k := NumLinks(image[t].links);
      var links := image[t].links[k := b];
      image[t] := image[t].(links := links[k + 1 := 0]);
    }

    /** Link block b to the entity whose inode, or one of whose child inodes, is ref: behind the links of
        the last inode if there is room, and otherwise in a new child inode.  A directory counts one more
        entry, a file nbytes more bytes.  It ends early if it needs a block and there is none. */
    method LinkNode(ref: nat, b: nat, nbytes: nat, ghost z: nat, ghost chain: seq<nat>, ghost parts: seq<seq<nat>>)
        returns (ok: bool)
      requires Busy(z) && Threaded(image[..], chain, parts, l.max) && HasMeta(image[..], chain[0])
      requires ref in chain && b != 0
      modifies `freelist, `freeblks, `l, image
      ensures Sized() && l.max == old(l.max)
      ensures ok <==> !TailFull(parts, l.max) || old(freeblks) > 0
      ensures !ok ==> D() == old(D()) && l == old(l)
      ensures ok && !TailFull(parts, l.max) ==>
                && l == old(l) && freelist == old(freelist) && freeblks == old(freeblks)
                && LinkedBehind(old(image[..]), image[..], chain, parts, b, Increment(old(image[..]), chain[0], nbytes))
      ensures ok && TailFull(parts, l.max) ==>
                && TookHead(old(l), l, old(freelist)) && freeblks == old(freeblks) - 1
                && Inv(TakeDisk(old(D()), freelist), l, z)
                && 0 < old(freelist) < image.Length && old(image[freelist]).Free?
                && LinkedInNew(TakeDisk(old(D()), freelist).img, image[..], chain, old(freelist), b,
                               Increment(old(image[..]), chain[0], nbytes), l.max)
    {
      hide Inv, Threaded;
      InodeOf(image[..], chain, parts, l.max, |chain| - 1);
      InodeOf(image[..], chain, parts, l.max, 0);
      var head := HeaderOf(ref, chain, parts);
      var node := image[head];
      var inc := if node.mode == Directory then 1 else nbytes;
      var space := NodeWithSpace(head, chain, parts);
      if space != 0 {
        LinkBehind(space, b, Last(parts), l.max);
      } else {
        var c := GetBlock(z);
        if c == 0 {
          return false;
        }
        ThreadedAfterTake(old(D()), freelist, chain, parts, l.max);
        InodeOf(image[..], chain, parts, l.max, |chain| - 1);
        var t := LastInode(head, chain, parts);
        image[t] := image[t].(next := c);
        image[c] := Inode(Child, head, t, 0, [b] + Zeros(MaxLinks(blksz)));
      }
      Count(node.meta, inc);
      return true;
    }

    /** The header of an entity, from its header or from a child inode. */
    method HeaderOf(ref: nat, ghost chain: seq<nat>, ghost parts: seq<seq<nat>>) returns (head: nat)
      requires blksz >= MIN_BLOCK_SIZE && Threaded(image[..], chain, parts, MaxLinks(blksz)) && ref in chain
      ensures head == chain[0]
    {
      hide Threaded;
      ghost var j :| 0 <= j < |chain| && chain[j] == ref;
      InodeOf(image[..], chain, parts, MaxLinks(blksz), j);
      head := ref;
      if image[ref].mode == Child {
        head := image[ref].parent;
      }
    }

    method Count(meta: nat, inc: nat)
      requires meta < image.Length && image[meta].Info?
      modifies image
      ensures image[..] == old(image[..])[meta := old(image[meta]).(size := old(image[meta]).size + inc)]
    {
      image[meta] := image[meta].(size := image[meta].size + inc);
    }

    // -------------------------------------------------------------------------------------------
    // Files
    // -------------------------------------------------------------------------------------------

    /** What a file is while bytes are written to it: in order (z == 0), with every block full so far, or
        being overwritten (z == h), with a stale first link. */
    ghost predicate Growing(h: nat, z: nat, chain: seq<nat>, parts: seq<seq<nat>>, first: nat)
      reads this, image
    {
      && Sized()
      && if z == 0 then
           Valid() && CanGrow(l, h) && chain == l.nodes[h].chain && parts == l.nodes[h].parts
         else
           z == h && Stale(D(), l, h, chain, parts, first)
    }

    /** Put a chunk in a free block; 0 if there is none. */
    method PutChunk(bytes: seq<byte>, ghost z: nat, ghost chain: seq<nat>, ghost parts: seq<seq<nat>>) returns (b: nat)
      requires Busy(z) && Threaded(image[..], chain, parts, l.max) && HasMeta(image[..], chain[0])
      modifies `freelist, `freeblks, `l, image
      ensures Busy(z) && l.max == old(l.max)
      ensures b == 0 <==> old(freeblks) == 0
      ensures b == 0 ==> freeblks == 0
      ensures b != 0 ==>
                && b == old(freelist) && TookHead(old(l), l, b) && freeblks == old(freeblks) - 1
                && b < image.Length && image[b] == Data(bytes) && Placed(old(image[..]), image[..], b, bytes)
                && Threaded(image[..], chain, parts, l.max) && HasMeta(image[..], chain[0])
                && image[chain[0]] == old(image[chain[0]]) && l.nodes == old(l.nodes)
    {
      hide Inv, Threaded, HasMeta, Placed;
      ghost var d0, l0 := D(), l;
      b := GetBlock(z);
      if b == 0 {
        return 0;
      }
      ThreadedAfterTake(d0, freelist, chain, parts, l.max);
      ThreadedAfterWrite(D(), b, Data(bytes), chain, parts, l.max);
      WriteKeeps(D(), l, z, b, Data(bytes));
      PlacedFirst(d0, l0, z, freelist, b, bytes);
      image[b] := Data(bytes);
    }

    /** Put a chunk in a free block and link it to a file.  It ends early if there is no block. */
    method WriteChunk(h: nat, bytes: seq<byte>, ghost z: nat, ghost chain: seq<nat>, ghost parts: seq<seq<nat>>,
                      ghost first: nat)
        returns (ok: bool, ghost chain': seq<nat>, ghost parts': seq<seq<nat>>)
      requires Growing(h, z, chain, parts, first) && parts != [] && 0 < |bytes| <= blksz
      modifies `freelist, `freeblks, `l, image
      ensures Sized() && l.max == old(l.max)
      ensures ok <==> old(freeblks) >= Need(parts, l.max)
      ensures if ok then freeblks == old(freeblks) - Need(parts, l.max) else freeblks == 0
      ensures ok ==> parts' != [] && |Last(parts')| == if TailFull(parts, l.max) then 1 else |Last(parts)| + 1
      ensures ok && z == 0 ==>
                && Valid() && GotChunk(old(l), l, h, bytes)
                && chain' == l.nodes[h].chain && parts' == l.nodes[h].parts
      ensures ok && z != 0 ==>
                && Growing(h, z, chain', parts', first) && Concat(parts') == Concat(parts) + [old(freelist)]
                && Placed(old(image[..]), image[..], old(freelist), bytes)
    {
      hide Inv, Threaded, GotChunk, Stale, AllFull, LinkedBehind, LinkedInNew, HasMeta, Placed, Concat, TookHead;
      chain', parts' := chain, parts;
      ghost var d0, l0 := D(), l;
      WritingStarts(d0, l0, h, z, chain, parts, first);
      var b := PutChunk(bytes, z, chain, parts);
      if b == 0 {
        return false, chain, parts;
      }
      OneMoreLink(parts, b);
      ghost var d1, l1 := D(), l;
      ok := LinkNode(h, b, |bytes|, z, chain, parts);
      if !ok {
        return;
      }
      ghost var inc := Increment(d1.img, h, |bytes|);
      assert inc == Increment(d0.img, h, |bytes|) == |bytes|;
      if TailFull(parts, l.max) {
        ghost var d2 := TakeDisk(d1, freelist);
        ghost var c := d1.freelist;
        TookNodes(l1, l, c);
        ThreadedAfterTake(d1, freelist, chain, parts, l.max);
        if z == 0 {
          WroteInNew(d0, l0, l1, d2, l, D(), h, b, c, bytes);
          l := DeepenLayout(l, h, c, b, bytes);
          chain', parts' := l.nodes[h].chain, l.nodes[h].parts;
        } else {
          StaleDeeper(d0, l0, h, chain, parts, first, l1, d2, l, D(), b, c, inc);
          PlacedInNew(d0.img, d1, l1, z, freelist, D().img, chain, b, c, bytes, inc, l.max);
          chain', parts' := chain + [c], parts + [[b]];
        }
      } else {
        if z == 0 {
          WroteBehind(d0, l0, d1, l, D(), h, b, bytes);
          l := AppendLayout(l, h, b, bytes);
          chain', parts' := l.nodes[h].chain, l.nodes[h].parts;
        } else {
          StaleLonger(d0, l0, h, chain, parts, first, d1, l, D(), b, inc);
          PlacedBehind(d0.img, d1.img, D().img, chain, parts, b, bytes, inc);
          parts' := LongerTail(parts, b);
        }
      }
    }

    /** Write bytes behind the links of a file, a block at a time: to an empty file, or to one that is being
        overwritten.  It ends early if it needs a block and there is none. */
    method WriteToFile(h: nat, buf: seq<byte>, ghost z: nat, ghost links: seq<nat>, ghost first: nat)
        returns (ok: bool, ghost chain: seq<nat>, ghost parts: seq<seq<nat>>, ghost chunks: seq<seq<byte>>)
      requires Growing(h, z, [h], [links], first) && |links| <= l.max && (z == 0 ==> links == [])
      modifies `freelist, `freeblks, `l, image
      ensures Sized() && l.max == old(l.max)
      ensures ok <==> old(freeblks) >= Cost(|links|, Chunks(|buf|, blksz), l.max)
      ensures if ok then freeblks == old(freeblks) - Cost(|links|, Chunks(|buf|, blksz), l.max) else freeblks == 0
      ensures ok && z == 0 ==> Valid() && Wrote(old(l), l, h, buf)
      ensures ok && z != 0 ==>
                && Growing(h, z, chain, parts, first) && CutUp(buf, chunks, blksz)
                && LaidOut(image[..], links, parts, chunks, old(freelist), freelist)
    {
      hide Inv, Wrote, GotChunk, Stale, LaidOut, Placed, CutUp, Concat;
      ghost var l0 := l;
      chain, parts, chunks := [h], [links], [];
      WriteStarts(h, z, links, buf);
      var cnt := 0;
      while cnt + blksz < |buf|
        invariant 0 <= cnt <= |buf| && Growing(h, z, chain, parts, first) && l.max == l0.max
        invariant parts != [] && |Last(parts)| <= l.max
        invariant Written(h, z, l0, links, parts, chunks, buf[..cnt], old(freelist))
        invariant chunks != [] ==> |Last(chunks)| == blksz
        invariant freeblks - Cost(|Last(parts)|, Chunks(|buf| - cnt, blksz), l.max)
               == old(freeblks) - Cost(|links|, Chunks(|buf|, blksz), l.max)
      {
        ok, chain, parts, chunks := WritePiece(h, buf[cnt..cnt + blksz], z, chain, parts, first, l0, links, chunks,
                                               buf[..cnt], old(freelist));
        if !ok {
          return;
        }
        assert buf[..cnt] + buf[cnt..cnt + blksz] == buf[..cnt + blksz];
        cnt := cnt + blksz;
      }
      var leftOver := |buf| - cnt;
      if leftOver != 0 {
        assert buf[..cnt] + buf[cnt..] == buf;
        ok, chain, parts, chunks := WritePiece(h, buf[cnt..], z, chain, parts, first, l0, links, chunks, buf[..cnt],
                                               old(freelist));
      } else {
        assert buf[..cnt] == buf;
        ok := true;
      }
    }

    /** What has been written so far. */
    ghost predicate Written(h: nat, z: nat, l0: Layout, links: seq<nat>, parts: seq<seq<nat>>, chunks: seq<seq<byte>>,
                            bytes: seq<byte>, head: nat)
      reads this, image
    {
      if z == 0 then Wrote(l0, l, h, bytes)
      else LaidOut(image[..], links, parts, chunks, head, freelist) && CutUp(bytes, chunks, blksz)
    }

    lemma WriteStarts(h: nat, z: nat, links: seq<nat>, buf: seq<byte>)
      requires z == 0 ==> h in l.nodes
      ensures Written(h, z, l, links, [links], [], buf[..0], freelist)
    {
      assert buf[..0] == [];
      LaidOutFirst(image[..], links, freelist);
      if z == 0 {
        WroteNothing(l, h);
      }
    }

    /** One more chunk of what is being written. */
    method WritePiece(h: nat, piece: seq<byte>, ghost z: nat, ghost chain: seq<nat>, ghost parts: seq<seq<nat>>,
                      ghost first: nat, ghost l0: Layout, ghost links: seq<nat>, ghost chunks: seq<seq<byte>>,
                      ghost bytes: seq<byte>, ghost head: nat)
        returns (ok: bool, ghost chain': seq<nat>, ghost parts': seq<seq<nat>>, ghost chunks': seq<seq<byte>>)
      requires Growing(h, z, chain, parts, first) && parts != [] && 0 < |piece| <= blksz
      requires Written(h, z, l0, links, parts, chunks, bytes, head) && (chunks != [] ==> |Last(chunks)| == blksz)
      modifies `freelist, `freeblks, `l, image
      ensures Sized() && l.max == old(l.max)
      ensures ok <==> old(freeblks) >= Need(parts, l.max)
      ensures if ok then freeblks == old(freeblks) - Need(parts, l.max) else freeblks == 0
      ensures ok ==>
                && parts' != [] && |Last(parts')| == (if TailFull(parts, l.max) then 1 else |Last(parts)| + 1)
                && Written(h, z, l0, links, parts', chunks', bytes + piece, head)
                && (chunks' == [] || Last(chunks') == piece)
      ensures ok && z == 0 ==> Valid() && (|piece| == blksz ==> Growing(h, z, chain', parts', first))
      ensures ok && z != 0 ==> Growing(h, z, chain', parts', first)
    {
      hide Inv, Wrote, GotChunk, Stale, LaidOut, Placed, CutUp, Concat;
      ghost var l1, img, b := l, image[..], freelist;
      ok, chain', parts' := WriteChunk(h, piece, z, chain, parts, first);
      chunks' := [];
      if ok && z == 0 {
        if |piece| == blksz {
          GrowsOn(l1, l, h, piece);
        }
        WroteMore(l0, l1, l, h, bytes, piece);
      } else if ok {
        chunks' := chunks + [piece];
        LaidOutMore(img, image[..], links, parts, parts', chunks, head, b, piece, freelist);
        CutUpMore(bytes, chunks, blksz, piece);
      }
    }

    /** Read a whole file. */
    method ReadFrom(h: nat) returns (out: seq<byte>)
      requires Valid() && h in l.nodes && !l.nodes[h].dir
      ensures out == Contents(l.nodes[h])
    {
      hide Inv, ShapeOK, NodeRoles;
      ghost var n, j := l.nodes[h], 0;
      NodeShape(D(), l, 0, h);
      HeadAt(D(), l, 0, h);
      StartOfFile(l, n);
      InodeAt(D(), l, 0, h, 0);
      var node := image[h];
      var size := image[node.meta].size;
      var ii: nat := 0;
      out := [];
      while |out| + blksz < size
        invariant AtInode(n, j, node) && ii <= |n.parts[j]| && Contents(n) == out + Rest(n.data, j, ii)
        invariant |out| + blksz < size ==> ii == 0
        invariant Rest(n.data, j, ii) != [] ==> ii < |n.parts[j]|
        decreases |n.parts| - j, |out| + blksz < size
      {
        ii, out := ReadInode(h, node, size, j, out);
        AfterInode(l, n, j, ii);
        if node.next != 0 {
          InodeAt(D(), l, 0, h, j + 1);
          node := image[node.next];
          ii := 0;
          j := j + 1;
        }
      }
      var leftOver := size - |out|;
      if leftOver != 0 {
        RestSize(l, n, j, ii);
        DataAt(D(), l, 0, h, j, ii);
        out := out + image[node.links[ii]].bytes[..leftOver];
      }
    }

    /** Read blocks of one inode while more than a block is left. */
    method ReadInode(h: nat, node: Block, size: nat, ghost j: nat, before: seq<byte>) returns (ii: nat, out: seq<byte>)
      requires Valid() && h in l.nodes && !l.nodes[h].dir && AtInode(l.nodes[h], j, node)
      requires size == |Contents(l.nodes[h])| && |before| + blksz < size
      requires Contents(l.nodes[h]) == before + Rest(l.nodes[h].data, j, 0)
      ensures ii <= |l.nodes[h].parts[j]| && Contents(l.nodes[h]) == out + Rest(l.nodes[h].data, j, ii)
      ensures ii == |l.nodes[h].parts[j]| || |out| + blksz >= size
    {
      hide Inv, ShapeOK, NodeRoles;
      ghost var n := l.nodes[h];
      NodeShape(D(), l, 0, h);
      ii, out := 0, before;
      while node.links[ii] != 0 && |out| + blksz < size
        invariant ii <= |n.parts[j]| && Contents(n) == out + Rest(n.data, j, ii)
        decreases |n.parts[j]| - ii
      {
        RestSize(l, n, j, ii);
        DataAt(D(), l, 0, h, j, ii);
        out := out + image[node.links[ii]].bytes;
        ii := ii + 1;
      }
    }

    // -------------------------------------------------------------------------------------------
    // The tree
    // -------------------------------------------------------------------------------------------

    /** Make an empty file or directory in directory p.  It ends early if there are fewer than two blocks. */
    method CreateEntity(p: nat, name: string, mode: Mode) returns (ok: bool, e: nat)
      requires Valid() && p in l.nodes && l.nodes[p].dir && mode != Child
      requires |l.nodes[p].parts| >= 1 && |Entries(l.nodes[p])| < l.max && ChildOf(l, p, name) == None
      modifies `freelist, `freeblks, `l, image
      ensures Sized() && (ok <==> old(freeblks) >= 2) && (!ok ==> freeblks == 0)
      ensures ok ==>
                && Valid() && freeblks == old(freeblks) - 2 && l.max == old(l.max)
                && e in l.nodes && l.nodes[e].meta == old(freelist)
                && Made(old(l), l, p, e, name, mode == Directory) && EntryAdded(old(l), l, p, e, name)
    {
      hide Inv, NodeRoles, ShapeOK, Appended, Deepened, CanAttach, EntryAdded, Made, Threaded, LastFull, LinkedBehind;
      ghost var l0 := l;
      e := 0;
      var info := GetBlock(0);
      if info == 0 {
        return false, 0;
      }
      WriteKeeps(D(), l, 0, info, Info(0, name));
      image[info] := Info(0, name);
      e := GetBlock(0);
      if e == 0 {
        return false, 0;
      }
      var node := Inode(mode, p, info, 0, Zeros(MaxLinks(blksz) + 1));
      WriteKeeps(D(), l, 0, e, node);
      image[e] := node;
      ghost var d2, l2, dir := D(), l, mode == Directory;
      ReadyToAttach(d2, l0, l2, p, e, info, dir, name);
      NodeIsThreaded(d2, l2, 0, p);
      HeadAt(d2, l2, 0, p);
      ok := LinkNode(p, e, 0, 0, l.nodes[p].chain, l.nodes[p].parts);
      BehindIsAppended(d2, l2, D(), p, e, 1);
      FinishAttach(d2, l2, D(), l0, p, e, info, dir, name);
      l := AttachLayout(l2, p, e, info, dir, name);
    }

    /** Scan a directory's links for a name. */
    method FindInDir(p: nat, name: string) returns (r: Option<nat>)
      requires Valid() && p in l.nodes && l.nodes[p].dir
      ensures r == ChildOf(l, p, name)
    {
      hide Inv, TreeOK, NodeRoles, ShapeOK, Linked, ChildOf;
      InvTree(D(), l);
      NodeShape(D(), l, 0, p);
      InodeAt(D(), l, 0, p, 0);
      ghost var es := Entries(l.nodes[p]);
      var node := image[p];
      var i := 0;
      while node.links[i] != 0
        invariant i <= |es| && forall k :: 0 <= k < i ==> es[k] in l.nodes && l.nodes[es[k]].name != name
        decreases |es| - i
      {
        EntryAt(D(), l, p, i);
        var entry := image[node.links[i]];
        if image[entry.meta].name == name {
          EntryIsChild(l, p, i);
          return Some(node.links[i]);
        }
        i := i + 1;
      }
      NoEntryOf(l, p, name);
      return None;
    }

    /** Follow a path from the root as far as it exists. */
    method GetInodeBlock(path: string) returns (b: nat, full: bool, left: string)
      requires Valid() && (path == "/" || (Tokens(path) != [] && Walkable(l, ROOT, Tokens(path))))
      ensures full <==> Lookup(l, ROOT, Tokens(path)).Some?
      ensures full ==> Lookup(l, ROOT, Tokens(path)) == Some(b)
      ensures !full ==> Walk(l, ROOT, Tokens(path)).0 == b
      ensures !full ==> Walk(l, ROOT, Tokens(path)).1 != [] && left == Walk(l, ROOT, Tokens(path)).1[0]
      ensures forall ts, slashes :: Spells(path, ts, slashes) ==>
                && (full <==> Lookup(l, ROOT, ts).Some?) && (full ==> Lookup(l, ROOT, ts) == Some(b))
                && (!full ==> exists n :: 0 <= n < |ts| && Lookup(l, ROOT, ts[..n]) == Some(b)
                                          && left == ts[n] && ChildOf(l, b, left) == None)
    {
      hide Inv, Spells;
      forall ts, slashes | Spells(path, ts, slashes) ensures Tokens(path) == ts {
        TokensSpell(path, ts, slashes);
      }
      b, full, left := ROOT, true, "";
      if path == "/" {
        assert Tokens(path) == Tokens(path[1..]) == [];
        return;
      }
      var tokens := Tokens(path);
      WalkIsLongestPrefix(l, ROOT, tokens);
      assert tokens[0..] == tokens;
      var k := 0;
      while k < |tokens|
        invariant k <= |tokens| && Walk(l, ROOT, tokens) == Walk(l, b, tokens[k..]) && Walkable(l, b, tokens[k..])
      {
        var next := FindInDir(b, tokens[k]);
        if next == None {
          full, left := false, tokens[k];
          return;
        }
        assert tokens[k..][1..] == tokens[k + 1..];
        b := next.value;
        k := k + 1;
      }
      assert tokens[..|tokens|] == tokens;
    }

    // -------------------------------------------------------------------------------------------
    // Removal
    // -------------------------------------------------------------------------------------------

    /** Free the blocks that an inode links. */
    method FreeLinks(node: Block, ghost d0: Disk, ghost l0: Layout, ghost h: nat, ghost j: nat)
      requires Busy(h) && AtRest(d0, l0) && h in l0.nodes && !l0.nodes[h].dir
      requires Freeing(d0, l0, D(), l, h, j, 0) && AtInode(l0.nodes[h], j, node)
      modifies `freelist, `freeblks, `l, image
      ensures Busy(h) && Freeing(d0, l0, D(), l, h, j, |l0.nodes[h].parts[j]|)
      ensures freeblks == old(freeblks) + |l0.nodes[h].parts[j]| && l.max == old(l.max)
      ensures l0.nodes[h].parts[j] != [] ==> freelist == Last(l0.nodes[h].parts[j])
    {
      hide Inv, Freeing;
      var i := 0;
      while node.links[i] != 0
        invariant i <= |l0.nodes[h].parts[j]| && Busy(h) && Freeing(d0, l0, D(), l, h, j, i)
        invariant freeblks == old(freeblks) + i && l.max == old(l.max)
        invariant i > 0 ==> freelist == l0.nodes[h].parts[j][i - 1]
        decreases |l0.nodes[h].parts[j]| - i
      {
        FreeOneBlock(d0, l0, D(), l, h, j, i);
        PutBlock(node.links[i], h);
        i := i + 1;
      }
    }

    /** Free all blocks of a file but its inode and metadata.  The inode keeps its links. */
    method FreeFileDataBlocks(h: nat)
      requires Valid() && h in l.nodes && !l.nodes[h].dir
      modifies `freelist, `freeblks, `l, image
      ensures l.nodes == BuryLayout(old(l), h).nodes && |l.role| == |old(l.role)|
      ensures forall b :: 0 <= b < |l.role| ==> l.role[b] != Loose
      ensures h < image.Length && image[h].Inode? && image[h] == old(image[h]).(next := 0)
      ensures l.nodes[h].meta < image.Length && image[l.nodes[h].meta].Info? && image[l.nodes[h].meta].size == 0
      ensures forall b :: 0 <= b < |l.role| && IsContent(old(l.role)[b], h) ==> l.role[b].ForFree?
      ensures freeblks == old(freeblks) + Occupied(old(l).nodes[h].parts, 0) && l.max == old(l.max)
      ensures Busy(h)
      ensures var n := old(l).nodes[h];
              && (|n.chain| > 1 ==> freelist == Last(n.chain))
              && (|n.chain| == |n.parts| == 1 && n.parts[0] != [] ==> freelist == Last(n.parts[0]))
    {
      hide Inv, Freeing;
      ghost var d0, l0 := D(), l;
      ghost var n := l.nodes[h];
      NodeShape(d0, l0, 0, h);
      HeadAt(d0, l0, 0, h);
      InodeAt(d0, l0, 0, h, 0);
      var fileNode := image[h];
      var fileInfo := image[fileNode.meta];
      StartFreeing(d0, l0, h);
      l := BuryLayout(l, h);
      FreeLinks(fileNode, d0, l0, h, 0);
      FreeHeadDone(d0, l0, D(), l, h);
      FreeChildren(fileNode.next, d0, l0, h);
      FreeingDone(d0, l0, D(), l, h);
      BuriedNode(l0, l, h);
      RewriteBuried(D(), l, h, fileNode.(next := 0), fileInfo.(size := 0));
      image[h] := fileNode.(next := 0);
      image[fileNode.meta] := fileInfo.(size := 0);
      assert D() == RewrittenDisk(D(), h, fileNode.meta, fileNode.(next := 0), fileInfo.(size := 0));
    }

    /** Free the child inodes of a file, each after the blocks it links. */
    method FreeChildren(first: nat, ghost d0: Disk, ghost l0: Layout, ghost h: nat)
      requires Busy(h) && AtRest(d0, l0) && h in l0.nodes && !l0.nodes[h].dir
      requires |l0.nodes[h].chain| == |l0.nodes[h].parts| >= 1
      requires Freeing(d0, l0, D(), l, h, 1, 0)
      requires first == if 1 < |l0.nodes[h].chain| then l0.nodes[h].chain[1] else 0
      requires 1 < |l0.nodes[h].chain| ==> first != 0
      modifies `freelist, `freeblks, `l, image
      ensures Busy(h) && Freeing(d0, l0, D(), l, h, |l0.nodes[h].parts|, 0)
      ensures freeblks == old(freeblks) + Occupied(l0.nodes[h].parts, 1) && l.max == old(l.max)
      ensures freelist == if |l0.nodes[h].chain| > 1 then Last(l0.nodes[h].chain) else old(freelist)
    {
      hide Inv, Freeing;
      ghost var n, j := l0.nodes[h], 1;
      var nextBlk := first;
      while nextBlk != 0
        invariant 1 <= j <= |n.chain| && Busy(h) && Freeing(d0, l0, D(), l, h, j, 0)
        invariant nextBlk == if j < |n.chain| then n.chain[j] else 0
        invariant j < |n.chain| ==> nextBlk != 0
        invariant freeblks + Occupied(n.parts, j) == old(freeblks) + Occupied(n.parts, 1) && l.max == old(l.max)
        invariant freelist == if j > 1 then n.chain[j - 1] else old(freelist)
        decreases |n.chain| - j
      {
        PendingChild(d0, l0, D(), l, h, j);
        var node := image[nextBlk];
        FreeLinks(node, d0, l0, h, j);
        var currBlk := nextBlk;
        nextBlk := node.next;
        FreeOneInode(d0, l0, D(), l, h, j);
        PutBlock(currBlk, h);
        j := j + 1;
      }
    }

    /** Remove the i-th link of an inode by shifting the later ones. */
    method ShiftLinks(links: seq<nat>, i: nat, ghost items: seq<nat>, ghost max: nat) returns (r: seq<nat>)
      requires Linked(links, items, max) && i < |items|
      ensures Linked(r, RemoveAt(items, i), max) && |r| == |links| > |items|
      ensures (forall k :: 0 <= k < i ==> r[k] == links[k]) && forall k :: i <= k < |items| ==> r[k] == links[k + 1]
    {
      r := links;
      assert links[|items|] == 0;
      assert forall k :: 0 <= k < |items| ==> links[k] == links[..|items|][k] != 0;
      var k := i;
      while r[k] != 0
        invariant i <= k <= |items| && |r| == |links|
        invariant forall m :: 0 <= m < i ==> r[m] == links[m]
        invariant forall m :: i <= m < k ==> r[m] == links[m + 1]
        invariant forall m :: k <= m < |links| ==> r[m] == links[m]
        decreases |items| - k
      {
        r := r[k := r[k + 1]];
        k := k + 1;
      }
      LinkedWithout(links, items, max, i, r);
    }

    /** Unlink e from directory p.  The search finds e exactly if e is not the root, which is its own parent
        and nobody's entry; the code aborts if it does not. */
    method UnlinkNode(p: nat, e: nat, ghost z: nat) returns (found: bool, ghost i: nat)
      requires Busy(z) && (z == 0 || z == e) && e in l.nodes && Bare(l, e) && p == l.nodes[e].parent
      modifies `l, image
      ensures found <==> e != ROOT
      ensures !found ==> D() == old(D()) && l == old(l)
      ensures found ==>
                && Busy(0) && In(old(l), e) && In(old(l), old(l).nodes[e].meta)
                && Detached(old(D()), old(l), D(), e, i) && l == DetachLayout(old(l), e, i)
    {
      hide Inv, Detached;
      i := 0;
      ghost var d0 := D();
      UnlinkFrom(D(), l, z, p, e);
      NodeShape(D(), l, z, p);
      InodeAt(D(), l, z, p, 0);
      HeadAt(D(), l, z, p);
      ghost var es := Entries(l.nodes[p]);
      var node := image[p];
      var index, entityIndex := 0, -1;
      while node.links[index] != 0 && entityIndex < 0
        invariant index <= |es| && (entityIndex < 0 ==> entityIndex == -1 && e !in es[..index])
        invariant entityIndex >= 0 ==> entityIndex < |es| && es[entityIndex] == e
        decreases |es| - index, entityIndex < 0
      {
        if node.links[index] == e {
          entityIndex := index;
        } else {
          index := index + 1;
        }
      }
      assert es[..|es|] == es;
      if entityIndex < 0 {
        return false, 0;
      }
      i := entityIndex;
      TakeEntry(p, node, e, entityIndex, z);
      found := true;
    }

    /** Shift the links behind that of e, and count one entry less. */
    method TakeEntry(p: nat, node: Block, e: nat, entityIndex: nat, ghost z: nat)
      requires Busy(z) && (z == 0 || z == e) && e in l.nodes && Bare(l, e) && e != ROOT && p == l.nodes[e].parent
      requires p in l.nodes && |l.nodes[p].parts| >= 1 && p < image.Length && node == image[p]
      requires entityIndex < |Entries(l.nodes[p])| && Entries(l.nodes[p])[entityIndex] == e
      modifies `l, image
      ensures Busy(0) && In(old(l), e) && In(old(l), old(l).nodes[e].meta)
      ensures Detached(old(D()), old(l), D(), e, entityIndex) && l == DetachLayout(old(l), e, entityIndex)
    {
      hide Inv, Detached, RemoveAt;
      ghost var d0 := D();
      ghost var es := Entries(l.nodes[p]);
      UnlinkFrom(D(), l, z, p, e);
      NodeShape(D(), l, z, p);
      InodeAt(D(), l, z, p, 0);
      HeadAt(D(), l, z, p);
      PlaceOf(D(), l, z, e);
      var links := ShiftLinks(node.links, entityIndex, es, l.max);
      image[p] := node.(links := links);
      image[node.meta] := image[node.meta].(size := image[node.meta].size - 1);
      UnlinkedIs(d0, l, D(), z, e, entityIndex, links);
      DetachKeeps(d0, l, D(), z, e, entityIndex);
      l := DetachLayout(l, e, entityIndex);
    }

    /** Unlink a bare node and free its inode and metadata; the root cannot be unlinked. */
    method RemoveNode(e: nat, ghost z: nat) returns (ok: bool)
      requires Busy(z) && (z == 0 || z == e) && e in l.nodes && Bare(l, e)
      requires forall b :: 0 <= b < |l.role| ==> l.role[b] != Loose
      modifies `freelist, `freeblks, `l, image
      ensures ok <==> e != ROOT
      ensures !ok ==> D() == old(D()) && l == old(l)
      ensures ok ==> Valid() && Gone(old(l), l, e) && freelist == e && freeblks == old(freeblks) + 2
    {
      hide Inv, Detached, Gone;
      HeadAt(D(), l, z, e);
      var node := image[e];
      ghost var d0, l0 := D(), l;
      var found;
      ghost var i;
      found, i := UnlinkNode(node.parent, e, z);
      if !found {
        return false;
      }
      ghost var d1 := D();
      PutBlock(node.meta, 0);
      PutBlock(e, 0);
      DetachIsGone(d0, l0, d1, z, e, i, l);
      return true;
    }

    // -------------------------------------------------------------------------------------------
    // The operations that users call
    // -------------------------------------------------------------------------------------------

    /** fs_read_file: the bytes of a file. */
    method ReadFile(path: string) returns (status: Status, bytes: seq<byte>)
      requires Valid() && GoodPath(l, path) && At(l, Tokens(path)) != Some(Dir)
      ensures At(l, Tokens(path)) == if status == Ok then Some(File(bytes)) else None
      ensures status == Ok || status == NoEntry
    {
      hide Inv;
      InvTree(D(), l);
      RootIsNode(l);
      AtNode(l, Tokens(path));
      var b, full, left := GetInodeBlock(path);
      if !full {
        return NoEntry, [];
      }
      LookupIsNode(l, ROOT, Tokens(path));
      bytes := ReadFrom(b);
      return Ok, bytes;
    }

    /** fs_mkdir: an empty directory at a path that does not exist; if its parent does not exist either, the
        first missing directory is made instead. */
    method Mkdir(path: string) returns (status: Status)
      requires Valid() && GoodPath(l, path) && PlaceFor(l, Tokens(path))
      modifies `freelist, `freeblks, `l, image
      ensures status == Ok || status == Exists || status == RanOut
      ensures status == Exists <==> At(old(l), Tokens(path)).Some?
      ensures status == RanOut <==> At(old(l), Tokens(path)) == None && old(freeblks) < 2
      ensures status == Exists ==> Valid() && D() == old(D()) && l == old(l)
      ensures status == RanOut ==> freeblks == 0
      ensures status == Ok ==>
                && Valid() && NewAt(old(l), l, FirstMissing(old(l), Tokens(path)), Dir)
                && FirstMissing(old(l), Tokens(path)) != [] && |Last(FirstMissing(old(l), Tokens(path)))| < 50
                && freeblks == old(freeblks) - 2
    {
      hide Inv, Made, EntryAdded, NewAt, FirstMissing;
      ghost var d0, l0, toks := D(), l, Tokens(path);
      InvTree(D(), l);
      RootIsNode(l);
      AtNode(l, toks);
      var parent, full, name := GetInodeBlock(path);
      if full {
        return Exists;
      }
      FirstMissingIs(l, toks);
      var ok, e := CreateEntity(parent, name, Directory);
      if !ok {
        return RanOut;
      }
      CreatedIsNew(d0, l0, l, FirstMissing(l0, toks), e, true);
      return Ok;
    }

    /** fs_write_file: bytes at a path that does not exist, or leads to a file.  If not even the parent of the
        path exists, the first missing name is made a file.  A file that is not empty is overwritten, and the
        image that this leaves is the image of no file system.  Its inodes then link stale blocks in front of
        those of the chunks, and reading finds every chunk in its place exactly if nothing was written, or one
        block over one block. */
    method WriteFile(path: string, buf: seq<byte>)
        returns (status: Status, ghost links: seq<nat>, ghost chunks: seq<seq<byte>>)
      requires Valid() && path != "/" && GoodPath(l, path) && PlaceFor(l, Tokens(path))
      requires At(l, Tokens(path)) != Some(Dir)
      modifies `freelist, `freeblks, `l, image
      ensures status == Ok || status == NoSpace || status == RanOut
      ensures status == NoSpace <==> old(freeblks) == 0 || |buf| >= blksz * (old(freeblks) + 1)
      ensures status == NoSpace ==> Valid() && D() == old(D()) && l == old(l)
      ensures status == RanOut <==>
                && status != NoSpace
                && if At(old(l), Tokens(path)) == None then old(freeblks) < NewFileCost(|buf|, blksz, old(l.max))
                   else old(freeblks) + BlocksAt(old(l), Tokens(path))
                        < Cost(LinksAt(old(l), Tokens(path)), Chunks(|buf|, blksz), old(l.max))
      ensures status == RanOut ==> freeblks == 0
      ensures At(old(l), Tokens(path)) == None ==>
                (status == Ok <==> old(freeblks) >= 2
                                   && |buf| <= blksz * (old(l.max) * (old(freeblks) - 1) / (old(l.max) + 1)))
      ensures status == Ok && At(old(l), Tokens(path)) == None ==>
                && Valid() && NewAt(old(l), l, FirstMissing(old(l), Tokens(path)), File(buf))
                && freeblks == old(freeblks) - NewFileCost(|buf|, blksz, l.max)
      ensures status == Ok && At(old(l), Tokens(path)) == Some(File([])) ==>
                && Valid() && OnlyAt(old(l), l, Tokens(path), Some(File(buf)))
                && freeblks == old(freeblks) - Cost(0, Chunks(|buf|, blksz), l.max)
      ensures status == Ok && At(old(l), Tokens(path)).Some? && At(old(l), Tokens(path)) != Some(File([])) ==>
                && (forall l2 :: !AtRest(D(), l2))
                && freeblks == old(freeblks) + BlocksAt(old(l), Tokens(path))
                               - Cost(LinksAt(old(l), Tokens(path)), Chunks(|buf|, blksz), old(l.max))
                && CutUp(buf, chunks, blksz)
                && Lookup(old(l), ROOT, Tokens(path)).Some?
                && Overwritten(image[..], Lookup(old(l), ROOT, Tokens(path)).value, LinksAt(old(l), Tokens(path)),
                               links, chunks, l.max)
                && (RightPlaces(links, LinksAt(old(l), Tokens(path)))
                    <==> buf == [] || (|chunks| == 1 && BlocksAt(old(l), Tokens(path)) == 1))
    {
      hide Inv, AtRest, NewAt, OnlyAt, Cost, Lookup, HasParent, HasRoom, FirstMissing, PlaceFor, Overwritten, RightPlaces,
           CutUp;
      links, chunks := [], [];
      var numBlocks := |buf| / blksz;
      if numBlocks == 0 {
        numBlocks := 1;
      }
      CheckAndCost(freeblks, |buf|);
      if numBlocks > freeblks {
        return NoSpace, links, chunks;
      }
      ghost var path' := Tokens(path);
      StartOfWrite(D(), l, path, path');
      var b, full, name := GetInodeBlock(path);
      var ok;
      if !full {
        ok := WriteNewFile(b, name, buf, FirstMissing(l, path'));
      } else {
        ok, links, chunks := WriteOverFile(b, buf, path');
      }
      status := if ok then Ok else RanOut;
    }

    lemma CheckAndCost(free: nat, n: nat)
      requires blksz > 0 && l.max > 0
      ensures Checked(n, blksz) > free <==> free == 0 || n >= blksz * (free + 1)
      ensures NewFileCost(n, blksz, l.max) <= free
              <==> free >= 2 && n <= blksz * (l.max * (free - 1) / (l.max + 1))
      ensures Checked(n, blksz) < NewFileCost(n, blksz, l.max)
    {
      CheckedIff(n, blksz, free);
      NewFileFitsIff(n, blksz, l.max, free);
      CheckIsTooWeak(n, blksz, l.max);
    }

    /** The case of a path that does not exist. */
    method WriteNewFile(parent: nat, name: string, buf: seq<byte>, ghost path: seq<string>) returns (ok: bool)
      requires Valid() && HasParent(l, path) && parent == Parent(l, path) && name == Last(path)
      requires Lookup(l, ROOT, path) == None && ChildOf(l, parent, name) == None && HasRoom(l, parent)
      modifies `freelist, `freeblks, `l, image
      ensures ok <==> old(freeblks) >= NewFileCost(|buf|, blksz, old(l.max))
      ensures !ok ==> freeblks == 0
      ensures ok ==>
                && Valid() && NewAt(old(l), l, path, File(buf)) && l.max == old(l.max)
                && freeblks == old(freeblks) - NewFileCost(|buf|, blksz, l.max)
    {
      hide Inv, Made, EntryAdded, NewAt, Wrote, Cost, Lookup, Stale;
      ghost var d0, l0 := D(), l;
      var e;
      ok, e := CreateEntity(parent, name, Regular);
      if !ok {
        return;
      }
      ghost var l1 := l;
      CreatedIsNew(d0, l0, l1, path, e, false);
      MadeIsEmpty(l0, l1, parent, e, name);
      InvTree(D(), l1);
      EmptyFile(D(), l1, e);
      NotNull(D(), l1, e);
      ghost var chain, parts;
      ghost var chunks;
      ok, chain, parts, chunks := WriteToFile(e, buf, 0, [], 0);
      if ok {
        WroteNew(l0, l1, l, path, e, buf);
      }
    }

    /** The case of an existing file. */
    method WriteOverFile(b: nat, buf: seq<byte>, ghost path: seq<string>)
        returns (ok: bool, ghost links: seq<nat>, ghost chunks: seq<seq<byte>>)
      requires Valid() && Lookup(l, ROOT, path) == Some(b) && b in l.nodes && !l.nodes[b].dir
      requires |l.nodes[b].parts| >= 1
      modifies `freelist, `freeblks, `l, image
      ensures var n := old(l).nodes[b];
              ok <==> old(freeblks) + Occupied(n.parts, 0) >= Cost(|n.parts[0]|, Chunks(|buf|, blksz), old(l.max))
      ensures !ok ==> freeblks == 0
      ensures ok && Contents(old(l).nodes[b]) == [] ==>
                && Valid() && OnlyAt(old(l), l, path, Some(File(buf))) && l.max == old(l.max)
                && freeblks == old(freeblks) - Cost(0, Chunks(|buf|, blksz), l.max)
      ensures ok && Contents(old(l).nodes[b]) != [] ==>
                freeblks == old(freeblks) + Occupied(old(l).nodes[b].parts, 0)
                            - Cost(|old(l).nodes[b].parts[0]|, Chunks(|buf|, blksz), old(l.max))
      ensures ok && Contents(old(l).nodes[b]) != [] ==>
                && (forall l2 :: !AtRest(D(), l2)) && CutUp(buf, chunks, blksz)
                && Overwritten(image[..], b, |old(l).nodes[b].parts[0]|, links, chunks, l.max)
                && (RightPlaces(links, |old(l).nodes[b].parts[0]|)
                    <==> buf == [] || (|chunks| == 1 && Occupied(old(l).nodes[b].parts, 0) == 1))
    {
      hide Inv, Wrote, Cost, Lookup, Stale, Threaded, LaidOut, CutUp, Overwritten, RightPlaces;
      ghost var d0, l0 := D(), l;
      ghost var n := l.nodes[b];
      FirstLinks(d0, l0, b);
      FreeFileDataBlocks(b);
      ghost var d1, l1 := D(), l;
      ghost var z, first := if Contents(n) == [] then 0 else b, 0;
      if z == 0 {
        EmptyAgain(d0, l0, d1, l1, b);
        EmptyFileHasNoBlocks(d0, l0, b);
        EmptyFile(d1, l1, b);
      } else {
        StaleStart(d0, l0, d1, l1, b);
        first := n.parts[0][0];
      }
      ghost var chain, parts;
      ok, chain, parts, chunks := WriteToFile(b, buf, z, n.parts[0], first);
      links := Concat(parts);
      if ok && z == 0 {
        InvTree(d1, l1);
        RewrittenAt(l0, l1, l, path, b, buf);
      } else if ok {
        forall l2 ensures !AtRest(D(), l2) {
          StaleIsNeverAtRest(D(), l, b, chain, parts, first, l2);
        }
        StaleIsThreaded(D(), l, b, chain, parts, first);
        ReadBackIff(d0, l0, D(), l, b, chain, parts, chunks, d1.freelist, freelist, buf);
      }
    }

    /** fs_unlink: a file is gone, with all its blocks. */
    method Unlink(path: string) returns (status: Status)
      requires Valid() && GoodPath(l, path) && At(l, Tokens(path)) != Some(Dir)
      modifies `freelist, `freeblks, `l, image
      ensures Valid() && (status == Ok || status == NoEntry)
      ensures status == NoEntry <==> At(old(l), Tokens(path)) == None
      ensures status == NoEntry ==> D() == old(D()) && l == old(l)
      ensures status == Ok ==> RemovedAt(old(l), l, Tokens(path))
      ensures status == Ok ==>
                Lookup(old(l), ROOT, Tokens(path)) == Some(freelist)
                && freeblks == old(freeblks) + 2 + BlocksAt(old(l), Tokens(path))
    {
      hide Inv, Gone, RemovedAt;
      ghost var l0, toks := l, Tokens(path);
      InvTree(D(), l);
      RootIsNode(l);
      AtNode(l, toks);
      var b, full, left := GetInodeBlock(path);
      if !full {
        return NoEntry;
      }
      FreeFileDataBlocks(b);
      ghost var l1 := l;
      InvTreeAny(D(), l, b);
      BuriedNode(l0, l1, b);
      LookupIsNode(l0, ROOT, toks);
      FileIsNoRoot(D(), l, b);
      var _ := RemoveNode(b, b);
      UnlinkedAt(l0, l1, l, toks, b);
      return Ok;
    }

    /** fs_rmdir: an empty directory is gone.  The root never is: if it is empty, the code aborts. */
    method Rmdir(path: string) returns (status: Status)
      requires Valid() && GoodPath(l, path)
      modifies `freelist, `freeblks, `l, image
      ensures Valid() && status != Exists && status != NoSpace && status != RanOut
      ensures status == NoEntry <==> At(old(l), Tokens(path)) == None
      ensures status == NotADirectory <==> At(old(l), Tokens(path)).Some? && At(old(l), Tokens(path)) != Some(Dir)
      ensures status == NotEmpty <==>
                && At(old(l), Tokens(path)) == Some(Dir)
                && exists name :: At(old(l), Tokens(path) + [name]).Some?
      ensures status == Aborted ==> Tokens(path) == []
      ensures status == Ok ==> Tokens(path) != []
      ensures status != Ok ==> D() == old(D()) && l == old(l)
      ensures status == Ok ==> RemovedAt(old(l), l, Tokens(path))
      ensures status == Ok ==> Lookup(old(l), ROOT, Tokens(path)) == Some(freelist) && freeblks == old(freeblks) + 2
    {
      hide Inv, Gone, RemovedAt;
      ghost var l0, toks := l, Tokens(path);
      InvTree(D(), l);
      RootIsNode(l);
      AtNode(l, toks);
      var b, full, left := GetInodeBlock(path);
      if !full {
        return NoEntry;
      }
      HeadAt(D(), l, 0, b);
      var node := image[b];
      if node.mode != Directory {
        return NotADirectory;
      }
      EntriesArePaths(l, toks, b);
      if image[node.meta].size != 0 {
        return NotEmpty;
      }
      LookupIsNode(l, ROOT, toks);
      BareDir(D(), l, b);
      var ok := RemoveNode(b, 0);
      if !ok {
        return Aborted;
      }
      RmdirAt(l0, l, toks, b);
      return Ok;
    }

    // -------------------------------------------------------------------------------------------
    // Operations that undo each other
    // -------------------------------------------------------------------------------------------

    /** A new file whose parent exists, with enough free blocks. */
    method WriteWhole(path: string, buf: seq<byte>)
      requires Valid() && path != "/" && At(l, Tokens(path)) == None
      requires CanMake(l, Tokens(path), NewFileCost(|buf|, blksz, l.max), freeblks)
      modifies `freelist, `freeblks, `l, image
      ensures Valid() && NewAt(old(l), l, Tokens(path), File(buf))
      ensures freeblks == old(freeblks) - NewFileCost(|buf|, blksz, l.max)
    {
      hide Inv, Lookup, Cost, NewAt, FirstMissing, PlaceFor, HasParent, Walkable, At, NewFileCost, Checked;
      InvTree(D(), l);
      WithParent(l, Tokens(path));
      CheckAndCost(freeblks, |buf|);
      var status, _, _ := WriteFile(path, buf);
    }

    /** What is written to a new file is what is read from it. */
    method WriteThenRead(path: string, buf: seq<byte>) returns (out: seq<byte>)
      requires Valid() && path != "/" && At(l, Tokens(path)) == None
      requires CanMake(l, Tokens(path), NewFileCost(|buf|, blksz, l.max), freeblks)
      modifies `freelist, `freeblks, `l, image
      ensures Valid() && out == buf
    {
      hide Inv, Lookup, Cost, NewAt, FirstMissing, PlaceFor, HasParent, Walkable, At;
      ghost var l0 := l;
      InvTree(D(), l0);
      WriteWhole(path, buf);
      InvTree(D(), l);
      NewIsReachable(l0, l, Tokens(path), File(buf));
      WithParent(l, Tokens(path));
      var status;
      status, out := ReadFile(path);
    }

    /** Creating a file of any size and unlinking it conserves the free blocks. */
    method WriteThenUnlink(path: string, buf: seq<byte>)
      requires Valid() && path != "/" && At(l, Tokens(path)) == None
      requires CanMake(l, Tokens(path), NewFileCost(|buf|, blksz, l.max), freeblks)
      modifies `freelist, `freeblks, `l, image
      ensures Valid() && l.nodes == old(l.nodes) && freeblks == old(freeblks)
      ensures forall b :: b in l.free <==> b in old(l.free)
    {
      hide Inv, Lookup, Cost, NewAt, RemovedAt, FirstMissing, PlaceFor, HasParent, Walkable, At;
      ghost var d0, l0 := D(), l;
      InvTree(D(), l0);
      WriteWhole(path, buf);
      ghost var l1 := l;
      InvTree(D(), l);
      NewIsReachable(l0, l, Tokens(path), File(buf));
      WithParent(l, Tokens(path));
      var status := Unlink(path);
      MakingAndRemoving(d0, l0, l1, D(), l, Tokens(path), File(buf));
    }

    /** So does making a directory and removing it. */
    method MkdirThenRmdir(path: string)
      requires Valid() && path != "/" && At(l, Tokens(path)) == None
      requires CanMake(l, Tokens(path), 2, freeblks)
      modifies `freelist, `freeblks, `l, image
      ensures Valid() && l.nodes == old(l.nodes) && freeblks == old(freeblks)
      ensures forall b :: b in l.free <==> b in old(l.free)
    {
      hide Inv, Lookup, NewAt, RemovedAt, At, HasParent, FirstMissing, PlaceFor, Walkable;
      ghost var d0, l0 := D(), l;
      InvTree(D(), l0);
      WithParent(l, Tokens(path));
      var status := Mkdir(path);
      ghost var l1 := l;
      InvTree(D(), l);
      NewIsReachable(l0, l, Tokens(path), Dir);
      WithParent(l, Tokens(path));
      NothingBelow(l0, l1, Tokens(path));
      status := Rmdir(path);
      MakingAndRemoving(d0, l0, l1, D(), l, Tokens(path), Dir);
    }

    /** Take blocks until none is left: as many distinct free blocks as counted. */
    method Drain() returns (taken: seq<nat>)
      requires Valid()
      modifies `freelist, `freeblks, `l, image
      ensures Busy(0) && freeblks == 0 && |taken| == old(freeblks) && l.nodes == old(l.nodes)
      ensures forall b :: b in taken ==> b in old(l.free)
      ensures AllLoose(l, taken)
    {
      hide Inv;
      taken := [];
      ghost var l0 := l;
      while freeblks != 0
        invariant Busy(0) && |taken| + freeblks == old(freeblks) && l.nodes == l0.nodes
        invariant l.free <= l0.free && AllLoose(l, taken) && forall b :: b in taken ==> b in l0.free
      {
        ghost var l1 := l;
        var b := GetBlock(0);
        OneMoreLoose(l1, l, taken, b);
        taken := taken + [b];
      }
    }

    /** Put blocks back in any order: all blocks are at rest again. */
    method Refill(taken: seq<nat>)
      requires Busy(0) && AllLoose(l, taken)
      modifies `freelist, `freeblks, `l, image
      ensures Valid() && freeblks == old(freeblks) + |taken| && l.nodes == old(l.nodes)
    {
      hide Inv;
      for i := 0 to |taken|
        invariant Busy(0) && AllLoose(l, taken[i..]) && freeblks == old(freeblks) + i && l.nodes == old(l.nodes)
      {
        OneLessLoose(l, taken[i..]);
        PutBlock(taken[i], 0);
        assert taken[i..][1..] == taken[i + 1..];
      }
    }

    /** Draining the free list and putting the blocks back, in any order, conserves the free blocks. */
    method DrainThenRefill()
      requires Valid()
      modifies `freelist, `freeblks, `l, image
      ensures Valid() && l.nodes == old(l.nodes) && freeblks == old(freeblks)
      ensures forall b :: b in l.free <==> b in old(l.free)
    {
      hide Inv;
      ghost var d0, l0 := D(), l;
      var taken := Drain();
      var order: seq<nat> := *;
      if multiset(order) != multiset(taken) {
        order := taken;
      }
      Reordered(l, taken, order);
      Refill(order);
      FreeIsDeterminedByTree(d0, l0, D(), l);
    }
  }
}
