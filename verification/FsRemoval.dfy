/** Freeing the blocks of a file one by one, and unlinking a node. */
module FsRemoval {
  import opened Common
  import opened FsLayout
  import opened FsSteps
  import opened FsTreeSteps
  import opened FsTree
  import opened FsReading

  /** What is still to be freed when the j-th inode's first i links have been: its other blocks, later
      inodes' blocks, and the child inodes from the j-th on. */
  predicate Pending(r: Role, h: nat, j: nat, i: nat) {
    || (r.ForData? && r.h == h && (r.j > j || (r.j == j && r.i >= i)))
    || (r.ForChild? && r.h == h && r.j >= j)
  }

  ghost predicate Freeing(d0: Disk, l0: Layout, d: Disk, l: Layout, h: nat, j: nat, i: nat)
    requires h in l0.nodes
  {
    && |d0.img| == |l0.role| == |l.role| == |d.img| && l.nodes == BuryLayout(l0, h).nodes
    && (forall b :: 0 <= b < |l.role| ==> (l.role[b] == Loose <==> Pending(l0.role[b], h, j, i)))
    && (forall b :: 0 <= b < |l.role| && Pending(l0.role[b], h, j, i) ==> d.img[b] == d0.img[b])
    && (forall b :: 0 <= b < |l.role| && IsContent(l0.role[b], h) && !Pending(l0.role[b], h, j, i) ==>
                      l.role[b].ForFree?)
  }

  lemma StartFreeing(d: Disk, l: Layout, h: nat)
    requires AtRest(d, l) && h in l.nodes && !l.nodes[h].dir
    ensures Inv(d, BuryLayout(l, h), h) && Freeing(d, l, d, BuryLayout(l, h), h, 0, 0)
  {
    hide Inv;
    BuryKeeps(d, l, h);
    InvTree(d, l);
    assert forall b :: 0 <= b < |l.role| ==> (IsContent(l.role[b], h) <==> Pending(l.role[b], h, 0, 0));
  }

  /** Freeing the i-th block of the j-th inode. */
  lemma FreeOneBlock(d0: Disk, l0: Layout, d: Disk, l: Layout, h: nat, j: nat, i: nat)
    requires AtRest(d0, l0) && h in l0.nodes && !l0.nodes[h].dir && Freeing(d0, l0, d, l, h, j, i)
    requires j < |l0.nodes[h].parts| && i < |l0.nodes[h].parts[j]|
    ensures var b := l0.nodes[h].parts[j][i];
            && Has(l, b, Loose) && b < |d.img|
            && Freeing(d0, l0, GiveDisk(d, b), GiveLayout(l, b), h, j, i + 1)
  {
    hide TreeOK, FreeOK, ShapeOK, NodeImage;
    var b := l0.nodes[h].parts[j][i];
    assert NodeOK(d0.img, l0, h, 0);
    assert Has(l0, b, ForData(h, j, i));
    forall c | 0 <= c < |l0.role| && c != b ensures Pending(l0.role[c], h, j, i) <==> Pending(l0.role[c], h, j, i + 1) {
      assert RoleOK(l0, c);
    }
    assert l0.role[0] == ForSuper;
  }

  /** Freeing the j-th inode itself once its links are done. */
  lemma FreeOneInode(d0: Disk, l0: Layout, d: Disk, l: Layout, h: nat, j: nat)
    requires AtRest(d0, l0) && h in l0.nodes && !l0.nodes[h].dir
    requires 1 <= j < |l0.nodes[h].parts| && Freeing(d0, l0, d, l, h, j, |l0.nodes[h].parts[j]|)
    ensures j < |l0.nodes[h].chain|
    ensures var b := l0.nodes[h].chain[j];
            && Has(l, b, Loose) && b < |d.img|
            && Freeing(d0, l0, GiveDisk(d, b), GiveLayout(l, b), h, j + 1, 0)
  {
    hide TreeOK, FreeOK, ShapeOK, NodeImage;
    assert NodeOK(d0.img, l0, h, 0);
    var b := l0.nodes[h].chain[j];
    assert Has(l0, b, ForChild(h, j));
    forall c | 0 <= c < |l0.role| && c != b
      ensures Pending(l0.role[c], h, j, |l0.nodes[h].parts[j]|) <==> Pending(l0.role[c], h, j + 1, 0)
    {
      assert RoleOK(l0, c);
    }
    assert l0.role[0] == ForSuper;
  }

  /** After the first inode's links, the child inodes are left. */
  lemma FreeHeadDone(d0: Disk, l0: Layout, d: Disk, l: Layout, h: nat)
    requires AtRest(d0, l0) && h in l0.nodes && !l0.nodes[h].dir && |l0.nodes[h].parts| >= 1
    requires Freeing(d0, l0, d, l, h, 0, |l0.nodes[h].parts[0]|)
    ensures Freeing(d0, l0, d, l, h, 1, 0)
  {
    hide TreeOK, FreeOK, NodeOK;
    forall c | 0 <= c < |l0.role|
      ensures Pending(l0.role[c], h, 0, |l0.nodes[h].parts[0]|) <==> Pending(l0.role[c], h, 1, 0)
    {
      assert RoleOK(l0, c);
    }
  }

  /** After the last inode, nothing is left. */
  lemma FreeingDone(d0: Disk, l0: Layout, d: Disk, l: Layout, h: nat)
    requires AtRest(d0, l0) && h in l0.nodes && !l0.nodes[h].dir
    requires Freeing(d0, l0, d, l, h, |l0.nodes[h].parts|, 0)
    ensures l.nodes == BuryLayout(l0, h).nodes && |l.role| == |l0.role|
    ensures forall b :: 0 <= b < |l.role| ==> l.role[b] != Loose
    ensures forall b :: 0 <= b < |l.role| && IsContent(l0.role[b], h) ==> l.role[b].ForFree?
  {
    hide TreeOK, FreeOK, ShapeOK, NodeImage;
    assert NodeOK(d0.img, l0, h, 0);
    forall c | 0 <= c < |l0.role| ensures !Pending(l0.role[c], h, |l0.nodes[h].parts|, 0) {
      assert RoleOK(l0, c);
    }
  }

  /** A child inode whose turn has not come is as it was. */
  lemma PendingChild(d0: Disk, l0: Layout, d: Disk, l: Layout, h: nat, j: nat)
    requires AtRest(d0, l0) && h in l0.nodes && !l0.nodes[h].dir && 1 <= j < |l0.nodes[h].chain|
    requires Freeing(d0, l0, d, l, h, j, 0)
    ensures |l0.nodes[h].chain| == |l0.nodes[h].parts| && l0.nodes[h].chain[j] < |d.img|
    ensures AtInode(l0.nodes[h], j, d.img[l0.nodes[h].chain[j]])
  {
    hide Inv, ShapeOK;
    NodeShape(d0, l0, 0, h);
    InodeAt(d0, l0, 0, h, j);
    assert Has(l0, l0.nodes[h].chain[j], ForChild(h, j));
  }

  lemma BuriedNode(l: Layout, l': Layout, h: nat)
    requires h in l.nodes && l'.nodes == BuryLayout(l, h).nodes
    ensures h in l'.nodes && l'.nodes[h].parent == l.nodes[h].parent && l'.nodes[h].meta == l.nodes[h].meta
    ensures l'.nodes[h].name == l.nodes[h].name && l'.nodes[h].dir == l.nodes[h].dir && Bare(l', h)
  {
  }

  ghost function RewrittenDisk(d: Disk, h: nat, m: nat, x: Block, y: Block): Disk
    requires h < |d.img| && m < |d.img|
  {
    d.(img := d.img[h := x][m := y])
  }

  /** A file that is being removed may get its inode and metadata rewritten. */
  lemma RewriteBuriedFree(d: Disk, l: Layout, h: nat, x: Block, y: Block)
    requires Inv(d, l, h) && h in l.nodes
    ensures h < |d.img| && l.nodes[h].meta < |d.img|
    ensures FreeOK(RewrittenDisk(d, h, l.nodes[h].meta, x, y), l)
  {
    hide TreeOK, ShapeOK;
    assert NodeOK(d.img, l, h, h);
    hide NodeOK, NodeImage;
    var img := RewrittenDisk(d, h, l.nodes[h].meta, x, y).img;
    forall k | 0 <= k < |l.free| ensures FreeBlockOK(img, l, k) {
      assert FreeBlockOK(d.img, l, k);
    }
  }

  lemma RewriteBuriedNode(d: Disk, l: Layout, h: nat, x: Block, y: Block, g: nat)
    requires SuperOK(d, l) && h in l.nodes && NodeOK(d.img, l, h, h) && g in l.nodes && NodeOK(d.img, l, g, h)
    requires x.Inode? && x.mode == Regular && x.parent == l.nodes[h].parent && x.meta == l.nodes[h].meta
    requires y.Info? && y.name == l.nodes[h].name
    ensures h < |d.img| && l.nodes[h].meta < |d.img| && l.nodes[h].meta != h
    ensures NodeOK(RewrittenDisk(d, h, l.nodes[h].meta, x, y).img, l, g, h)
  {
    hide ShapeOK;
    var img := RewrittenDisk(d, h, l.nodes[h].meta, x, y).img;
    if g != h {
      OwnedByOther(l, g);
      NodeFrame(d.img, l, img, l, g, h, h);
    }
  }

  lemma RewriteBuried(d: Disk, l: Layout, h: nat, x: Block, y: Block)
    requires Inv(d, l, h) && h in l.nodes
    requires x.Inode? && x.mode == Regular && x.parent == l.nodes[h].parent && x.meta == l.nodes[h].meta
    requires y.Info? && y.name == l.nodes[h].name
    ensures h < |d.img| && l.nodes[h].meta < |d.img| && l.nodes[h].meta != h
    ensures Inv(RewrittenDisk(d, h, l.nodes[h].meta, x, y), l, h)
  {
    hide TreeOK, RoleOK, ShapeOK, FreeOK, NodeImage;
    assert NodeOK(d.img, l, h, h);
    RewriteBuriedFree(d, l, h, x, y);
    var img := RewrittenDisk(d, h, l.nodes[h].meta, x, y).img;
    forall g | g in l.nodes ensures NodeOK(img, l, g, h) {
      assert NodeOK(d.img, l, g, h);
      hide NodeOK;
      RewriteBuriedNode(d, l, h, x, y, g);
    }
  }

  lemma OwnedByOther(l: Layout, g: nat)
    requires g in l.nodes && NodeRoles(l, g)
    ensures g > 0
  {
  }

  // ---------------------------------------------------------------------------------------------
  // Unlinking
  // ---------------------------------------------------------------------------------------------

  /** The parent's entries: a node is among them exactly if it is not the root. */
  lemma UnlinkFrom(d: Disk, l: Layout, z: nat, p: nat, e: nat)
    requires Inv(d, l, z) && (z == 0 || z == e) && e in l.nodes && p == l.nodes[e].parent
    ensures p in l.nodes && p != z && l.nodes[p].dir && |l.nodes[p].parts| == 1 == |l.nodes[p].chain|
    ensures e in Entries(l.nodes[p]) <==> e != ROOT
  {
    if e == ROOT {
      RootEntries(d, l, z);
    } else {
      PlaceOf(d, l, z, e);
    }
  }

  lemma RootEntries(d: Disk, l: Layout, z: nat)
    requires Inv(d, l, z)
    ensures ROOT in l.nodes && l.nodes[ROOT].dir && l.nodes[ROOT].parent == ROOT && ROOT != z
    ensures |l.nodes[ROOT].parts| == 1 == |l.nodes[ROOT].chain| && ROOT !in Entries(l.nodes[ROOT])
  {
    hide FreeOK, RoleOK;
    assert NodeOK(d.img, l, ROOT, z);
    assert EntriesOK(l, ROOT);
  }

  lemma FileIsNoRoot(d: Disk, l: Layout, h: nat)
    requires Inv(d, l, h) && h in l.nodes
    ensures h != ROOT
  {
    hide Inv;
    RootEntries(d, l, h);
  }

  lemma PlaceOf(d: Disk, l: Layout, z: nat, e: nat)
    requires Inv(d, l, z) && e in l.nodes && e != ROOT
    ensures var p := l.nodes[e].parent;
            && p in l.nodes && p != e && l.nodes[p].dir && |l.nodes[p].parts| == 1 == |l.nodes[p].chain|
            && e in Entries(l.nodes[p]) && In(l, e) && In(l, l.nodes[e].meta)
            && (z == 0 || z == e ==> p != z)
  {
    hide FreeOK, RoleOK, NodeImage;
    assert PlaceOK(l, e);
    assert NodeOK(d.img, l, e, z) && NodeOK(d.img, l, l.nodes[e].parent, z);
  }

  lemma UnlinkedIs(d: Disk, l: Layout, d': Disk, z: nat, e: nat, i: nat, links: seq<nat>)
    requires Inv(d, l, z) && (z == 0 || z == e) && e in l.nodes && e != ROOT && l.nodes[e].parent in l.nodes
    requires |l.nodes[l.nodes[e].parent].parts| >= 1
    requires i < |Entries(l.nodes[l.nodes[e].parent])| && Entries(l.nodes[l.nodes[e].parent])[i] == e
    requires Linked(links, RemoveAt(Entries(l.nodes[l.nodes[e].parent]), i), l.max)
    requires var p := l.nodes[e].parent;
             && p < |d.img| && l.nodes[p].meta < |d.img| && l.nodes[p].meta != p
             && d.img[p].Inode? && d.img[l.nodes[p].meta].Info? && d.img[l.nodes[p].meta].size >= 1
             && d' == d.(img := d.img[p := d.img[p].(links := links)]
                                     [l.nodes[p].meta := d.img[l.nodes[p].meta].(size := d.img[l.nodes[p].meta].size - 1)])
    ensures |d.img| == |l.role| && Detached(d, l, d', e, i)
  {
    hide FreeOK, RoleOK, TreeOK, ShapeOK, NodeOK, Linked;
  }

  /** The nodes after e is removed: its directory has one entry less, and nothing else changed. */
  ghost predicate Dropped(l: Layout, l': Layout, e: nat) {
    && e in l.nodes && l.nodes[e].parent in l.nodes && |l.nodes[l.nodes[e].parent].parts| >= 1
    && l'.nodes.Keys == l.nodes.Keys - {e}
    && (forall g :: g in l'.nodes && g != l.nodes[e].parent ==> l'.nodes[g] == l.nodes[g])
    && (exists i :: 0 <= i < |Entries(l.nodes[l.nodes[e].parent])|
          && Entries(l.nodes[l.nodes[e].parent])[i] == e
          && l.nodes[e].parent in l'.nodes
          && l'.nodes[l.nodes[e].parent] ==
             WithEntries(l.nodes[l.nodes[e].parent], RemoveAt(Entries(l.nodes[l.nodes[e].parent]), i)))
  }

  /** Node e is gone; its own path leads nowhere and all others lead where they led before. */
  ghost predicate Gone(l: Layout, l': Layout, e: nat) {
    && Dropped(l, l', e) && e != ROOT
    && forall path :: Lookup(l', ROOT, path) == if Lookup(l, ROOT, path) == Some(e) then None else Lookup(l, ROOT, path)
  }

  lemma DetachIsDropped(l: Layout, e: nat, i: nat, l': Layout)
    requires e in l.nodes && l.nodes[e].parent in l.nodes && |l.nodes[l.nodes[e].parent].parts| >= 1
    requires l.nodes[e].parent != e && i < |Entries(l.nodes[l.nodes[e].parent])|
    requires Entries(l.nodes[l.nodes[e].parent])[i] == e && In(l, e) && In(l, l.nodes[e].meta)
    requires l'.nodes == DetachLayout(l, e, i).nodes
    ensures Dropped(l, l', e)
  {
  }

  lemma DetachIsGone(d: Disk, l: Layout, d': Disk, z: nat, e: nat, i: nat, l': Layout)
    requires Inv(d, l, z) && (z == 0 || z == e) && Detached(d, l, d', e, i) && Bare(l, e)
    requires In(l, e) && In(l, l.nodes[e].meta) && l'.nodes == DetachLayout(l, e, i).nodes
    ensures Gone(l, l', e)
  {
    hide Inv, Lookup, TreeOK;
    var l1 := DetachLayout(l, e, i);
    PlaceOf(d, l, z, e);
    InvTreeAny(d, l, z);
    DetachIsDropped(l, e, i, l');
    hide Dropped;
    forall path
      ensures Lookup(l', ROOT, path) == if Lookup(l, ROOT, path) == Some(e) then None else Lookup(l, ROOT, path)
    {
      RootIsNode(l);
      LookupAfterDetach(d, l, d', e, i, ROOT, path);
      LookupSame(l1, l', ROOT, path);
    }
  }

  lemma InvTreeAny(d: Disk, l: Layout, z: nat)
    requires Inv(d, l, z)
    ensures TreeOK(l) && |d.img| == |l.role| && ROOT in l.nodes
  {
  }

  lemma LinkedWithout(links: seq<nat>, items: seq<nat>, max: nat, i: nat, links': seq<nat>)
    requires Linked(links, items, max) && i < |items| && |links'| == |links|
    requires forall k :: 0 <= k < i ==> links'[k] == links[k]
    requires forall k :: i <= k < |items| ==> links'[k] == links[k + 1]
    ensures Linked(links', RemoveAt(items, i), max)
  {
    var rest := RemoveAt(items, i);
    assert forall k :: 0 <= k < |items| ==> links[k] == links[..|items|][k] == items[k];
    assert forall k :: 0 <= k < |rest| ==> rest[k] == items[if k < i then k else k + 1];
    assert links'[..|rest|] == rest;
    assert links'[|rest|] == links[|items|];
  }

  // ---------------------------------------------------------------------------------------------
  // Blocks in transit
  // ---------------------------------------------------------------------------------------------

  /** These are the blocks in transit, each once. */
  ghost predicate AllLoose(l: Layout, blocks: seq<nat>) {
    && (forall b :: 0 <= b < |l.role| ==> (l.role[b] == Loose <==> b in blocks))
    && (forall b :: b in blocks ==> In(l, b))
    && (forall i, j :: 0 <= i < j < |blocks| ==> blocks[i] != blocks[j])
  }

  lemma OneMoreLoose(l: Layout, l': Layout, blocks: seq<nat>, b: nat)
    requires AllLoose(l, blocks) && TookHead(l, l', b)
    ensures AllLoose(l', blocks + [b]) && b in l.free && l'.free <= l.free && l'.nodes == l.nodes
  {
  }

  lemma OneLessLoose(l: Layout, blocks: seq<nat>)
    requires AllLoose(l, blocks) && blocks != []
    ensures Has(l, blocks[0], Loose) && AllLoose(GiveLayout(l, blocks[0]), blocks[1..])
  {
    var b := blocks[0];
    assert forall i :: 0 <= i < |blocks| - 1 ==> blocks[1..][i] == blocks[i + 1];
    assert forall c :: c in blocks <==> c == b || c in blocks[1..];
  }

  lemma Reordered(l: Layout, a: seq<nat>, b: seq<nat>)
    requires AllLoose(l, a) && multiset(b) == multiset(a)
    ensures AllLoose(l, b) && |b| == |a|
  {
    assert |b| == |multiset(b)| == |multiset(a)| == |a|;
    assert forall x :: x in b <==> x in multiset(b);
    assert forall x :: x in a <==> x in multiset(a);
    forall x ensures multiset(a)[x] <= 1 {
      CountOfDistinct(a, x);
    }
    forall i, j | 0 <= i < j < |b| ensures b[i] != b[j] {
      TwiceIsTwo(b, i, j);
    }
  }

  lemma TwiceIsTwo(b: seq<nat>, i: nat, j: nat)
    requires i < j < |b|
    ensures b[i] == b[j] ==> multiset(b)[b[i]] >= 2
  {
    assert b == b[..i] + [b[i]] + b[i + 1..j] + [b[j]] + b[j + 1..];
  }

  lemma {:induction false} CountOfDistinct(a: seq<nat>, x: nat)
    requires forall i, j :: 0 <= i < j < |a| ==> a[i] != a[j]
    ensures multiset(a)[x] <= 1
  {
    if a != [] {
      assert forall i :: 0 <= i < |a| - 1 ==> a[1..][i] == a[i + 1];
      CountOfDistinct(a[1..], x);
      assert a == [a[0]] + a[1..];
      assert a[0] !in a[1..];
      assert a[0] !in multiset(a[1..]);
    }
  }
}
