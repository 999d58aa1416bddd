/** The file system's image, and what every block of it is for.

    The image is an array of blocks, each read as one of the structures that the code stores in blocks.
    A layout is the meaning of an image: the free list, the tree of files and directories, and one role
    for every block.  A block has one role, so two structures never share a block, and every role points
    back at the structure that uses the block, so no block is lost. */
module FsLayout {
  import opened Common

  /** IMREG, IMDIR and IMCHILD */
  datatype Mode = Regular | Directory | Child

  datatype Block =
    | Super(freeblks: nat, freelist: nat)
    | Inode(mode: Mode, parent: nat, meta: nat, next: nat, links: seq<nat>)
    | Info(size: nat, name: string)
    | Free(next: nat)
    | Data(bytes: seq<byte>)
    | Unformatted

  const ROOT: nat := 1

  datatype Disk = Disk(img: seq<Block>, freelist: nat, freeblks: nat)

  datatype Role =
    | ForSuper
    | ForFree(k: nat)
    | Loose
    | ForHead(h: nat)
    | ForMeta(h: nat)
    | ForChild(h: nat, j: nat)
    | ForData(h: nat, j: nat, i: nat)

  /** A file or a directory: its inode chain, the links of each inode in it, and, for a file, the bytes in
      each linked block. */
  datatype Node = Node(dir: bool, parent: nat, depth: nat, meta: nat, name: string,
                       chain: seq<nat>, parts: seq<seq<nat>>, data: seq<seq<seq<byte>>>)

  /** The free list is kept bottom first: its last element is the list's head. */
  datatype Layout = Layout(max: nat, blksz: nat, role: seq<Role>, free: seq<nat>, nodes: map<nat, Node>)

  // ---------------------------------------------------------------------------------------------
  // Contents
  // ---------------------------------------------------------------------------------------------

  function Concat<T>(parts: seq<seq<T>>): seq<T> {
    if parts == [] then [] else parts[0] + Concat(parts[1..])
  }

  ghost function Contents(n: Node): seq<byte> {
    Concat(Concat(n.data))
  }

  ghost function Entries(n: Node): seq<nat>
    requires |n.parts| >= 1
  {
    n.parts[0]
  }

  ghost function Size(n: Node): nat
    requires |n.parts| >= 1
  {
    if n.dir then |Entries(n)| else |Contents(n)|
  }

  lemma {:induction false} ConcatAppend<T>(a: seq<seq<T>>, b: seq<seq<T>>)
    ensures Concat(a + b) == Concat(a) + Concat(b)
  {
    if a == [] {
      assert a + b == b;
    } else {
      ConcatAppend(a[1..], b);
      assert (a + b)[1..] == a[1..] + b && (a + b)[0] == a[0];
      SumAssociative(a[0], Concat(a[1..]), Concat(b));
    }
  }

  lemma SumAssociative<T>(a: seq<T>, b: seq<T>, c: seq<T>)
    ensures a + (b + c) == (a + b) + c
  {
  }

  lemma ConcatOne<T>(x: seq<T>)
    ensures Concat([x]) == x
  {
    assert Concat([x][1..]) == [];
  }

  // ---------------------------------------------------------------------------------------------
  // The invariant
  // ---------------------------------------------------------------------------------------------

  predicate In(l: Layout, b: nat) {
    0 < b < |l.role|
  }

  predicate Has(l: Layout, b: nat, r: Role) {
    In(l, b) && l.role[b] == r
  }

  ghost predicate SuperOK(d: Disk, l: Layout) {
    && |d.img| == |l.role| && |l.role| > ROOT && l.max > 0 && l.blksz > 0
    && d.img[0] == Super(d.freeblks, d.freelist)
    && l.role[0] == ForSuper
  }

  /** The list runs through freeblks + 1 blocks. */
  ghost predicate FreeOK(d: Disk, l: Layout)
    requires |d.img| == |l.role|
  {
    && |l.free| == d.freeblks + 1
    && d.freelist == l.free[|l.free| - 1]
    && forall k :: 0 <= k < |l.free| ==> FreeBlockOK(d.img, l, k)
  }

  ghost predicate FreeBlockOK(img: seq<Block>, l: Layout, k: nat)
    requires |img| == |l.role| && k < |l.free|
  {
    Has(l, l.free[k], ForFree(k)) && img[l.free[k]] == Free(if k == 0 then 0 else l.free[k - 1])
  }

  /** Every role points back. */
  ghost predicate RoleOK(l: Layout, b: nat)
    requires b < |l.role|
  {
    match l.role[b]
    case ForSuper => b == 0
    case ForFree(k) => k < |l.free| && l.free[k] == b
    case Loose => true
    case ForHead(h) => h == b && h in l.nodes
    case ForMeta(h) => h in l.nodes && l.nodes[h].meta == b
    case ForChild(h, j) => h in l.nodes && 1 <= j < |l.nodes[h].chain| && l.nodes[h].chain[j] == b
    case ForData(h, j, i) =>
      && h in l.nodes && !l.nodes[h].dir
      && j < |l.nodes[h].parts| && i < |l.nodes[h].parts[j]| && l.nodes[h].parts[j][i] == b
  }

  /** The node that uses a block; 0 if none does. */
  function Owner(r: Role): nat {
    match r
    case ForHead(h) => h
    case ForMeta(h) => h
    case ForChild(h, _) => h
    case ForData(h, _, _) => h
    case _ => 0
  }

  /** Inodes of a chain are full but for the last, and blocks of a file but for the very last. */
  ghost predicate ShapeOK(l: Layout, n: Node) {
    && |n.chain| == |n.parts| >= 1
    && (forall j :: 0 <= j < |n.parts| - 1 ==> |n.parts[j]| == l.max)
    && |n.parts[|n.parts| - 1]| <= l.max
    && (|n.parts| > 1 ==> |n.parts[|n.parts| - 1]| >= 1)
    && (n.dir ==> |n.parts| == 1 && n.data == [])
    && (!n.dir ==>
          && |n.data| == |n.parts|
          && (forall j :: 0 <= j < |n.parts| ==> |n.data[j]| == |n.parts[j]|)
          && forall j, i :: 0 <= j < |n.parts| && 0 <= i < |n.parts[j]| ==>
                              ChunkOK(n.data[j][i], l.blksz, j + 1 == |n.parts| && i + 1 == |n.parts[j]|))
  }

  predicate ChunkOK(bytes: seq<byte>, blksz: nat, last: bool) {
    if last then 0 < |bytes| <= blksz else |bytes| == blksz
  }

  ghost predicate NodeRoles(l: Layout, h: nat)
    requires h in l.nodes
  {
    var n := l.nodes[h];
    && |n.chain| == |n.parts| >= 1
    && n.chain[0] == h && Has(l, h, ForHead(h)) && Has(l, n.meta, ForMeta(h))
    && (forall j :: 1 <= j < |n.chain| ==> Has(l, n.chain[j], ForChild(h, j)))
    && (!n.dir ==> forall j, i :: 0 <= j < |n.parts| && 0 <= i < |n.parts[j]| ==>
                                    Has(l, n.parts[j][i], ForData(h, j, i)))
  }

  /** The links of an inode, up to the terminator that the block has room for. */
  predicate Linked(links: seq<nat>, items: seq<nat>, max: nat) {
    && |links| == max + 1 && |items| <= max
    && links[..|items|] == items && links[|items|] == 0
    && 0 !in items
  }

  ghost predicate HeadOK(img: seq<Block>, l: Layout, h: nat)
    requires h in l.nodes && h < |img| && |l.nodes[h].chain| == |l.nodes[h].parts| >= 1
  {
    var n, x := l.nodes[h], img[h];
    && x.Inode? && x.mode == (if n.dir then Directory else Regular)
    && x.parent == n.parent && x.meta == n.meta
    && x.next == (if |n.chain| > 1 then n.chain[1] else 0)
    && Linked(x.links, n.parts[0], l.max)
  }

  ghost predicate ChildOK(img: seq<Block>, l: Layout, h: nat, j: nat)
    requires h in l.nodes && 1 <= j < |l.nodes[h].chain| == |l.nodes[h].parts| && l.nodes[h].chain[j] < |img|
  {
    var n, x := l.nodes[h], img[l.nodes[h].chain[j]];
    && x.Inode? && x.mode == Child && x.parent == h && x.meta == n.chain[j - 1]
    && x.next == (if |n.chain| > j + 1 then n.chain[j + 1] else 0)
    && Linked(x.links, n.parts[j], l.max)
  }

  /** What the image holds for a node.  While a file's blocks are being freed (h == z) its inode keeps
      links to them, and its recorded size is out of date. */
  ghost predicate NodeImage(img: seq<Block>, l: Layout, h: nat, z: nat)
    requires h in l.nodes && NodeRoles(l, h) && ShapeOK(l, l.nodes[h]) && |img| == |l.role|
  {
    var n := l.nodes[h];
    && img[n.meta].Info? && img[n.meta].name == n.name
    && if h == z then
         && !n.dir && n.chain == [h] && n.parts == [[]]
         && img[h].Inode? && img[h].mode == Regular && img[h].parent == n.parent && img[h].meta == n.meta
       else
         && img[n.meta].size == Size(n)
         && HeadOK(img, l, h)
         && (forall j :: 1 <= j < |n.chain| ==> ChildOK(img, l, h, j))
         && (!n.dir ==> forall j, i :: 0 <= j < |n.parts| && 0 <= i < |n.parts[j]| ==>
                                         img[n.parts[j][i]] == Data(n.data[j][i]))
  }

  ghost predicate NodeOK(img: seq<Block>, l: Layout, h: nat, z: nat)
    requires h in l.nodes && |img| == |l.role|
  {
    NodeRoles(l, h) && ShapeOK(l, l.nodes[h]) && NodeImage(img, l, h, z)
  }

  /** Every node but the root is an entry of its parent, one level up; entries have distinct names. */
  ghost predicate TreeOK(l: Layout) {
    && ROOT in l.nodes && l.nodes[ROOT].dir && l.nodes[ROOT].depth == 0 && l.nodes[ROOT].parent == ROOT
    && (forall h :: h in l.nodes ==> |l.nodes[h].parts| >= 1)
    && (forall h :: h in l.nodes && h != ROOT ==> PlaceOK(l, h))
    && (forall h :: h in l.nodes && l.nodes[h].dir ==> EntriesOK(l, h))
  }

  ghost predicate PlaceOK(l: Layout, h: nat)
    requires h in l.nodes
  {
    var p := l.nodes[h].parent;
    && p in l.nodes && l.nodes[p].dir && |l.nodes[p].parts| >= 1
    && l.nodes[h].depth == l.nodes[p].depth + 1
    && h in Entries(l.nodes[p])
  }

  ghost predicate EntriesOK(l: Layout, h: nat)
    requires h in l.nodes && |l.nodes[h].parts| >= 1
  {
    var es := Entries(l.nodes[h]);
    && (forall i :: 0 <= i < |es| ==> es[i] in l.nodes && es[i] != ROOT && l.nodes[es[i]].parent == h)
    && (forall i, j :: 0 <= i < j < |es| ==> l.nodes[es[i]].name != l.nodes[es[j]].name)
  }

  ghost predicate Inv(d: Disk, l: Layout, z: nat) {
    && SuperOK(d, l) && FreeOK(d, l)
    && (forall b :: 0 <= b < |l.role| ==> RoleOK(l, b))
    && (forall h :: h in l.nodes ==> NodeOK(d.img, l, h, z))
    && TreeOK(l)
  }

  /** The invariant between calls: nothing is in transit. */
  ghost predicate AtRest(d: Disk, l: Layout) {
    Inv(d, l, 0) && forall b :: 0 <= b < |l.role| ==> l.role[b] != Loose
  }

  // ---------------------------------------------------------------------------------------------
  // Frames: a node depends only on the blocks it owns
  // ---------------------------------------------------------------------------------------------

  ghost predicate SameFor(img: seq<Block>, l: Layout, img': seq<Block>, l': Layout, h: nat)
    requires |img| == |l.role| && |img'| == |l'.role|
  {
    && |l'.role| == |l.role| && l'.max == l.max && l'.blksz == l.blksz
    && h in l.nodes && h in l'.nodes && l'.nodes[h] == l.nodes[h] && h > 0
    && forall b :: 0 <= b < |l.role| && Owner(l.role[b]) == h ==> l'.role[b] == l.role[b] && img'[b] == img[b]
  }

  lemma NodeFrame(img: seq<Block>, l: Layout, img': seq<Block>, l': Layout, h: nat, z: nat, z': nat)
    requires |img| == |l.role| && |img'| == |l'.role| && SameFor(img, l, img', l', h)
    requires NodeOK(img, l, h, z) && (h == z <==> h == z')
    ensures NodeOK(img', l', h, z')
  {
    var n := l.nodes[h];
    assert NodeRoles(l', h) by {
      forall j | 1 <= j < |n.chain| ensures Has(l', n.chain[j], ForChild(h, j)) {
        assert Has(l, n.chain[j], ForChild(h, j));
      }
      if !n.dir {
        forall j, i | 0 <= j < |n.parts| && 0 <= i < |n.parts[j]| ensures Has(l', n.parts[j][i], ForData(h, j, i)) {
          assert Has(l, n.parts[j][i], ForData(h, j, i));
        }
      }
    }
    ImageFrame(img, l, img', l', h, z, z');
  }

  lemma ImageFrame(img: seq<Block>, l: Layout, img': seq<Block>, l': Layout, h: nat, z: nat, z': nat)
    requires |img| == |l.role| && |img'| == |l'.role| && SameFor(img, l, img', l', h)
    requires NodeOK(img, l, h, z) && (h == z <==> h == z') && NodeRoles(l', h)
    ensures ShapeOK(l', l'.nodes[h]) && NodeImage(img', l', h, z')
  {
    var n := l.nodes[h];
    if h != z {
      assert HeadOK(img', l', h);
      forall j | 1 <= j < |n.chain| ensures ChildOK(img', l', h, j) {
        assert Has(l, n.chain[j], ForChild(h, j)) && ChildOK(img, l, h, j);
      }
      if !n.dir {
        forall j, i | 0 <= j < |n.parts| && 0 <= i < |n.parts[j]| ensures img'[n.parts[j][i]] == Data(n.data[j][i]) {
          assert Has(l, n.parts[j][i], ForData(h, j, i));
        }
      }
    }
  }
}
