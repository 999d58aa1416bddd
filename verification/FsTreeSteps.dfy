/** The ways in which operations change the tree: a new node, the removal of a node, and the start of
    the removal of a file. */
module FsTreeSteps {
  import opened FsLayout
  import opened FsSteps

  // ---------------------------------------------------------------------------------------------
  // A new file or directory
  // ---------------------------------------------------------------------------------------------

  function EmptyNode(dir: bool, parent: nat, depth: nat, meta: nat, name: string, e: nat): Node {
    Node(dir, parent, depth, meta, name, [e], [[]], if dir then [] else [[]])
  }

  ghost function WithEntries(n: Node, es: seq<nat>): Node {
    n.(parts := [es])
  }

  ghost function AttachLayout(l: Layout, p: nat, e: nat, m: nat, dir: bool, name: string): Layout
    requires p in l.nodes && e < |l.role| && m < |l.role| && |l.nodes[p].parts| >= 1
  {
    l.(role := l.role[e := ForHead(e)][m := ForMeta(e)],
       nodes := l.nodes[p := WithEntries(l.nodes[p], Entries(l.nodes[p]) + [e])]
                       [e := EmptyNode(dir, p, l.nodes[p].depth + 1, m, name, e)])
  }

  /** Directory p has room for one more entry of a new name, and e and m hold an empty node of that name. */
  ghost predicate CanAttach(d: Disk, l: Layout, p: nat, e: nat, m: nat, dir: bool, name: string)
    requires |d.img| == |l.role|
  {
    && p in l.nodes && l.nodes[p].dir && |l.nodes[p].parts| == 1 && |Entries(l.nodes[p])| < l.max
    && EntriesOK(l, p)
    && (forall i :: 0 <= i < |Entries(l.nodes[p])| ==> l.nodes[Entries(l.nodes[p])[i]].name != name)
    && Has(l, e, Loose) && Has(l, m, Loose) && e != m && e != ROOT
    && d.img[e].Inode? && d.img[e] == Inode(if dir then Directory else Regular, p, m, 0, d.img[e].links)
    && Linked(d.img[e].links, [], l.max)
    && d.img[m] == Info(0, name)
  }

  /** The image after linking e into directory p. */
  ghost predicate Attached(d: Disk, l: Layout, d': Disk, p: nat, e: nat) {
    p in l.nodes && |d.img| == |l.role| && NodeRoles(l, p) && Appended(d, l, d', p, e, 1)
  }

  /** A block in transit is not a node's. */
  lemma LooseIsNoNode(d: Disk, l: Layout, z: nat, b: nat)
    requires Inv(d, l, z) && Has(l, b, Loose)
    ensures b !in l.nodes && forall g :: g in l.nodes ==> l.nodes[g].parent != b || g == ROOT
  {
    assert b in l.nodes ==> NodeOK(d.img, l, b, z);
    forall g | g in l.nodes && g != ROOT ensures l.nodes[g].parent != b {
      assert PlaceOK(l, g);
    }
  }

  lemma AttachKeeps(d: Disk, l: Layout, d': Disk, z: nat, p: nat, e: nat, m: nat, dir: bool, name: string)
    requires Inv(d, l, z) && z != p && z != e && CanAttach(d, l, p, e, m, dir, name) && Attached(d, l, d', p, e)
    ensures e !in l.nodes && Inv(d', AttachLayout(l, p, e, m, dir, name), z)
  {
    hide NodeRoles, ShapeOK, NodeImage, RoleOK, TreeOK, Attached;
    var l' := AttachLayout(l, p, e, m, dir, name);
    LooseIsNoNode(d, l, z, e);
    assert NodeOK(d.img, l, p, z);
    TailOwned(l, p);
    AttachKeepsFree(d, l, d', z, p, e, m, dir, name);
    forall c | 0 <= c < |l'.role| ensures RoleOK(l', c) {
      assert RoleOK(l, c);
      AttachKeepsRole(d, l, p, e, m, dir, name, c);
    }
    forall g | g in l'.nodes ensures NodeOK(d'.img, l', g, z) {
      if g == e {
        AttachKeepsNew(d, l, d', z, p, e, m, dir, name);
      } else {
        assert NodeOK(d.img, l, g, z);
        if g == p {
          AttachKeepsParent(d, l, d', z, p, e, m, dir, name);
        } else {
          AttachKeepsOther(d, l, d', z, p, e, m, dir, name, g);
        }
      }
    }
    AttachKeepsTree(d, l, p, e, m, dir, name);
  }

  lemma AttachKeepsFree(d: Disk, l: Layout, d': Disk, z: nat, p: nat, e: nat, m: nat, dir: bool, name: string)
    requires SuperOK(d, l) && FreeOK(d, l) && CanAttach(d, l, p, e, m, dir, name) && Attached(d, l, d', p, e)
    requires NodeOK(d.img, l, p, z)
    ensures SuperOK(d', AttachLayout(l, p, e, m, dir, name)) && FreeOK(d', AttachLayout(l, p, e, m, dir, name))
  {
    TailOwned(l, p);
    var l' := AttachLayout(l, p, e, m, dir, name);
    forall k | 0 <= k < |l.free| ensures FreeBlockOK(d'.img, l', k) {
      assert FreeBlockOK(d.img, l, k);
    }
  }

  lemma AttachKeepsRole(d: Disk, l: Layout, p: nat, e: nat, m: nat, dir: bool, name: string, c: nat)
    requires |d.img| == |l.role| && CanAttach(d, l, p, e, m, dir, name) && e !in l.nodes
    requires c < |l.role| && RoleOK(l, c)
    ensures RoleOK(AttachLayout(l, p, e, m, dir, name), c)
  {
  }

  lemma AttachKeepsNew(d: Disk, l: Layout, d': Disk, z: nat, p: nat, e: nat, m: nat, dir: bool, name: string)
    requires SuperOK(d, l) && CanAttach(d, l, p, e, m, dir, name) && Attached(d, l, d', p, e)
    requires NodeOK(d.img, l, p, z) && e !in l.nodes && z != e
    ensures NodeOK(d'.img, AttachLayout(l, p, e, m, dir, name), e, z)
  {
    TailOwned(l, p);
    var n := AttachLayout(l, p, e, m, dir, name).nodes[e];
    assert Contents(n) == [];
  }

  lemma AttachKeepsParent(d: Disk, l: Layout, d': Disk, z: nat, p: nat, e: nat, m: nat, dir: bool, name: string)
    requires SuperOK(d, l) && CanAttach(d, l, p, e, m, dir, name) && Attached(d, l, d', p, e)
    requires NodeOK(d.img, l, p, z) && e !in l.nodes && z != p
    ensures NodeOK(d'.img, AttachLayout(l, p, e, m, dir, name), p, z)
  {
    TailOwned(l, p);
    LinkedOneMore(d.img[p].links, Entries(l.nodes[p]), l.max, e);
  }

  lemma AttachKeepsOther(d: Disk, l: Layout, d': Disk, z: nat, p: nat, e: nat, m: nat, dir: bool, name: string, g: nat)
    requires SuperOK(d, l) && CanAttach(d, l, p, e, m, dir, name) && Attached(d, l, d', p, e)
    requires NodeOK(d.img, l, p, z) && e !in l.nodes
    requires g in l.nodes && g != p && NodeOK(d.img, l, g, z)
    ensures NodeOK(d'.img, AttachLayout(l, p, e, m, dir, name), g, z)
  {
    TailOwned(l, p);
    NodeFrame(d.img, l, d'.img, AttachLayout(l, p, e, m, dir, name), g, z, z);
  }

  lemma AttachKeepsTree(d: Disk, l: Layout, p: nat, e: nat, m: nat, dir: bool, name: string)
    requires |d.img| == |l.role| && TreeOK(l) && CanAttach(d, l, p, e, m, dir, name) && e !in l.nodes
    ensures TreeOK(AttachLayout(l, p, e, m, dir, name))
  {
    hide PlaceOK, EntriesOK;
    var l' := AttachLayout(l, p, e, m, dir, name);
    forall g | g in l'.nodes && g != ROOT ensures PlaceOK(l', g) {
      AttachKeepsPlace(d, l, p, e, m, dir, name, g);
    }
    forall g | g in l'.nodes && l'.nodes[g].dir ensures EntriesOK(l', g) {
      AttachKeepsEntries(d, l, p, e, m, dir, name, g);
    }
  }

  lemma AttachKeepsPlace(d: Disk, l: Layout, p: nat, e: nat, m: nat, dir: bool, name: string, g: nat)
    requires |d.img| == |l.role| && TreeOK(l) && CanAttach(d, l, p, e, m, dir, name) && e !in l.nodes
    requires g != ROOT && (g in l.nodes || g == e)
    ensures PlaceOK(AttachLayout(l, p, e, m, dir, name), g)
  {
    var l' := AttachLayout(l, p, e, m, dir, name);
    if g == e {
      var es := Entries(l'.nodes[p]);
      assert es[|es| - 1] == e;
    } else {
      assert PlaceOK(l, g);
      assert g in Entries(l.nodes[p]) ==> g in Entries(l.nodes[p]) + [e];
    }
  }

  lemma AttachKeepsEntries(d: Disk, l: Layout, p: nat, e: nat, m: nat, dir: bool, name: string, g: nat)
    requires |d.img| == |l.role| && TreeOK(l) && CanAttach(d, l, p, e, m, dir, name) && e !in l.nodes
    requires g == e || (g in l.nodes && l.nodes[g].dir)
    ensures EntriesOK(AttachLayout(l, p, e, m, dir, name), g)
  {
    hide TreeOK, Linked;
    if g != e {
      EntriesInOrder(l, g);
      var l' := AttachLayout(l, p, e, m, dir, name);
      var es := Entries(l.nodes[g]);
      forall i | 0 <= i < |es|
        ensures es[i] != e && es[i] in l'.nodes && l'.nodes[es[i]].name == l.nodes[es[i]].name
        ensures l'.nodes[es[i]].parent == g
      {
      }
      if g == p {
        AttachKeepsOwnEntries(d, l, p, e, m, dir, name);
      }
    }
  }

  lemma EntriesInOrder(l: Layout, g: nat)
    requires TreeOK(l) && g in l.nodes && l.nodes[g].dir
    ensures |l.nodes[g].parts| >= 1 && EntriesOK(l, g)
  {
  }

  lemma AttachKeepsOwnEntries(d: Disk, l: Layout, p: nat, e: nat, m: nat, dir: bool, name: string)
    requires |d.img| == |l.role| && CanAttach(d, l, p, e, m, dir, name) && e !in l.nodes
    ensures EntriesOK(AttachLayout(l, p, e, m, dir, name), p)
  {
    var l' := AttachLayout(l, p, e, m, dir, name);
    var es := Entries(l.nodes[p]);
    assert Entries(l'.nodes[p]) == es + [e];
    assert forall i :: 0 <= i < |es| ==> l'.nodes[es[i]].name == l.nodes[es[i]].name;
  }

  // ---------------------------------------------------------------------------------------------
  // Starting to free a file's blocks
  // ---------------------------------------------------------------------------------------------

  predicate IsContent(r: Role, h: nat) {
    (r.ForChild? || r.ForData?) && r.h == h
  }

  /** The file keeps its inode and metadata; its other blocks are in transit. */
  ghost function BuryLayout(l: Layout, h: nat): Layout
    requires h in l.nodes
  {
    l.(role := seq(|l.role|, b requires 0 <= b < |l.role| => if IsContent(l.role[b], h) then Loose else l.role[b]),
       nodes := l.nodes[h := l.nodes[h].(chain := [h], parts := [[]], data := [[]])])
  }

  lemma BuryKeeps(d: Disk, l: Layout, h: nat)
    requires Inv(d, l, 0) && h in l.nodes && !l.nodes[h].dir
    ensures Inv(d, BuryLayout(l, h), h)
  {
    hide NodeRoles, ShapeOK, NodeImage, RoleOK, TreeOK;
    var l' := BuryLayout(l, h);
    assert NodeOK(d.img, l, h, 0);
    TailOwned(l, h);
    forall k | 0 <= k < |l.free| ensures FreeBlockOK(d.img, l', k) {
      assert FreeBlockOK(d.img, l, k);
    }
    forall c | 0 <= c < |l'.role| ensures RoleOK(l', c) {
      assert RoleOK(l, c);
      BuryKeepsRole(l, h, c);
    }
    forall g | g in l'.nodes ensures NodeOK(d.img, l', g, h) {
      assert NodeOK(d.img, l, g, 0);
      if g == h {
        BuryKeepsHere(d, l, h);
      } else {
        BuryKeepsOther(d, l, h, g);
      }
    }
    TreeOfFile(l, l', h);
  }

  lemma BuryKeepsRole(l: Layout, h: nat, c: nat)
    requires h in l.nodes && !l.nodes[h].dir && c < |l.role| && RoleOK(l, c)
    ensures RoleOK(BuryLayout(l, h), c)
  {
  }

  lemma BuryKeepsHere(d: Disk, l: Layout, h: nat)
    requires SuperOK(d, l) && h in l.nodes && !l.nodes[h].dir && h > 0 && NodeOK(d.img, l, h, 0)
    ensures NodeOK(d.img, BuryLayout(l, h), h, h)
  {
    assert NodeRoles(BuryLayout(l, h), h);
    assert ShapeOK(BuryLayout(l, h), BuryLayout(l, h).nodes[h]);
  }

  lemma BuryKeepsOther(d: Disk, l: Layout, h: nat, g: nat)
    requires SuperOK(d, l) && h in l.nodes && h > 0 && g in l.nodes && g != h && NodeOK(d.img, l, g, 0)
    ensures NodeOK(d.img, BuryLayout(l, h), g, h)
  {
    TailOwned(l, g);
    NodeFrame(d.img, l, d.img, BuryLayout(l, h), g, 0, h);
  }

  // ---------------------------------------------------------------------------------------------
  // Removing a file or an empty directory
  // ---------------------------------------------------------------------------------------------

  function RemoveAt<T>(s: seq<T>, i: nat): seq<T>
    requires i < |s|
  {
    s[..i] + s[i + 1..]
  }

  ghost function DetachLayout(l: Layout, e: nat, i: nat): Layout
    requires e in l.nodes && l.nodes[e].parent in l.nodes && |l.nodes[l.nodes[e].parent].parts| >= 1
    requires i < |Entries(l.nodes[l.nodes[e].parent])| && e < |l.role| && l.nodes[e].meta < |l.role|
  {
    var p := l.nodes[e].parent;
    l.(role := l.role[e := Loose][l.nodes[e].meta := Loose],
       nodes := map g | g in l.nodes && g != e ::
                  if g == p then WithEntries(l.nodes[p], RemoveAt(Entries(l.nodes[p]), i)) else l.nodes[g])
  }

  /** The image after unlinking the i-th entry e of its directory. */
  ghost predicate Detached(d: Disk, l: Layout, d': Disk, e: nat, i: nat)
    requires |d.img| == |l.role|
  {
    && e in l.nodes && e != ROOT && l.nodes[e].parent in l.nodes
    && var p := l.nodes[e].parent;
    && |l.nodes[p].parts| >= 1
    && i < |Entries(l.nodes[p])| && Entries(l.nodes[p])[i] == e
    && |d'.img| == |d.img| && d'.freelist == d.freelist && d'.freeblks == d.freeblks
    && p < |d.img| && l.nodes[p].meta < |d.img|
    && d.img[p].Inode? && d'.img[p].Inode? && d'.img[p] == d.img[p].(links := d'.img[p].links)
    && Linked(d'.img[p].links, RemoveAt(Entries(l.nodes[p]), i), l.max)
    && d.img[l.nodes[p].meta].Info? && d.img[l.nodes[p].meta].size >= 1
    && d'.img[l.nodes[p].meta] == d.img[l.nodes[p].meta].(size := d.img[l.nodes[p].meta].size - 1)
    && forall c :: 0 <= c < |d.img| && c != p && c != l.nodes[p].meta ==> d'.img[c] == d.img[c]
  }

  /** Nothing is below or in the node. */
  ghost predicate Bare(l: Layout, e: nat)
    requires e in l.nodes
  {
    l.nodes[e].parts == [[]] && l.nodes[e].chain == [e]
  }

  lemma DetachKeeps(d: Disk, l: Layout, d': Disk, z: nat, e: nat, i: nat)
    requires Inv(d, l, z) && (z == 0 || z == e) && Detached(d, l, d', e, i) && Bare(l, e)
    ensures In(l, e) && In(l, l.nodes[e].meta) && Inv(d', DetachLayout(l, e, i), 0)
  {
    hide NodeRoles, ShapeOK, NodeImage, RoleOK, TreeOK, Detached;
    DetachedBasics(d, l, d', z, e, i);
    var l' := DetachLayout(l, e, i);
    DetachKeepsFree(d, l, d', z, e, i);
    forall c | 0 <= c < |l'.role| ensures RoleOK(l', c) {
      assert RoleOK(l, c);
      DetachKeepsRole(d, l, d', e, i, c);
    }
    forall g | g in l'.nodes ensures NodeOK(d'.img, l', g, 0) {
      assert NodeOK(d.img, l, g, z);
      if g == l.nodes[e].parent {
        DetachKeepsParent(d, l, d', z, e, i);
      } else {
        DetachKeepsOther(d, l, d', z, e, i, g);
      }
    }
    DetachKeepsTree(d, l, d', e, i);
  }

  lemma DetachedBasics(d: Disk, l: Layout, d': Disk, z: nat, e: nat, i: nat)
    requires Inv(d, l, z) && Detached(d, l, d', e, i)
    ensures e in l.nodes && e != ROOT && l.nodes[e].parent in l.nodes && l.nodes[e].parent != e
    ensures |l.nodes[l.nodes[e].parent].parts| >= 1 && i < |Entries(l.nodes[l.nodes[e].parent])|
    ensures NodeOK(d.img, l, e, z) && NodeOK(d.img, l, l.nodes[e].parent, z)
    ensures Has(l, e, ForHead(e)) && Has(l, l.nodes[e].meta, ForMeta(e))
    ensures l.nodes[l.nodes[e].parent].dir && |l.nodes[l.nodes[e].parent].chain| == 1
  {
    hide NodeImage, RoleOK;
    assert PlaceOK(l, e);
    assert NodeOK(d.img, l, e, z) && NodeOK(d.img, l, l.nodes[e].parent, z);
  }

  lemma DetachKeepsFree(d: Disk, l: Layout, d': Disk, z: nat, e: nat, i: nat)
    requires SuperOK(d, l) && FreeOK(d, l) && Detached(d, l, d', e, i)
    requires NodeOK(d.img, l, l.nodes[e].parent, z)
    requires Has(l, e, ForHead(e)) && Has(l, l.nodes[e].meta, ForMeta(e))
    ensures SuperOK(d', DetachLayout(l, e, i)) && FreeOK(d', DetachLayout(l, e, i))
  {
    TailOwned(l, l.nodes[e].parent);
    var l' := DetachLayout(l, e, i);
    forall k | 0 <= k < |l.free| ensures FreeBlockOK(d'.img, l', k) {
      assert FreeBlockOK(d.img, l, k);
    }
  }

  lemma DetachKeepsRole(d: Disk, l: Layout, d': Disk, e: nat, i: nat, c: nat)
    requires |d.img| == |l.role| && Detached(d, l, d', e, i) && Bare(l, e) && l.nodes[e].parent != e
    requires l.nodes[l.nodes[e].parent].dir && |l.nodes[l.nodes[e].parent].chain| == 1
    requires Has(l, e, ForHead(e)) && Has(l, l.nodes[e].meta, ForMeta(e))
    requires c < |l.role| && RoleOK(l, c)
    ensures RoleOK(DetachLayout(l, e, i), c)
  {
  }

  lemma DetachKeepsParent(d: Disk, l: Layout, d': Disk, z: nat, e: nat, i: nat)
    requires SuperOK(d, l) && Detached(d, l, d', e, i) && l.nodes[e].parent != e && (z == 0 || z == e)
    requires NodeOK(d.img, l, l.nodes[e].parent, z) && l.nodes[l.nodes[e].parent].dir
    requires Has(l, e, ForHead(e)) && Has(l, l.nodes[e].meta, ForMeta(e))
    ensures NodeOK(d'.img, DetachLayout(l, e, i), l.nodes[e].parent, 0)
  {
    TailOwned(l, l.nodes[e].parent);
  }

  lemma DetachKeepsOther(d: Disk, l: Layout, d': Disk, z: nat, e: nat, i: nat, g: nat)
    requires SuperOK(d, l) && Detached(d, l, d', e, i) && (z == 0 || z == e)
    requires NodeOK(d.img, l, l.nodes[e].parent, z)
    requires Has(l, e, ForHead(e)) && Has(l, l.nodes[e].meta, ForMeta(e))
    requires g in l.nodes && g != e && g != l.nodes[e].parent && NodeOK(d.img, l, g, z)
    ensures NodeOK(d'.img, DetachLayout(l, e, i), g, 0)
  {
    hide ShapeOK, NodeImage, Linked;
    TailOwned(l, l.nodes[e].parent);
    TailOwned(l, g);
    NodeFrame(d.img, l, d'.img, DetachLayout(l, e, i), g, z, 0);
  }

  lemma DetachKeepsTree(d: Disk, l: Layout, d': Disk, e: nat, i: nat)
    requires |d.img| == |l.role| && TreeOK(l) && Detached(d, l, d', e, i) && Bare(l, e) && In(l, e) && In(l, l.nodes[e].meta)
    ensures TreeOK(DetachLayout(l, e, i))
  {
    hide PlaceOK, EntriesOK;
    var l' := DetachLayout(l, e, i);
    forall g | g in l'.nodes && g != ROOT ensures PlaceOK(l', g) {
      DetachKeepsPlace(d, l, d', e, i, g);
    }
    forall g | g in l'.nodes && l'.nodes[g].dir ensures EntriesOK(l', g) {
      DetachKeepsEntries(d, l, d', e, i, g);
    }
  }

  lemma RemovedOther(es: seq<nat>, i: nat, g: nat)
    requires i < |es| && g in es && g != es[i]
    ensures g in RemoveAt(es, i)
  {
    var k :| 0 <= k < |es| && es[k] == g;
    assert RemoveAt(es, i)[if k < i then k else k - 1] == g;
  }

  lemma DetachKeepsPlace(d: Disk, l: Layout, d': Disk, e: nat, i: nat, g: nat)
    requires |d.img| == |l.role| && TreeOK(l) && Detached(d, l, d', e, i) && Bare(l, e) && In(l, e) && In(l, l.nodes[e].meta)
    requires g in l.nodes && g != e && g != ROOT
    ensures PlaceOK(DetachLayout(l, e, i), g)
  {
    assert PlaceOK(l, g);
    hide TreeOK;
    var p := l.nodes[g].parent;
    assert p != e;
    if p == l.nodes[e].parent {
      RemovedOther(Entries(l.nodes[p]), i, g);
    }
    hide RemoveAt, Linked;
  }

  lemma DetachKeepsEntries(d: Disk, l: Layout, d': Disk, e: nat, i: nat, g: nat)
    requires |d.img| == |l.role| && TreeOK(l) && Detached(d, l, d', e, i) && In(l, e) && In(l, l.nodes[e].meta)
    requires g in l.nodes && g != e && l.nodes[g].dir
    ensures EntriesOK(DetachLayout(l, e, i), g)
  {
    assert EntriesOK(l, g) && EntriesOK(l, l.nodes[e].parent);
    if g == l.nodes[e].parent {
      DetachKeepsOwnEntries(l, e, i);
    } else {
      DetachKeepsOtherEntries(l, e, i, g);
    }
  }

  lemma DetachKeepsOwnEntries(l: Layout, e: nat, i: nat)
    requires e in l.nodes && l.nodes[e].parent in l.nodes && |l.nodes[l.nodes[e].parent].parts| >= 1
    requires i < |Entries(l.nodes[l.nodes[e].parent])| && Entries(l.nodes[l.nodes[e].parent])[i] == e
    requires In(l, e) && In(l, l.nodes[e].meta) && l.nodes[e].parent != e && EntriesOK(l, l.nodes[e].parent)
    ensures EntriesOK(DetachLayout(l, e, i), l.nodes[e].parent)
  {
    var p := l.nodes[e].parent;
    var l' := DetachLayout(l, e, i);
    var es, es' := Entries(l.nodes[p]), Entries(l'.nodes[p]);
    assert forall k :: 0 <= k < |es'| ==> es'[k] == es[if k < i then k else k + 1];
    forall k | 0 <= k < |es| && k != i
      ensures es[k] in l'.nodes && l'.nodes[es[k]].name == l.nodes[es[k]].name
      ensures l'.nodes[es[k]].parent == l.nodes[es[k]].parent
    {
      assert l.nodes[es[k]].name != l.nodes[es[i]].name;
    }
  }

  lemma DetachKeepsOtherEntries(l: Layout, e: nat, i: nat, g: nat)
    requires e in l.nodes && l.nodes[e].parent in l.nodes && |l.nodes[l.nodes[e].parent].parts| >= 1
    requires i < |Entries(l.nodes[l.nodes[e].parent])| && In(l, e) && In(l, l.nodes[e].meta)
    requires g in l.nodes && g != e && g != l.nodes[e].parent && |l.nodes[g].parts| >= 1 && EntriesOK(l, g)
    ensures EntriesOK(DetachLayout(l, e, i), g)
  {
    var l' := DetachLayout(l, e, i);
    var es := Entries(l.nodes[g]);
    forall k | 0 <= k < |es|
      ensures es[k] in l'.nodes && l'.nodes[es[k]].name == l.nodes[es[k]].name && l'.nodes[es[k]].parent == g
    {
    }
  }
}
