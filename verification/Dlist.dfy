// The doubly linked list: nodes on the heap that stand for a sequence.
module DoublyLinked {
  import opened Common

  class Node<T> {
    var prev: Node?<T>
    var next: Node?<T>
    var data: Option<T>

    constructor (d: Option<T>, before: Node?<T>)
      ensures data == d && prev == before && next == null
    {
      data, prev, next := d, before, null;
    }
  }

  /** The index of the first datum that is there and compares equal to `data`. */
  function FirstMatch<T>(s: seq<Option<T>>, data: Option<T>, cmp: (T, Option<T>) -> int): (k: nat)
    ensures k <= |s|
    ensures k < |s| ==> s[k].Some? && cmp(s[k].value, data) == 0
    ensures forall i :: 0 <= i < k ==> s[i].None? || cmp(s[i].value, data) != 0
  {
    if s == [] then 0
    else if s[0].Some? && cmp(s[0].value, data) == 0 then 0
    else 1 + FirstMatch(s[1..], data, cmp)
  }

  lemma {:induction false} FirstMatchStep<T>(s: seq<Option<T>>, data: Option<T>, cmp: (T, Option<T>) -> int, i: nat)
    requires i < |s|
    ensures FirstMatch(s[i..], data, cmp) ==
            if s[i].Some? && cmp(s[i].value, data) == 0 then 0 else 1 + FirstMatch(s[i + 1..], data, cmp)
  {
    assert s[i..][1..] == s[i + 1..];
  }

  /** Where index `idx` of a list of `n` lies; a negative one counts from the end. */
  function Position(n: nat, idx: int): (p: Option<nat>)
    ensures p.Some? ==> p.value < n && (p.value == idx || p.value == n + idx)
    ensures p.None? <==> idx >= n || n + idx < 0
  {
    if 0 <= idx < n then Some(idx) else if idx < 0 <= n + idx then Some(n + idx) else None
  }

  class Dlist<T> {
    var head: Node?<T>
    var tail: Node?<T>
    var count: int
    ghost var nodes: seq<Node<T>>

    /** The node at index `i`, or null past either end. */
    ghost function At(i: int): (n: Node?<T>)
      reads this
      ensures n != null ==> 0 <= i < |nodes| && n == nodes[i] && n in nodes
    {
      if 0 <= i < |nodes| then nodes[i] else null
    }

    ghost predicate Linked(i: nat)
      requires i < |nodes|
      reads this, nodes
    {
      nodes[i].prev == At(i - 1) && nodes[i].next == At(i + 1)
    }

    ghost predicate Valid()
      reads this, nodes
    {
      && count == |nodes|
      && (forall i, j :: 0 <= i < j < |nodes| ==> nodes[i] != nodes[j])
      && head == At(0) && tail == At(|nodes| - 1)
      && (forall i :: 0 <= i < |nodes| ==> Linked(i))
    }

    ghost function Contents(): (s: seq<Option<T>>)
      reads this, nodes
      ensures |s| == |nodes|
    {
      seq(|nodes|, i requires 0 <= i < |nodes| reads this, nodes => nodes[i].data)
    }

    constructor ()
      ensures Valid() && Contents() == []
    {
      head, tail, count := null, null, 0;
      nodes := [];
    }

    method Empty() returns (empty: bool)
      requires Valid()
      ensures empty <==> Contents() == []
    {
      if head == null {
        assert tail == null && count == 0;
        empty := true;
      } else {
        assert tail != null && count > 0;
        empty := false;
      }
    }

    method PopLeft() returns (data: Option<T>)
      requires Valid()
      modifies this, nodes
      ensures Valid() && nodes == if old(nodes) == [] then [] else old(nodes)[1..]
      ensures if old(Contents()) == [] then data == None && Contents() == []
              else old(Contents()) == [data] + Contents()
    {
      if head == null {
        return None;
      }
      var node := head;
      assert Linked(0);
      head := node.next;
      if head == null {
        tail := null;
      }
      if node.next != null {
        node.next.prev := null;
      }
      data := node.data;
      count := count - 1;
      nodes := nodes[1..];
      forall k: nat | k < |nodes|
        ensures Linked(k)
      {
        assert old(Linked(k + 1));
      }
    }

    method PopRight() returns (data: Option<T>)
      requires Valid()
      modifies this, nodes
      ensures Valid() && nodes == if old(nodes) == [] then [] else old(nodes)[..|old(nodes)| - 1]
      ensures if old(Contents()) == [] then data == None && Contents() == []
              else old(Contents()) == Contents() + [data]
    {
      if head == null {
        return None;
      }
      var node := tail;
      assert Linked(count - 1);
      tail := node.prev;
      if tail == null {
        head := null;
      }
      if node.prev != null {
        node.prev.next := null;
      }
      data := node.data;
      count := count - 1;
      nodes := nodes[..|nodes| - 1];
      forall k: nat | k < |nodes|
        ensures Linked(k)
      {
        assert old(Linked(k));
      }
    }

    method PushRight(data: Option<T>)
      requires Valid()
      modifies this, nodes
      ensures Valid() && Contents() == old(Contents()) + [data]
      ensures |nodes| == |old(nodes)| + 1 && nodes[..|old(nodes)|] == old(nodes) && fresh(nodes[|old(nodes)|])
    {
      var node := new Node(data, tail);
      if tail != null {
        tail.next := node;
      }
      tail := node;
      if head == null {
        head := node;
      }
      count := count + 1;
      nodes := nodes + [node];
      forall k: nat | k < |nodes|
        ensures Linked(k)
      {
        assert k < |old(nodes)| ==> old(Linked(k));
      }
    }

    /** What is left in the list once node `i` is unlinked. */
    twostate lemma ContentsWithout(i: nat)
      requires i < |old(nodes)| && nodes == old(nodes[..i] + nodes[i + 1..])
      requires forall n :: n in nodes ==> n.data == old(n.data)
      ensures Contents() == old(Contents()[..i] + Contents()[i + 1..])
    {
      assert forall k :: 0 <= k < |nodes| ==> nodes[k] in nodes;
    }

    /** The first node that is not null and matches. */
    method Find(data: Option<T>, cmp: (T, Option<T>) -> int) returns (curr: Node?<T>, ghost i: nat)
      requires Valid()
      ensures i == FirstMatch(Contents(), data, cmp) && curr == At(i)
    {
      curr, i := head, 0;
      ghost var s := Contents();
      assert s[0..] == s;
      while curr != null
        invariant 0 <= i <= |nodes|
        invariant curr == At(i)
        invariant FirstMatch(s, data, cmp) == i + FirstMatch(s[i..], data, cmp)
        decreases |nodes| - i
      {
        assert curr.data == s[i];
        FirstMatchStep(s, data, cmp, i);
        if curr.data.Some? && cmp(curr.data.value, data) == 0 {
          return;
        }
        assert Linked(i);
        curr := curr.next;
        i := i + 1;
      }
    }

    /** Unlinks the first node that is not null and matches, and returns its datum. */
    method FindRemove(data: Option<T>, cmp: (T, Option<T>) -> int) returns (found: Option<T>)
      requires Valid()
      modifies this, nodes
      ensures Valid()
      ensures var s := old(Contents());
              var k := FirstMatch(s, data, cmp);
              if k == |s| then found == None && Contents() == s && nodes == old(nodes)
              else found == s[k] && Contents() == s[..k] + s[k + 1..]
    {
      hide FirstMatch;
      var curr, i := Find(data, cmp);
      if curr == null {
        return None;
      }
      found := curr.data;
      Unlink(curr, i);
      ContentsWithout(i);
    }

    /** The neighbours of node `i` point past it, and nothing else has changed. */
    twostate lemma LinksWithout(i: nat)
      requires old(Valid()) && i < |old(nodes)| && nodes == old(nodes[..i] + nodes[i + 1..])
      requires forall k :: 0 <= k < |old(nodes)| && k != i - 1 && k != i ==> old(nodes)[k].next == old(nodes[k].next)
      requires forall k :: 0 <= k < |old(nodes)| && k != i + 1 && k != i ==> old(nodes)[k].prev == old(nodes[k].prev)
      requires i > 0 ==> old(nodes)[i - 1].next == old(At(i + 1))
      requires i + 1 < |old(nodes)| ==> old(nodes)[i + 1].prev == old(At(i - 1))
      ensures forall k :: 0 <= k < |nodes| ==> Linked(k)
    {
      forall k: nat | k < |nodes|
        ensures Linked(k)
      {
        if k < i {
          assert old(Linked(k)) && nodes[k] == old(nodes)[k];
        } else {
          assert old(Linked(k + 1)) && nodes[k] == old(nodes)[k + 1];
        }
      }
    }

    ghost predicate Distinct()
      reads this
    {
      forall i, j :: 0 <= i < j < |nodes| ==> nodes[i] != nodes[j]
    }

    /** The neighbours of a node point past it. */
    method Bypass(curr: Node<T>, ghost i: nat)
      requires i < |nodes| && curr == nodes[i] && Linked(i) && Distinct()
      modifies nodes
      ensures forall k :: 0 <= k < |nodes| && k != i - 1 && k != i ==> nodes[k].next == old(nodes[k].next)
      ensures forall k :: 0 <= k < |nodes| && k != i + 1 && k != i ==> nodes[k].prev == old(nodes[k].prev)
      ensures i > 0 ==> nodes[i - 1].next == At(i + 1)
      ensures i + 1 < |nodes| ==> nodes[i + 1].prev == At(i - 1)
      ensures forall n :: n in nodes ==> n.data == old(n.data)
    {
      if curr.prev != null {
        curr.prev.next := curr.next;
      }
      if curr.next != null {
        curr.next.prev := curr.prev;
      }
    }

    /** Where a node of the list is. */
    lemma NodeAt(i: nat)
      requires Valid() && i < |nodes|
      ensures Linked(i) && Distinct()
      ensures (head == nodes[i] <==> i == 0) && (tail == nodes[i] <==> i == |nodes| - 1)
    {
    }

    /** The list without node `i`. */
    twostate lemma ValidWithout(i: nat)
      requires old(Valid()) && i < |old(nodes)| && nodes == old(nodes[..i] + nodes[i + 1..]) && count == old(count) - 1
      requires head == (if i == 0 then old(At(1)) else old(head))
      requires tail == (if i == |old(nodes)| - 1 then old(At(i - 1)) else old(tail))
      requires forall k :: 0 <= k < |old(nodes)| && k != i - 1 && k != i ==> old(nodes)[k].next == old(nodes[k].next)
      requires forall k :: 0 <= k < |old(nodes)| && k != i + 1 && k != i ==> old(nodes)[k].prev == old(nodes[k].prev)
      requires i > 0 ==> old(nodes)[i - 1].next == old(At(i + 1))
      requires i + 1 < |old(nodes)| ==> old(nodes)[i + 1].prev == old(At(i - 1))
      ensures Valid()
    {
      LinksWithout(i);
    }

    /** The pointer updates that take node `curr` out of the list. */
    method Unlink(curr: Node<T>, ghost i: nat)
      requires Valid() && i < |nodes| && curr == nodes[i]
      modifies this, nodes
      ensures Valid() && nodes == old(nodes[..i] + nodes[i + 1..])
      ensures forall n :: n in nodes ==> n.data == old(n.data)
    {
      hide Valid, Distinct;
      NodeAt(i);
      if head == curr {
        head := curr.next;
      }
      if tail == curr {
        tail := curr.prev;
      }
      Bypass(curr, i);
      count := count - 1;
      nodes := nodes[..i] + nodes[i + 1..];
      ValidWithout(i);
    }

    /** Walks `idx` steps from the head, or from the tail when `idx` is negative. */
    method Walk(index: int) returns (curr: Node?<T>)
      requires Valid()
      ensures match Position(|nodes|, index)
              case Some(p) => curr == nodes[p]
              case None => curr == null
    {
      var idx := index;
      ghost var i := 0;
      if idx >= 0 {
        curr := head;
        while curr != null && idx != 0
          invariant 0 <= i <= |nodes| && idx == index - i >= 0
          invariant curr == At(i)
          decreases |nodes| - i
        {
          assert Linked(i);
          idx := idx - 1;
          curr := curr.next;
          i := i + 1;
        }
      } else {
        curr := tail;
        idx := idx + 1;
        while curr != null && idx != 0
          invariant 0 <= i <= |nodes| && idx == index + 1 + i <= 0
          invariant curr == At(|nodes| - 1 - i)
          decreases |nodes| - i
        {
          assert Linked(|nodes| - 1 - i);
          curr := curr.prev;
          idx := idx + 1;
          i := i + 1;
        }
      }
    }

    method GetIndex(idx: int) returns (data: Option<T>)
      requires Valid()
      ensures data == match Position(|Contents()|, idx)
                      case Some(p) => Contents()[p]
                      case None => None
    {
      var curr := Walk(idx);
      data := if curr == null then None else curr.data;
    }

    method SetIndex(idx: int, data: Option<T>)
      requires Valid()
      modifies nodes
      ensures Valid()
      ensures Contents() == match Position(|old(Contents())|, idx)
                            case Some(p) => old(Contents())[p := data]
                            case None => old(Contents())
    {
      var curr := Walk(idx);
      if curr != null {
        curr.data := data;
        assert forall k: nat :: k < |nodes| && old(Linked(k)) ==> Linked(k);
      }
    }

    /** Empties the list from the left; `seen` is what the callback is given. */
    method Destroy() returns (seen: seq<Option<T>>)
      requires Valid()
      modifies this, nodes
      ensures Valid() && Contents() == [] && seen == old(Contents())
    {
      hide Valid, Contents, At, Linked;
      seen := [];
      ghost var all := nodes;
      var empty := Empty();
      while !empty
        invariant Valid() && seen + Contents() == old(Contents())
        invariant |seen| <= |all| && nodes == all[|seen|..]
        invariant empty <==> Contents() == []
        decreases |nodes|
      {
        assert forall n :: n in nodes ==> n in all;
        var data := PopLeft();
        assert seen + ([data] + Contents()) == (seen + [data]) + Contents();
        seen := seen + [data];
        empty := Empty();
      }
      assert seen + [] == seen;
    }
  }
}
