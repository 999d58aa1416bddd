/** What one process's fault does to the pages of others, and so how long a process may have to retry. */
module PagerProgress {
  import opened Common
  import opened Mmu
  import opened PagerState
  import opened Paging
  import opened FaultScripts

  /** A page that can be reached when another page comes in can be reached afterwards exactly if there was a
      free frame, or the clock's victim is neither in its frame nor in frame 0. */
  lemma {:induction false} FaultSparesIff(w: Whole, w': Whole, k: Key, q: Key)
    requires Inv(w.s, -1, None) && Reaches(w.s.mapping, w.s.owner) && FaultedIn(w, w', k)
    requires q != k && Accessible(w.s.mapping, q)
    ensures Accessible(w'.s.mapping, q)
            <==> FirstFree(w.s.frames, 0) != -1
                 || (w'.s.pages[k].frame != 0 && w'.s.pages[k].frame != w.s.mapping[q].frame)
    ensures Accessible(w'.s.mapping, q) ==> w'.s.mapping[q] == w.s.mapping[q]
  {
    hide Inv, Reaches, FaultedIn, BroughtIn, Replaced;
    var f := CameIn(w, w', k);
    if FirstFree(w.s.frames, 0) == -1 {
      InFrame(w.s, f);
      ReachedFrame(w.s, q);
      ReplacedSpares(w.s, w'.s, k, f, q);
    } else {
      BroughtInSpares(w.s, w'.s, k, f, q);
    }
  }

  lemma BroughtInSpares(s: State, s': State, k: Key, f: nat, q: Key)
    requires BroughtIn(s, s', k, f) && q != k && Accessible(s.mapping, q)
    ensures Accessible(s'.mapping, q) && s'.mapping[q] == s.mapping[q]
  {
  }

  lemma {:induction false} ReplacedSpares(s: State, s': State, k: Key, f: nat, q: Key)
    requires Replaced(s, s', k, f) && q != k && Accessible(s.mapping, q) && s.mapping[q].frame < |s.frames|
    requires Held(s.mapping, s.owner, q) && s.frames[s.mapping[q].frame].page == Some(q)
    requires f in s.owner && s.owner[f] == s.frames[f].page.value
    requires s.frames[f].page.value in s.mapping && s.mapping[s.frames[f].page.value].frame == f
    ensures Accessible(s'.mapping, q) <==> f != 0 && f != s.mapping[q].frame
    ensures Accessible(s'.mapping, q) ==> s'.mapping[q] == s.mapping[q]
  {
  }

  /** The page in the frame that a reachable page is mapped to is that page. */
  lemma {:induction false} ReachedFrame(s: State, q: Key)
    requires Inv(s, -1, None) && Reaches(s.mapping, s.owner) && Accessible(s.mapping, q)
    ensures s.mapping[q].frame < |s.frames| && Held(s.mapping, s.owner, q)
    ensures s.frames[s.mapping[q].frame].page == Some(q) && s.frames[s.mapping[q].frame].pid != -1
  {
    assert OccupiedOK(s, s.mapping[q].frame);
  }

  /** A page was just brought in by an eviction, and one other page comes in before its process has tried
      again.  With two frames or more, the first page can still be reached exactly if the second did not go
      to frame 0: the clock spares it, but filling frame 0 takes the protections of all pages. */
  lemma {:induction false} OneFaultBetween(w: Whole, w1: Whole, w2: Whole, k: Key, q: Key)
    requires Inv(w.s, -1, None) && Inv(w1.s, -1, None) && Reaches(w1.s.mapping, w1.s.owner)
    requires FaultedIn(w, w1, k) && FaultedIn(w1, w2, q) && q != k && |w.s.frames| >= 2
    requires FirstFree(w.s.frames, 0) == -1 && FirstFree(w1.s.frames, 0) == -1
    ensures Accessible(w2.s.mapping, k) <==> w2.s.pages[q].frame != 0
  {
    hide Inv, Reaches, EvictedMapping, Clock.Cleared;
    assert w1.s.mapping[k] == Mapping(w1.s.pages[k].frame, ReadOnly);
    FaultSparesIff(w1, w2, q, k);
  }

  /** What the pager's method does at a fault is a fault for the handshake. */
  lemma {:induction false} FaultIsFaulted(w: Whole, w': Whole, k: Key)
    requires Inv(w.s, -1, None) && k in w.s.pages
    requires if w.s.pages[k].isvalid then Upgraded(w.s, w'.s, k) else FaultedIn(w, w', k)
    ensures exists f: nat :: Faulted(w.s, w'.s, k, f)
  {
    hide Inv, BroughtIn, Replaced, Clock.Cleared;
    var f: nat := if w.s.pages[k].isvalid then w.s.pages[k].frame else w'.s.pages[k].frame;
    assert Faulted(w.s, w'.s, k, f);
  }
}
