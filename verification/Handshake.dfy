/** The pager and the handshake together: the changes a fault makes go to connected clients only. */
module Handshake {
  import opened Common
  import P = PagerState
  import Protocol

  /** Client i is connected and runs process pid. */
  predicate Connected(s: Protocol.State, pids: seq<int>, i: nat, pid: int) {
    i < |s.clients| == |pids| && s.clients[i].registered && pids[i] == pid
  }

  /** The unit and the pager know the same processes, each by one client. */
  ghost predicate SameProcesses(pager: P.State, s: Protocol.State, pids: seq<int>) {
    && |pids| == |s.clients|
    && (forall i, j :: 0 <= i < j < |pids| ==> pids[i] != pids[j])
    && forall pid :: pid in pager.tables ==> exists i: nat :: Connected(s, pids, i, pid)
  }

  /** A fault of a process changes mappings of that process and of processes with a page in a frame. */
  predicate Concerns(pager: P.State, pid: int, q: int) {
    q == pid || exists f :: 0 <= f < |pager.frames| && pager.frames[f].pid == q != -1
  }

  /** So every list of changes that a fault can make may be entered. */
  lemma {:induction false} FaultsAreAdmissible(pager: P.State, s: Protocol.State, pids: seq<int>, pid: int,
                                               script: seq<Protocol.Call>, limit: nat)
    requires P.Inv(pager, -1, None) && pid in pager.tables && SameProcesses(pager, s, pids) && |script| <= limit
    requires forall k :: 0 <= k < |script| ==> script[k].target < |pids| && Concerns(pager, pid, pids[script[k].target])
    ensures Protocol.Admissible(s, script, limit)
  {
    hide P.Inv;
    forall k | 0 <= k < |script|
      ensures s.clients[script[k].target].registered
    {
      var q := pids[script[k].target];
      if q != pid {
        var f :| 0 <= f < |pager.frames| && pager.frames[f].pid == q != -1;
        P.FramesAreLive(pager, f);
      }
      var i: nat :| Connected(s, pids, i, q);
      assert pids[i] == pids[script[k].target];
    }
  }
}
