/** The list of page tables.  When a process ends, its table stays in the list but the pages in it are
    freed, so the list must not be asked for that process again. */
module PageTables {
  import opened Mmu

  datatype TableRecord = TableRecord(pid: int, live: bool)

  /** The position of the first table of a process; the length of the list if there is none. */
  function FirstTable(list: seq<TableRecord>, pid: int, i: nat): (r: nat)
    requires i <= |list|
    ensures i <= r <= |list|
    ensures r < |list| ==> list[r].pid == pid
    ensures forall j :: i <= j < r ==> list[j].pid != pid
    decreases |list| - i
  {
    if i == |list| || list[i].pid == pid then i else FirstTable(list, pid, i + 1)
  }

  predicate UsedBefore(list: seq<TableRecord>, pid: int) {
    exists i :: 0 <= i < |list| && list[i].pid == pid
  }

  /** Processes have different numbers, and exactly the live ones have pages. */
  ghost predicate ListOK(list: seq<TableRecord>, tables: map<int, seq<Key>>) {
    && (forall i, j :: 0 <= i < j < |list| ==> list[i].pid != list[j].pid)
    && (forall i :: 0 <= i < |list| ==> (list[i].live <==> list[i].pid in tables))
    && forall pid :: pid in tables ==> UsedBefore(list, pid)
  }

  lemma {:induction false} LiveIsFound(list: seq<TableRecord>, tables: map<int, seq<Key>>, pid: int)
    requires ListOK(list, tables) && pid in tables
    ensures FirstTable(list, pid, 0) < |list| && list[FirstTable(list, pid, 0)] == TableRecord(pid, true)
  {
    assert UsedBefore(list, pid);
  }

  /** The table of a new process is the one that is found exactly if its number was never used before.
      Otherwise an ended process with that number has its freed table found instead. */
  lemma {:induction false} NewTableIsFoundIff(list: seq<TableRecord>, tables: map<int, seq<Key>>, pid: int)
    requires ListOK(list, tables) && pid !in tables
    ensures var r := FirstTable(list + [TableRecord(pid, true)], pid, 0);
            && r <= |list|
            && (r == |list| <==> !UsedBefore(list, pid))
            && (UsedBefore(list, pid) ==> list[r] == TableRecord(pid, false))
  {
    var list' := list + [TableRecord(pid, true)];
    var r := FirstTable(list', pid, 0);
    assert list'[|list|].pid == pid;
    assert forall i :: 0 <= i < |list| ==> list'[i] == list[i];
  }

  lemma {:induction false} AddedTable(list: seq<TableRecord>, tables: map<int, seq<Key>>, pid: int)
    requires ListOK(list, tables) && !UsedBefore(list, pid)
    ensures pid !in tables && ListOK(list + [TableRecord(pid, true)], tables[pid := []])
  {
    var list' := list + [TableRecord(pid, true)];
    assert list'[|list|].pid == pid;
    forall q | q in tables[pid := []] ensures UsedBefore(list', q) {
      if q != pid {
        var i :| 0 <= i < |list| && list[i].pid == q;
        assert list'[i].pid == q;
      }
    }
  }

  lemma {:induction false} NotAddedTwice(list: seq<TableRecord>, pid: int, tables: map<int, seq<Key>>)
    requires UsedBefore(list, pid)
    ensures !ListOK(list + [TableRecord(pid, true)], tables)
  {
    var list' := list + [TableRecord(pid, true)];
    var i :| 0 <= i < |list| && list[i].pid == pid;
    assert list'[i].pid == pid == list'[|list|].pid;
  }

  lemma {:induction false} GrownTable(list: seq<TableRecord>, tables: map<int, seq<Key>>, pid: int, pages: seq<Key>)
    requires ListOK(list, tables) && pid in tables
    ensures ListOK(list, tables[pid := pages])
  {
  }

  /** The list once a process has ended. */
  function WithEnded(list: seq<TableRecord>, pid: int): (r: seq<TableRecord>)
    ensures |r| == |list|
  {
    seq(|list|, i requires 0 <= i < |list| => if list[i].pid == pid then TableRecord(pid, false) else list[i])
  }

  lemma {:induction false} EndedTable(list: seq<TableRecord>, tables: map<int, seq<Key>>, i: nat)
    requires ListOK(list, tables) && i < |list| && list[i].pid in tables
    ensures ListOK(list[i := TableRecord(list[i].pid, false)], tables - {list[i].pid})
    ensures list[i := TableRecord(list[i].pid, false)] == WithEnded(list, list[i].pid)
  {
    var list' := list[i := TableRecord(list[i].pid, false)];
    assert forall j :: 0 <= j < |list| ==> list'[j].pid == list[j].pid;
    forall q | q in tables - {list[i].pid} ensures UsedBefore(list', q) {
      assert UsedBefore(list, q);
      var j :| 0 <= j < |list| && list[j].pid == q;
      assert list'[j].pid == q;
    }
  }
}
