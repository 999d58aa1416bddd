/** Where the first contents of pages come from.  A block keeps the bytes of the last dirty page evicted to
    it, also when the process of that page has ended, and the next page that gets the block starts with
    them.  The history says which page that was and when. */
module PagerHistory {
  import opened Common
  import opened Mmu
  import opened PagerState

  /** A dirty page was evicted when the history had so many events. */
  datatype Dump = Dump(key: Key, at: nat)

  ghost predicate EndedSince(log: seq<Event>, at: nat, pid: int) {
    exists j :: at <= j < |log| && log[j] == Ended(pid)
  }

  /** The dumped page held these bytes at the time. */
  ghost predicate Dumped(log: seq<Event>, d: Dump, bytes: Bytes) {
    d.at <= |log| && d.key in Flat(log[..d.at]) && Flat(log[..d.at])[d.key] == bytes
  }

  /** The bytes are those of a page whose process has ended since. */
  ghost predicate LeftBehind(log: seq<Event>, d: Dump, bytes: Bytes) {
    Dumped(log, d, bytes) && EndedSince(log, d.at, d.key.pid)
  }

  /** The block's bytes are those of the last dirty page evicted to it.  That page still owns the block, or
      its process has ended. */
  ghost predicate DumpOK(x: BlockNode, bytes: Bytes, d: Dump, log: seq<Event>) {
    Dumped(log, d, bytes) && (x.page == Some(d.key) || EndedSince(log, d.at, d.key.pid))
  }

  /** Exactly the blocks marked used have had a dirty page evicted to them. */
  ghost predicate BlocksExplained(blocks: seq<BlockNode>, disk: seq<Bytes>, dumps: map<nat, Dump>, log: seq<Event>) {
    && |blocks| == |disk|
    && forall b :: 0 <= b < |blocks| ==>
         (blocks[b].used <==> b in dumps) && (b in dumps ==> DumpOK(blocks[b], disk[b], dumps[b], log))
  }

  /** A page starts as zero fill, or with what a page of an ended process once held. */
  ghost predicate FirstHolds(log: seq<Event>, p: nat, size: nat)
    requires p < |log|
  {
    log[p].Grown? && log[p].init != Filled(size) ==> exists d :: LeftBehind(log[..p], d, log[p].init)
  }

  ghost predicate FirstContents(log: seq<Event>, size: nat) {
    forall p :: 0 <= p < |log| ==> FirstHolds(log, p, size)
  }

  /** While no process has ended, every page starts as zero fill. */
  lemma {:induction false} FilledUntilAnEnd(log: seq<Event>, p: nat, size: nat)
    requires FirstContents(log, size) && p < |log| && log[p].Grown?
    requires forall j :: 0 <= j < p ==> !log[j].Ended?
    ensures log[p].init == Filled(size)
  {
    assert FirstHolds(log, p, size);
  }

  /** An event that does not concern a byte leaves its last value. */
  lemma LastValueStays(log: seq<Event>, n: nat, k: Key, o: nat)
    requires 0 < n <= |log| && log[n - 1] != Ended(k.pid) && !(log[n - 1].Grown? && log[n - 1].key == k)
    requires !(log[n - 1].Stored? && log[n - 1].key == k && log[n - 1].off == o)
    ensures LastValue(log[..n], k, o) == LastValue(log[..n - 1], k, o)
  {
    assert log[..n][..n - 1] == log[..n - 1];
  }

  lemma NotGrownTwice(log: seq<Event>, n: nat, k: Key, o: nat)
    requires FlatMemory(log) && n < |log| && LastValue(log[..n], k, o).Some?
    ensures !(log[n].Grown? && log[n].key == k)
  {
    hide Flat, LastValue;
    assert Possible(log[..n], log[n]);
    FlatMemoryPrefix(log, n);
    FlatIsLastValue(log[..n], k, o);
  }

  /** A byte that has not been stored to since its page was grown is what the page started with. */
  lemma {:induction false} Unstored(log: seq<Event>, p: nat, n: nat, o: nat)
    requires FlatMemory(log) && p < n <= |log| && log[p].Grown? && o < |log[p].init|
    requires forall j :: p < j < n ==> log[j] != Ended(log[p].key.pid)
    requires forall j :: p < j < n ==> !(log[j].Stored? && log[j].key == log[p].key && log[j].off == o)
    ensures LastValue(log[..n], log[p].key, o) == Some(log[p].init[o])
    decreases n
  {
    hide FlatMemory;
    if n > p + 1 {
      hide LastValue;
      Unstored(log, p, n - 1, o);
      NotGrownTwice(log, n - 1, log[p].key, o);
      LastValueStays(log, n, log[p].key, o);
    }
  }

  /** So while no process has ended, the first load of a new page's byte gives the character zero. */
  lemma {:induction false} FirstLoadIsZero(log: seq<Event>, p: nat, q: nat, size: nat)
    requires FlatMemory(log) && FirstContents(log, size) && p < q < |log| && log[p].Grown?
    requires forall j :: 0 <= j < q ==> !log[j].Ended?
    requires log[q].Loaded? && log[q].key == log[p].key && log[q].off < size
    requires forall j :: p < j < q ==> !(log[j].Stored? && log[j].key == log[p].key && log[j].off == log[q].off)
    ensures log[q].value as int == '0' as int
  {
    FilledUntilAnEnd(log, p, size);
    Unstored(log, p, q, log[q].off);
    assert Possible(log[..q], log[q]);
  }

  /** What the next page in an unowned block starts with: zero fill exactly if no dirty page was ever
      evicted to the block, or if the last one that was held nothing but zero fill; that page belonged to a
      process that has ended. */
  lemma {:induction false} NewPageStartsAs(blocks: seq<BlockNode>, disk: seq<Bytes>, dumps: map<nat, Dump>,
                                           log: seq<Event>, b: nat, size: nat)
    requires BlocksExplained(blocks, disk, dumps, log) && b < |blocks| && blocks[b].page == None
    ensures b in dumps ==> LeftBehind(log, dumps[b], disk[b])
    ensures (if blocks[b].used then disk[b] else Filled(size)) ==
            (if b in dumps then Flat(log[..dumps[b].at])[dumps[b].key] else Filled(size))
  {
    if b in dumps {
      assert DumpOK(blocks[b], disk[b], dumps[b], log);
    }
  }

  // ---------------------------------------------------------------------------------------------
  // Steps that keep this
  // ---------------------------------------------------------------------------------------------

  ghost predicate Extends(log: seq<Event>, log': seq<Event>) {
    |log| <= |log'| && log'[..|log|] == log
  }

  lemma {:induction false} DumpedLater(log: seq<Event>, log': seq<Event>, d: Dump, bytes: Bytes)
    requires Extends(log, log') && Dumped(log, d, bytes)
    ensures Dumped(log', d, bytes)
  {
    assert log'[..d.at] == log'[..|log|][..d.at] == log[..d.at];
  }

  lemma {:induction false} EndedLater(log: seq<Event>, log': seq<Event>, at: nat, pid: int)
    requires Extends(log, log') && EndedSince(log, at, pid)
    ensures EndedSince(log', at, pid)
  {
    var j :| at <= j < |log| && log[j] == Ended(pid);
    assert log'[j] == log'[..|log|][j];
  }

  /** Nothing about blocks changes with more events. */
  lemma {:induction false} ExplainedLater(blocks: seq<BlockNode>, disk: seq<Bytes>, dumps: map<nat, Dump>,
                                          log: seq<Event>, log': seq<Event>)
    requires BlocksExplained(blocks, disk, dumps, log) && Extends(log, log')
    ensures BlocksExplained(blocks, disk, dumps, log')
  {
    hide Dumped, EndedSince, Extends;
    forall b | 0 <= b < |blocks| && b in dumps
      ensures DumpOK(blocks[b], disk[b], dumps[b], log')
    {
      DumpedLater(log, log', dumps[b], disk[b]);
      if blocks[b].page != Some(dumps[b].key) {
        EndedLater(log, log', dumps[b].at, dumps[b].key.pid);
      }
    }
  }

  lemma {:induction false} FirstLater(log: seq<Event>, log': seq<Event>, p: nat, size: nat)
    requires FirstContents(log, size) && Extends(log, log') && p < |log|
    ensures FirstHolds(log', p, size)
  {
    assert FirstHolds(log, p, size);
    assert log'[p] == log'[..|log|][p];
    assert log'[..p] == log'[..|log|][..p] == log[..p];
  }

  /** First contents with more events, none of which is a new page. */
  lemma {:induction false} FirstContentsLater(log: seq<Event>, log': seq<Event>, size: nat)
    requires FirstContents(log, size) && Extends(log, log')
    requires forall p :: |log| <= p < |log'| ==> !log'[p].Grown?
    ensures FirstContents(log', size)
  {
    hide Extends;
    forall p | 0 <= p < |log'|
      ensures FirstHolds(log', p, size)
    {
      if p < |log| {
        FirstLater(log, log', p, size);
      }
    }
  }

  /** The bookkeeping of a pager: its blocks, their bytes, the evictions, and the history. */
  ghost predicate Explained(blocks: seq<BlockNode>, disk: seq<Bytes>, dumps: map<nat, Dump>, log: seq<Event>, size: nat) {
    BlocksExplained(blocks, disk, dumps, log) && FirstContents(log, size)
  }

  lemma {:induction false} AccessesExplained(blocks: seq<BlockNode>, disk: seq<Bytes>, dumps: map<nat, Dump>,
                                             log: seq<Event>, log': seq<Event>, size: nat)
    requires Explained(blocks, disk, dumps, log, size) && OnlyAccesses(log, log')
    ensures Explained(blocks, disk, dumps, log', size)
  {
    ExplainedLater(blocks, disk, dumps, log, log');
    FirstContentsLater(log, log', size);
  }

  /** A new page in an unowned block. */
  lemma {:induction false} ExtendExplained(blocks: seq<BlockNode>, disk: seq<Bytes>, dumps: map<nat, Dump>,
                                           log: seq<Event>, size: nat, b: nat, k: Key)
    requires Explained(blocks, disk, dumps, log, size) && b < |blocks| && blocks[b].page == None
    ensures |disk| == |blocks|
    ensures Explained(blocks[b := blocks[b].(page := Some(k))], disk, dumps,
                      log + [Grown(k, if blocks[b].used then disk[b] else Filled(size))], size)
  {
    var init := if blocks[b].used then disk[b] else Filled(size);
    var log' := log + [Grown(k, init)];
    NewPageStartsAs(blocks, disk, dumps, log, b, size);
    assert log'[..|log|] == log;
    ExplainedLater(blocks, disk, dumps, log, log');
    OwnedExplained(blocks, disk, dumps, log', b, k);
    forall p | 0 <= p < |log'|
      ensures FirstHolds(log', p, size)
    {
      if p < |log| {
        FirstLater(log, log', p, size);
      }
    }
  }

  /** A new owner does not disturb a block whose last owner's process has ended. */
  lemma {:induction false} OwnedExplained(blocks: seq<BlockNode>, disk: seq<Bytes>, dumps: map<nat, Dump>,
                                          log: seq<Event>, b: nat, k: Key)
    requires BlocksExplained(blocks, disk, dumps, log) && b < |blocks| && blocks[b].page == None
    ensures BlocksExplained(blocks[b := blocks[b].(page := Some(k))], disk, dumps, log)
  {
    hide Dumped, EndedSince;
    var blocks' := blocks[b := blocks[b].(page := Some(k))];
    forall c | 0 <= c < |blocks'| && c in dumps
      ensures DumpOK(blocks'[c], disk[c], dumps[c], log)
    {
      assert DumpOK(blocks[c], disk[c], dumps[c], log);
    }
  }

  /** A dirty page was evicted to its block. */
  lemma {:induction false} EvictExplained(blocks: seq<BlockNode>, disk: seq<Bytes>, dumps: map<nat, Dump>,
                                          log: seq<Event>, disk': seq<Bytes>, b: nat, v: Key)
    requires BlocksExplained(blocks, disk, dumps, log) && b < |blocks| && blocks[b].page == Some(v)
    requires |disk'| == |disk| && forall c :: 0 <= c < |disk| && c != b ==> disk'[c] == disk[c]
    requires v in Flat(log) && Flat(log)[v] == disk'[b]
    ensures BlocksExplained(blocks[b := blocks[b].(used := true)], disk', dumps[b := Dump(v, |log|)], log)
  {
    assert log[..|log|] == log;
    hide EndedSince, Flat;
    var blocks' := blocks[b := blocks[b].(used := true)];
    forall c | 0 <= c < |blocks'| && c in dumps[b := Dump(v, |log|)]
      ensures DumpOK(blocks'[c], disk'[c], dumps[b := Dump(v, |log|)][c], log)
    {
      if c != b {
        assert DumpOK(blocks[c], disk[c], dumps[c], log);
      }
    }
  }

  /** A process ended and its blocks lost their owners. */
  lemma {:induction false} EndExplained(blocks: seq<BlockNode>, disk: seq<Bytes>, dumps: map<nat, Dump>,
                                        log: seq<Event>, size: nat, blocks': seq<BlockNode>, pid: int)
    requires Explained(blocks, disk, dumps, log, size) && |blocks'| == |blocks|
    requires forall b :: 0 <= b < |blocks| ==>
               blocks'[b] == if blocks[b].page.Some? && blocks[b].page.value.pid == pid
                             then blocks[b].(page := None) else blocks[b]
    ensures Explained(blocks', disk, dumps, log + [Ended(pid)], size)
  {
    var log' := log + [Ended(pid)];
    assert log'[..|log|] == log && log'[|log|] == Ended(pid);
    FirstContentsLater(log, log', size);
    ExplainedLater(blocks, disk, dumps, log, log');
    forall b | 0 <= b < |blocks'| && b in dumps
      ensures DumpOK(blocks'[b], disk[b], dumps[b], log')
    {
      assert DumpOK(blocks[b], disk[b], dumps[b], log) && dumps[b].at <= |log|;
      assert DumpOK(blocks[b], disk[b], dumps[b], log');
    }
  }
}
