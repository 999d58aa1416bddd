/** Which addresses a process can use.  The fault handler of a process lets a fault through to the pager only
    up to a fixed address, but the pager hands out pages beyond it. */
module PagerReach {
  import opened Arith
  import opened Common
  import opened Mmu
  import opened PagerState

  /** UVM_MAXADDR */
  const MAXADDR := 0x600F_FFFF

  /** The addresses at which uvm_segv_action asks the pager; at all others it ends the process. */
  predicate Handled(tables: map<int, seq<Key>>, size: nat, pid: int, addr: int) {
    pid in tables && BASE <= addr <= MAXADDR && addr < VAddr(|tables[pid]|, size)
  }

  /** A load gets its byte, at once or after a fault. */
  ghost predicate CanLoad(s: State, pid: int, addr: int) {
    && s.size > 0 && BASE <= addr
    && (Accessible(s.mapping, KeyAt(pid, addr, s.size)) || Handled(s.tables, s.size, pid, addr))
  }

  /** A store takes place, at once or after faults. */
  ghost predicate CanStore(s: State, pid: int, addr: int) {
    && s.size > 0 && BASE <= addr
    && (Writable(s.mapping, KeyAt(pid, addr, s.size)) || Handled(s.tables, s.size, pid, addr))
  }

  lemma CanStoreIff(s: State, pid: int, addr: int)
    requires pid in s.tables && s.size > 0
    ensures CanStore(s, pid, addr)
            <==> 0x6000_0000 <= addr
                 && (Writable(s.mapping, KeyAt(pid, addr, s.size))
                     || (addr <= 0x600F_FFFF && addr < 0x6000_0000 + |s.tables[pid]| * s.size))
  {
  }

  /** No process reaches a page that starts beyond the last address that the handler lets through. */
  ghost predicate InReach(s: State) {
    forall k :: Accessible(s.mapping, k) ==> VAddr(k.index, s.size) <= MAXADDR
  }

  /** At most one page became reachable. */
  ghost predicate GainedOnly(m: map<Key, Mapping>, m': map<Key, Mapping>, k: Key) {
    forall q :: Accessible(m', q) ==> Accessible(m, q) || q == k
  }

  /** What a process can reach is a page it has. */
  lemma {:induction false} AccessibleIsPage(s: State, k: Key)
    requires Inv(s, -1, None) && Reaches(s.mapping, s.owner) && Accessible(s.mapping, k)
    ensures k in s.pages && k.pid in s.tables && k.index < |s.tables[k.pid]|
  {
    assert OccupiedOK(s, s.mapping[k].frame);
  }

  /** With pages that fill the space between the base and the last address, exactly the allocated addresses
      up to the last one can be loaded from and stored to. */
  lemma {:induction false} UsableIff(s: State, pid: int, addr: int)
    requires Inv(s, -1, None) && Reaches(s.mapping, s.owner) && InReach(s) && pid in s.tables
    requires (MAXADDR + 1 - BASE) % s.size == 0
    ensures CanLoad(s, pid, addr) <==> Handled(s.tables, s.size, pid, addr)
    ensures CanStore(s, pid, addr) <==> Handled(s.tables, s.size, pid, addr)
  {
    if BASE <= addr && Accessible(s.mapping, KeyAt(pid, addr, s.size)) {
      var i := (addr - BASE) / s.size;
      AccessibleIsPage(s, Key(pid, i));
      hide Inv, Reaches, VAddr;
      InPage(addr, i, s.size);
      UpTo(i, |s.tables[pid]|, s.size);
      WholePages(i, s.size);
    }
  }

  /** A page that starts before the last address ends there or before. */
  lemma WholePages(i: nat, size: nat)
    requires size > 0 && (MAXADDR + 1 - BASE) % size == 0 && VAddr(i, size) <= MAXADDR
    ensures VAddr(i, size) + size <= MAXADDR + 1
  {
    var n := (MAXADDR + 1 - BASE) / size;
    assert n * size == MAXADDR + 1 - BASE;
    if n < i {
      MulGap(n, i, size);
    } else if i < n {
      UpTo(i, n, size);
    }
  }

  lemma UpTo(i: nat, n: nat, size: nat)
    requires i < n
    ensures VAddr(i, size) + size <= VAddr(n, size)
  {
    MulGap(i, n, size);
  }

  /** Every byte of a page can be loaded and stored. */
  ghost predicate WholePageUsable(s: State, k: Key) {
    forall a :: VAddr(k.index, s.size) <= a < VAddr(k.index + 1, s.size) ==> CanLoad(s, k.pid, a) && CanStore(s, k.pid, a)
  }

  /** All of a new page can be used exactly if it ends before or with the last address. */
  lemma {:induction false} NewPageUsableIff(s: State, s': State, k: Key)
    requires Inv(s, -1, None) && Reaches(s.mapping, s.owner) && Grew(s, s', k) && k.index == |s.tables[k.pid]|
    ensures WholePageUsable(s', k) <==> VAddr(|s.tables[k.pid]| + 1, s.size) <= MAXADDR + 1
  {
    assert !Accessible(s.mapping, k) by {
      if Accessible(s.mapping, k) {
        AccessibleIsPage(s, k);
      }
    }
    assert |s'.tables[k.pid]| == k.index + 1;
    hide Inv, Reaches;
    MulGap(k.index, k.index + 1, s.size);
    forall a | VAddr(k.index, s.size) <= a < VAddr(k.index + 1, s.size)
      ensures CanLoad(s', k.pid, a) <==> a <= MAXADDR
      ensures CanStore(s', k.pid, a) <==> a <= MAXADDR
    {
      InPage(a, k.index, s.size);
    }
    var last := VAddr(k.index + 1, s.size) - 1;
    if last > MAXADDR {
      assert !CanLoad(s', k.pid, last);
    }
  }
}
