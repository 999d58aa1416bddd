/** How many blocks an operation takes. */
module FsSpace {
  import opened Arith

  /** Data blocks of a file of n bytes. */
  function Chunks(n: nat, blksz: nat): (c: nat)
    requires blksz > 0
    ensures c == 0 <==> n == 0
    decreases n
  {
    if n == 0 then 0 else if n <= blksz then 1 else 1 + Chunks(n - blksz, blksz)
  }

  lemma {:induction false} ChunksIsCeiling(n: nat, blksz: nat)
    requires blksz > 0
    ensures Chunks(n, blksz) == (n + blksz - 1) / blksz
    decreases n
  {
    if n == 0 {
      DivModUnique(blksz - 1, blksz, 0, blksz - 1);
    } else if n <= blksz {
      DivModUnique(n + blksz - 1, blksz, 1, n - 1);
    } else {
      ChunksIsCeiling(n - blksz, blksz);
      var q := (n - blksz + blksz - 1) / blksz;
      assert n - 1 == q * blksz + (n - 1) % blksz;
      assert (q + 1) * blksz == q * blksz + blksz;
      DivModUnique(n + blksz - 1, blksz, q + 1, (n - 1) % blksz);
    }
  }

  /** Blocks taken by linking r more data blocks to a file whose last inode links p of at most max. */
  function Cost(p: nat, r: nat, max: nat): nat
    decreases r
  {
    if r == 0 then 0
    else if p < max then 1 + Cost(p + 1, r - 1, max)
    else 2 + Cost(1, r - 1, max)
  }

  /** Child inodes of a file of x data blocks. */
  function Children(x: nat, max: nat): nat
    requires max > 0
  {
    if x <= max then 0 else (x - max + max - 1) / max
  }

  lemma {:induction false} CostIsBlocksAndChildren(p: nat, r: nat, max: nat)
    requires p <= max && max > 0
    ensures Cost(p, r, max) == r + Children(p + r, max)
    decreases r
  {
    if r > 0 {
      if p < max {
        CostIsBlocksAndChildren(p + 1, r - 1, max);
      } else {
        CostIsBlocksAndChildren(1, r - 1, max);
        OneMoreChild(r, max);
      }
    }
  }

  lemma OneMoreChild(r: nat, max: nat)
    requires max > 0 && r > 0
    ensures Children(max + r, max) == 1 + Children(r, max)
  {
    if r <= max {
      DivModUnique(r + max - 1, max, 1, r - 1);
    } else {
      var q := (r - 1) / max;
      assert r - 1 == q * max + (r - 1) % max;
      assert (q + 1) * max == q * max + max;
      DivModUnique(r + max - 1, max, q + 1, (r - 1) % max);
      assert r - max + max - 1 == r - 1;
    }
  }

  /** Blocks taken by writing a new file of n bytes: metadata, inode, data blocks and child inodes. */
  function NewFileCost(n: nat, blksz: nat, max: nat): nat
    requires blksz > 0
  {
    2 + Cost(0, Chunks(n, blksz), max)
  }

  /** In closed form. */
  lemma NewFileCostIs(n: nat, blksz: nat, max: nat)
    requires blksz > 0 && max > 0
    ensures var d := (n + blksz - 1) / blksz;
            NewFileCost(n, blksz, max) == 2 + d + if d <= max then 0 else (d - max + max - 1) / max
  {
    ChunksIsCeiling(n, blksz);
    CostIsBlocksAndChildren(0, Chunks(n, blksz), max);
  }

  /** Data blocks and child inodes from the j-th inode of a chain on. */
  function Occupied(parts: seq<seq<nat>>, j: nat): nat
    decreases |parts| - j
  {
    if j >= |parts| then 0 else |parts[j]| + (if j > 0 then 1 else 0) + Occupied(parts, j + 1)
  }

  /** The number of blocks that fs_write_file checks for. */
  function Checked(n: nat, blksz: nat): nat
    requires blksz > 0
  {
    if n / blksz == 0 then 1 else n / blksz
  }

  /** What the check refuses, said without division. */
  lemma {:induction false} CheckedIff(n: nat, blksz: nat, free: nat)
    requires blksz > 0
    ensures Checked(n, blksz) > free <==> free == 0 || n >= blksz * (free + 1)
  {
    var q := n / blksz;
    assert n == q * blksz + n % blksz;
    if q > free {
      ProductsGrow(free + 1, q, blksz);
    } else {
      ProductsGrow(q + 1, free + 1, blksz);
      assert (q + 1) * blksz == q * blksz + blksz;
    }
  }

  lemma ProductsGrow(i: nat, j: nat, size: nat)
    requires i <= j
    ensures i * size <= j * size
  {
    if i < j {
      MulGap(i, j, size);
    }
  }

  /** A quotient rounded up is at most k exactly if the product with k is enough. */
  lemma {:induction false} CeilingAtMost(n: nat, size: nat, k: nat)
    requires size > 0
    ensures (n + size - 1) / size <= k <==> n <= size * k
  {
    var q := (n + size - 1) / size;
    assert n + size - 1 == q * size + (n + size - 1) % size;
    if q <= k {
      ProductsGrow(q, k, size);
    } else {
      ProductsGrow(k + 1, q, size);
      assert (k + 1) * size == k * size + size;
    }
  }

  /** A new file of d > 0 data blocks takes one more child inode for each full inode it leaves behind. */
  lemma {:induction false} BlocksFitIff(d: nat, max: nat, free: nat)
    requires max > 0
    ensures 2 + d + (if d <= max then 0 else (d - max + max - 1) / max) <= free
            <==> free >= 2 && d <= max * (free - 1) / (max + 1)
  {
    if free >= 2 {
      ChildrenFitIff(d, max, free);
      QuotientAtLeast(d, max * (free - 1), max + 1);
    }
  }

  lemma {:induction false} QuotientAtLeast(d: nat, a: nat, b: nat)
    requires b > 0
    ensures d <= a / b <==> d * b <= a
  {
    var q := a / b;
    assert a == q * b + a % b;
    if d <= q {
      ProductsGrow(d, q, b);
    } else {
      ProductsGrow(q + 1, d, b);
      assert (q + 1) * b == q * b + b;
    }
  }

  lemma {:induction false} ChildrenFitIff(d: nat, max: nat, free: nat)
    requires max > 0 && free >= 2
    ensures 2 + d + (if d <= max then 0 else (d - max + max - 1) / max) <= free <==> d * (max + 1) <= max * (free - 1)
  {
    var k := free - 1 - d;
    assert max * (free - 1) == max * k + max * d && d * (max + 1) == max * d + d;
    if k >= 0 {
      CeilingAtMost(d, max, k);
      if d > max {
        assert d - 1 == (d - 1) / max * max + (d - 1) % max;
        DivModUnique(d + max - 1, max, (d - 1) / max + 1, (d - 1) % max);
      } else if d > 0 {
        DivModUnique(d + max - 1, max, 1, d - 1);
      }
    } else {
      assert max * k <= 0;
    }
  }

  /** The check asks for at least one block less than a new file takes, for every size.  So between the two
      numbers a write passes the check and then runs out of blocks. */
  lemma CheckIsTooWeak(n: nat, blksz: nat, max: nat)
    requires blksz > 0 && max > 0
    ensures Checked(n, blksz) < NewFileCost(n, blksz, max)
  {
    hide Chunks, Checked, NewFileCost;
    var c, cost := Chunks(n, blksz), NewFileCost(n, blksz, max);
    TwoMore(n, blksz, max);
    ChunksAtMost(n, blksz, c);
    FarBelow(n, blksz, c, cost);
    CheckedIff(n, blksz, cost - 1);
  }

  lemma TwoMore(n: nat, blksz: nat, max: nat)
    requires blksz > 0 && max > 0
    ensures NewFileCost(n, blksz, max) >= 2 + Chunks(n, blksz)
  {
    hide Children;
    CostIsBlocksAndChildren(0, Chunks(n, blksz), max);
  }

  lemma FarBelow(n: nat, size: nat, c: nat, cost: nat)
    requires size > 0 && n <= size * c && c < cost
    ensures n < size * cost
  {
    ProductsGrow(c + 1, cost, size);
    assert (c + 1) * size == c * size + size;
  }

  lemma {:induction false} ChunksAtMost(n: nat, blksz: nat, k: nat)
    requires blksz > 0
    ensures Chunks(n, blksz) <= k <==> n <= blksz * k
  {
    ChunksIsCeiling(n, blksz);
    CeilingAtMost(n, blksz, k);
  }

  /** The most data blocks that a new file can have with so many free blocks. */
  function MostBlocks(max: nat, free: nat): nat {
    if free >= 2 then max * (free - 1) / (max + 1) else 0
  }

  lemma {:induction false} NewFileFits(n: nat, blksz: nat, max: nat, free: nat)
    requires blksz > 0 && max > 0
    ensures NewFileCost(n, blksz, max) <= free <==> free >= 2 && Chunks(n, blksz) <= MostBlocks(max, free)
  {
    NewFileCostIs(n, blksz, max);
    ChunksIsCeiling(n, blksz);
    var d := (n + blksz - 1) / blksz;
    hide NewFileCost, Chunks;
    BlocksFitIff(d, max, free);
  }

  /** Which new files there is room for, from their size alone. */
  lemma {:induction false} NewFileFitsIff(n: nat, blksz: nat, max: nat, free: nat)
    requires blksz > 0 && max > 0
    ensures NewFileCost(n, blksz, max) <= free <==> free >= 2 && n <= blksz * (max * (free - 1) / (max + 1))
  {
    hide NewFileCost, Chunks;
    NewFileFits(n, blksz, max, free);
    ChunksAtMost(n, blksz, MostBlocks(max, free));
  }

  /** The sizes at which a new file passes the check and then runs out of blocks: everything below two blocks
      if one block is free; and with more, everything from the largest file that fits up to the check's limit. */
  lemma {:induction false} PassesAndRunsOutIff(n: nat, blksz: nat, max: nat, free: nat)
    requires blksz > 0 && max > 0
    ensures Checked(n, blksz) <= free < NewFileCost(n, blksz, max)
            <==> (free == 1 && n < 2 * blksz)
                 || (free >= 2 && blksz * (max * (free - 1) / (max + 1)) < n < blksz * (free + 1))
  {
    CheckedIff(n, blksz, free);
    NewFileFitsIff(n, blksz, max, free);
  }
}
