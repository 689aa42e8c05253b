/** The memory that the coins of a cache hold besides their entries. */
module CoinsUsage {
  import opened CoinsSpec

  /** Scripts up to this size are stored in place. */
  const DIRECT_SIZE := 28

  /** What an allocation takes, on a 64-bit machine. */
  function MallocUsage(n: nat): nat {
    if n == 0 then 0 else (n + 31) / 16 * 16
  }

  function CoinUsage(c: Coin): nat {
    if c.Spent? then 0 else MallocUsage(if |c.out.script| <= DIRECT_SIZE then 0 else |c.out.script|)
  }

  function EntryUsage(m: Entries, o: OutPoint): nat {
    if o in m then CoinUsage(m[o].coin) else 0
  }

  /** The sum over all entries. */
  ghost function Usage(m: Entries): nat
    decreases |m|
  {
    if m == map[] then 0
    else
      var o :| o in m;
      Smaller(m, o);
      CoinUsage(m[o].coin) + Usage(m - {o})
  }

  lemma Smaller(m: Entries, o: OutPoint)
    requires o in m
    ensures |m - {o}| == |m| - 1
  {
    assert m.Keys == (m - {o}).Keys + {o};
    assert |m| == |m.Keys| && |m - {o}| == |(m - {o}).Keys|;
  }

  /** The sum does not depend on the order in which entries are taken out. */
  lemma {:induction false} UsageLess(m: Entries, o: OutPoint)
    requires o in m
    ensures Usage(m) == CoinUsage(m[o].coin) + Usage(m - {o})
    decreases |m|
  {
    var x :| x in m && Usage(m) == CoinUsage(m[x].coin) + Usage(m - {x});
    if x != o {
      Smaller(m, x);
      Smaller(m, o);
      UsageLess(m - {x}, o);
      UsageLess(m - {o}, x);
      assert m - {x} - {o} == m - {o} - {x};
    }
  }

  lemma UsageSet(m: Entries, o: OutPoint, e: Entry)
    ensures Usage(m[o := e]) == Usage(m) - EntryUsage(m, o) + CoinUsage(e.coin)
  {
    hide Usage;
    var n := m[o := e];
    UsageLess(n, o);
    if o in m {
      UsageLess(m, o);
      assert n - {o} == m - {o};
    } else {
      assert n - {o} == m;
    }
  }

  lemma UsageDrop(m: Entries, o: OutPoint)
    ensures Usage(m - {o}) == Usage(m) - EntryUsage(m, o)
  {
    hide Usage;
    if o in m { UsageLess(m, o); } else { assert m - {o} == m; }
  }

  lemma UsageNone()
    ensures Usage(map[]) == 0
  {
  }
}
