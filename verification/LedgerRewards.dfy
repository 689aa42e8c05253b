/** What rewards are for: over every run, each is the gain of a coinstake that spent the funds of its deposit, and a
    watcher pass that runs to its end misses none. */
module LedgerRewards {
  import opened Ledger
  import opened LedgerRuns
  import opened Options

  // ---------------------------------------------------------------- what a coinstake gains

  function Sum(s: seq<int>): int {
    if s == [] then 0 else Sum(s[..|s| - 1]) + s[|s| - 1]
  }

  function Outputs(tx: RawTx): (r: seq<int>)
    ensures |r| == |tx.vout| && forall k :: 0 <= k < |r| ==> r[k] == tx.vout[k].value
  {
    seq(|tx.vout|, k requires 0 <= k < |tx.vout| => tx.vout[k].value)
  }

  /** The value of the output that an input refers to. */
  ghost predicate RefersTo(chain: Chain, v: Vin, value: int) {
    && !v.coinbase && chain.getTx(v.txid).Some?
    && var outs := chain.getTx(v.txid).value.vout; v.vout < |outs| && outs[v.vout].value == value
  }

  /** The node shows the transaction as a coinstake that spends an output: inputs that do not mint, an empty first
      output and another one, and an input that refers to the output. */
  ghost predicate Stakes(chain: Chain, txid: TxId, from: TxId, vout: nat) {
    && chain.getTx(txid).Some?
    && var tx := chain.getTx(txid).value;
       && |tx.vin| > 0 && !tx.vin[0].coinbase
       && |tx.vout| >= 2 && tx.vout[0] == Vout(0, true)
       && exists k :: 0 <= k < |tx.vin| && tx.vin[k] == Vin(false, from, vout)
  }

  /** The outputs of the transaction are worth so much more than the outputs its inputs refer to. */
  ghost predicate Gains(chain: Chain, txid: TxId, gross: int) {
    && chain.getTx(txid).Some?
    && var tx := chain.getTx(txid).value;
       exists ins: seq<int> ::
         && |ins| == |tx.vin| && (forall k :: 0 <= k < |ins| ==> RefersTo(chain, tx.vin[k], ins[k]))
         && gross == Sum(Outputs(tx)) - Sum(ins)
  }

  ghost predicate Earned(chain: Chain, d: Deposit, r: Reward) {
    Stakes(chain, r.txid, d.txid, d.vout) && Gains(chain, r.txid, r.gross)
  }

  lemma {:induction false} OutTotalIs(tx: RawTx, n: nat)
    requires n <= |tx.vout|
    ensures OutTotal(tx.vout[..n]) == Sum(Outputs(tx)[..n])
  {
    if n > 0 {
      OutTotalIs(tx, n - 1);
      assert tx.vout[..n][..n - 1] == tx.vout[..n - 1] && Outputs(tx)[..n][..n - 1] == Outputs(tx)[..n - 1];
    }
  }

  lemma {:induction false} InTotalIs(chain: Chain, vin: seq<Vin>) returns (ins: seq<int>)
    requires InTotal(chain, vin).Some?
    ensures |ins| == |vin| && (forall k :: 0 <= k < |ins| ==> RefersTo(chain, vin[k], ins[k]))
    ensures InTotal(chain, vin).value == Sum(ins)
  {
    ins := [];
    if vin != [] {
      var n := |vin| - 1;
      var front := InTotalIs(chain, vin[..n]);
      var v := InValue(chain, vin[n]).value;
      ins := front + [v];
      forall k | 0 <= k < |ins| ensures RefersTo(chain, vin[k], ins[k]) {
        if k < n { assert RefersTo(chain, vin[..n][k], front[k]); }
      }
      assert ins[..n] == front;
    }
  }

  lemma StakesIff(chain: Chain, txid: TxId, d: Deposit)
    requires chain.getTx(txid).Some?
    ensures Stakes(chain, txid, d.txid, d.vout) <==>
            IsCoinstake(chain.getTx(txid).value) && Spends(chain.getTx(txid).value, d)
  {
    var tx := chain.getTx(txid).value;
    if Spends(tx, d) {
      var k :| 0 <= k < |tx.vin| && !tx.vin[k].coinbase && tx.vin[k].txid == d.txid && tx.vin[k].vout == d.vout;
      assert tx.vin[k] == Vin(false, d.txid, d.vout);
    }
  }

  lemma GainsIs(chain: Chain, txid: TxId)
    requires chain.getTx(txid).Some? && InTotal(chain, chain.getTx(txid).value.vin).Some?
    ensures var tx := chain.getTx(txid).value;
            Gains(chain, txid, OutTotal(tx.vout) - InTotal(chain, tx.vin).value)
  {
    var tx := chain.getTx(txid).value;
    OutTotalIs(tx, |tx.vout|);
    assert tx.vout[..|tx.vout|] == tx.vout && Outputs(tx)[..|tx.vout|] == Outputs(tx);
    var ins := InTotalIs(chain, tx.vin);
  }

  // ---------------------------------------------------------------- every reward was earned

  /** Funded deposits keep the output that funded them. */
  ghost predicate KeepsFunds(b: Books, c: Books) {
    && |b.deposits| <= |c.deposits|
    && forall k :: 0 <= k < |b.deposits| && Funded(b.deposits[k]) ==>
         Funded(c.deposits[k]) && c.deposits[k].txid == b.deposits[k].txid && c.deposits[k].vout == b.deposits[k].vout
  }

  ghost predicate RewardEarned(b: Books, seen: seq<Chain>, r: Reward) {
    && r.deposit.n < |b.deposits| && Funded(b.deposits[r.deposit.n])
    && exists i :: 0 <= i < |seen| && Earned(seen[i], b.deposits[r.deposit.n], r)
  }

  /** Each reward is what a coinstake of its deposit's funds gained, on one of the chains seen so far. */
  ghost predicate AllEarned(b: Books, seen: seq<Chain>) {
    forall k :: 0 <= k < |b.rewards| ==> RewardEarned(b, seen, b.rewards[k])
  }

  lemma EarnedStays(b: Books, c: Books, seen: seq<Chain>, more: seq<Chain>)
    requires AllEarned(b, seen) && KeepsFunds(b, c) && c.rewards == b.rewards
    ensures AllEarned(c, seen + more)
  {
    hide Earned;
    forall k | 0 <= k < |c.rewards| ensures RewardEarned(c, seen + more, c.rewards[k]) {
      var r := b.rewards[k];
      assert RewardEarned(b, seen, r);
      var i :| 0 <= i < |seen| && Earned(seen[i], b.deposits[r.deposit.n], r);
      assert (seen + more)[i] == seen[i];
      SameFunds(seen[i], b.deposits[r.deposit.n], c.deposits[r.deposit.n], r);
    }
  }

  lemma SameFunds(chain: Chain, d: Deposit, e: Deposit, r: Reward)
    requires Earned(chain, d, r) && d.txid == e.txid && d.vout == e.vout
    ensures Earned(chain, e, r)
  {
  }

  lemma CreditOneEarns(chain: Chain, rates: Rates, b: Books, id: nat, txid: TxId, seen: seq<Chain>)
    requires id < |b.deposits| && Funded(b.deposits[id]) && AllEarned(b, seen + [chain])
    ensures AllEarned(CreditOne(chain, rates, b, id, txid).books, seen + [chain])
  {
    hide Stakes, Gains;
    var c := CreditOne(chain, rates, b, id, txid).books;
    if c != b {
      var r := c.rewards[|b.rewards|];
      StakesIff(chain, txid, b.deposits[id]);
      GainsIs(chain, txid);
      assert (seen + [chain])[|seen|] == chain && Earned(chain, c.deposits[id], r);
      forall k | 0 <= k < |c.rewards| ensures RewardEarned(c, seen + [chain], c.rewards[k]) {
        if k < |b.rewards| { assert RewardEarned(b, seen + [chain], b.rewards[k]); }
      }
    }
  }

  lemma {:induction false} CreditFromEarns(chain: Chain, rates: Rates, b: Books, id: nat, txs: seq<TxId>,
                                           seen: seq<Chain>)
    requires id < |b.deposits| && Funded(b.deposits[id]) && AllEarned(b, seen + [chain])
    ensures AllEarned(CreditFrom(chain, rates, b, id, txs).books, seen + [chain])
    decreases txs
  {
    hide AllEarned, CreditOne;
    if txs != [] {
      CreditOneEarns(chain, rates, b, id, txs[0], seen);
      var r := CreditOne(chain, rates, b, id, txs[0]);
      if r.ok { CreditFromEarns(chain, rates, r.books, id, txs[1..], seen); }
    }
  }

  lemma {:induction false} AttributeEarns(chain: Chain, rates: Rates, b: Books, i: nat, seen: seq<Chain>)
    requires i <= |b.deposits| && AllEarned(b, seen + [chain])
    ensures AllEarned(AttributeFrom(chain, rates, b, i).books, seen + [chain])
    decreases |b.deposits| - i
  {
    hide AllEarned, CreditFrom;
    if i < |b.deposits| {
      var d := b.deposits[i];
      if d.phase.Active? && chain.history(DepositId(i)).Some? {
        CreditFromEarns(chain, rates, b, i, chain.history(DepositId(i)).value, seen);
      }
      var r := AttributeOne(chain, rates, b, i);
      if r.ok { AttributeEarns(chain, rates, r.books, i + 1, seen); }
    }
  }

  /** The deposit after marking: funded by the first output at its address, or as before. */
  ghost predicate IsMarked(chain: Chain, d: Deposit, e: Deposit) {
    if d.phase.Awaiting? && chain.listUnspent(d.address).Some? && chain.listUnspent(d.address).value != [] then
      var u := chain.listUnspent(d.address).value[0];
      e == d.(phase := Active, txid := u.txid, vout := u.vout, amount := u.amount)
    else e == d
  }

  lemma {:induction false} MarkExact(chain: Chain, rates: Rates, b: Books, i: nat)
    requires i <= |b.deposits|
    ensures var r := MarkFrom(chain, rates, b, i);
            && r.books.rewards == b.rewards && |r.books.deposits| == |b.deposits| && KeepsFunds(b, r.books)
            && (forall k :: 0 <= k < i ==> r.books.deposits[k] == b.deposits[k])
            && (r.ok ==> forall k :: i <= k < |b.deposits| ==> IsMarked(chain, b.deposits[k], r.books.deposits[k]))
    decreases |b.deposits| - i
  {
    hide Activated;
    if i < |b.deposits| {
      var d := b.deposits[i];
      if d.phase.Awaiting? && chain.listUnspent(d.address).Some? && chain.listUnspent(d.address).value != [] {
        var u := chain.listUnspent(d.address).value[0];
        ActivatedIs(b, rates, i, u);
        var c := Activated(b, rates, i, u);
        MarkExact(chain, rates, c, i + 1);
        KeepsTrans(b, c, MarkFrom(chain, rates, c, i + 1).books);
      } else if !d.phase.Awaiting? || chain.listUnspent(d.address).Some? {
        MarkExact(chain, rates, b, i + 1);
      }
    }
  }

  lemma ActivatedIs(b: Books, rates: Rates, id: nat, u: Utxo)
    requires id < |b.deposits| && b.deposits[id].phase.Awaiting?
    ensures var c := Activated(b, rates, id, u);
            && c.deposits == b.deposits[id := b.deposits[id].(phase := Active, txid := u.txid, vout := u.vout,
                                                              amount := u.amount)]
            && c.rewards == b.rewards && KeepsFunds(b, c)
  {
  }

  lemma KeepsTrans(a: Books, b: Books, c: Books)
    requires KeepsFunds(a, b) && KeepsFunds(b, c)
    ensures KeepsFunds(a, c)
  {
  }

  lemma WatchEarns(chain: Chain, rates: Rates, b: Books, seen: seq<Chain>)
    requires AllEarned(b, seen)
    ensures AllEarned(Watched(chain, rates, b).books, seen + [chain])
  {
    hide AllEarned, MarkFrom, AttributeFrom;
    var c := MarkFrom(chain, rates, b, 0).books;
    MarkExact(chain, rates, b, 0);
    EarnedStays(b, c, seen, [chain]);
    EarnedStays(b, b, seen, [chain]);
    AttributeEarns(chain, rates, c, 0, seen);
  }

  function ChainOf(op: Op): seq<Chain> {
    if op.Watch? then [op.chain] else []
  }

  /** The chains that the watcher passes of a run saw. */
  function ChainsOf(ops: seq<Op>): seq<Chain> {
    if ops == [] then [] else ChainOf(ops[0]) + ChainsOf(ops[1..])
  }

  lemma StepEarns(b: Books, rates: Rates, op: Op, seen: seq<Chain>)
    requires AllEarned(b, seen)
    ensures AllEarned(Step(b, rates, op), seen + ChainOf(op))
  {
    hide AllEarned, Watched;
    if op.Watch? {
      WatchEarns(op.chain, rates, b, seen);
    } else {
      EarnedStays(b, Step(b, rates, op), seen, []);
    }
  }

  lemma {:induction false} RunEarns(b: Books, rates: Rates, ops: seq<Op>, seen: seq<Chain>)
    requires AllEarned(b, seen)
    ensures AllEarned(Run(b, rates, ops), seen + ChainsOf(ops))
    decreases ops
  {
    hide AllEarned, Step, ChainOf;
    if ops == [] {
      assert seen + ChainsOf(ops) == seen;
    } else {
      StepEarns(b, rates, ops[0], seen);
      RunEarns(Step(b, rates, ops[0]), rates, ops[1..], seen + ChainOf(ops[0]));
      Regroup(seen, ChainOf(ops[0]), ChainsOf(ops[1..]));
    }
  }

  lemma Regroup(a: seq<Chain>, b: seq<Chain>, c: seq<Chain>)
    ensures a + (b + c) == (a + b) + c
  {
  }

  /** Over every run from empty books, each reward belongs to a transaction that the node showed to a watcher pass as a
      coinstake spending the output that funded its deposit, and is the sum of its outputs less the sum of the outputs
      that its inputs refer to. */
  lemma EveryReward(rates: Rates, ops: seq<Op>, k: nat)
    requires k < |Run(NEW_BOOKS, rates, ops).rewards|
    ensures var b := Run(NEW_BOOKS, rates, ops);
            var r := b.rewards[k];
            && r.deposit.n < |b.deposits|
            && exists i :: 0 <= i < |ChainsOf(ops)| && Earned(ChainsOf(ops)[i], b.deposits[r.deposit.n], r)
  {
    hide Run, Earned;
    RunEarns(NEW_BOOKS, rates, ops, []);
    assert [] + ChainsOf(ops) == ChainsOf(ops);
    assert RewardEarned(Run(NEW_BOOKS, rates, ops), ChainsOf(ops), Run(NEW_BOOKS, rates, ops).rewards[k]);
  }

  // ---------------------------------------------------------------- no reward is missed

  lemma {:induction false} CreditFromHandles(chain: Chain, rates: Rates, b: Books, id: nat, txs: seq<TxId>)
    requires id < |b.deposits|
    ensures var r := CreditFrom(chain, rates, b, id, txs);
            && Extends(b, r.books)
            && (r.ok ==> forall k :: 0 <= k < |txs| ==> Handled(chain, r.books, id, txs[k]))
    decreases txs
  {
    hide CreditOne, Handled;
    if txs != [] {
      CreditHandles(chain, rates, b, id, txs[0]);
      var r1 := CreditOne(chain, rates, b, id, txs[0]);
      if r1.ok {
        CreditFromHandles(chain, rates, r1.books, id, txs[1..]);
        var r := CreditFrom(chain, rates, b, id, txs);
        HandledLater(chain, r1.books, r.books, id, txs[0]);
        forall k | 0 <= k < |txs| && r.ok ensures Handled(chain, r.books, id, txs[k]) {
          if k > 0 { assert txs[k] == txs[1..][k - 1]; }
        }
      }
    }
  }

  /** Nothing is left to credit for the deposit. */
  ghost predicate AllCredited(chain: Chain, b: Books, id: nat)
    requires id < |b.deposits|
  {
    var d := b.deposits[id];
    d.phase.Active? && chain.getTxOut(d.txid, d.vout).Spent? ==>
      && chain.history(DepositId(id)).Some?
      && forall k :: 0 <= k < |chain.history(DepositId(id)).value| ==>
           var txid := chain.history(DepositId(id)).value[k];
           Stakes(chain, txid, d.txid, d.vout) ==> Rewarded(b, txid)
  }

  lemma HandledCredited(chain: Chain, b: Books, id: nat, txid: TxId)
    requires id < |b.deposits| && Handled(chain, b, id, txid)
    ensures Stakes(chain, txid, b.deposits[id].txid, b.deposits[id].vout) ==> Rewarded(b, txid)
  {
    if chain.getTx(txid).Some? { StakesIff(chain, txid, b.deposits[id]); }
  }

  lemma AttributeOneCredits(chain: Chain, rates: Rates, b: Books, id: nat)
    requires id < |b.deposits|
    ensures var r := AttributeOne(chain, rates, b, id);
            Extends(b, r.books) && (r.ok ==> AllCredited(chain, r.books, id))
  {
    hide CreditFrom, Handled, Stakes, Rewarded;
    var r := AttributeOne(chain, rates, b, id);
    if chain.history(DepositId(id)).Some? {
      var txs := chain.history(DepositId(id)).value;
      CreditFromHandles(chain, rates, b, id, txs);
      var c := CreditFrom(chain, rates, b, id, txs);
      if c.ok {
        forall k | 0 <= k < |txs|
          ensures Stakes(chain, txs[k], b.deposits[id].txid, b.deposits[id].vout) ==> Rewarded(c.books, txs[k])
        {
          HandledCredited(chain, c.books, id, txs[k]);
        }
      }
    }
  }

  lemma CreditedLater(chain: Chain, b: Books, c: Books, id: nat)
    requires id < |b.deposits| && Extends(b, c) && AllCredited(chain, b, id)
    ensures AllCredited(chain, c, id)
  {
    hide Stakes;
    forall t | Rewarded(b, t) ensures Rewarded(c, t) {
      var k :| 0 <= k < |b.rewards| && b.rewards[k].txid == t;
      assert c.rewards[k].txid == t;
    }
  }

  lemma {:induction false} AttributeCredits(chain: Chain, rates: Rates, b: Books, i: nat)
    requires i <= |b.deposits|
    ensures var r := AttributeFrom(chain, rates, b, i);
            && Extends(b, r.books)
            && (r.ok ==> forall k :: i <= k < |b.deposits| ==> AllCredited(chain, r.books, k))
    decreases |b.deposits| - i
  {
    hide AttributeOne, AllCredited;
    if i < |b.deposits| {
      AttributeOneCredits(chain, rates, b, i);
      var r1 := AttributeOne(chain, rates, b, i);
      if r1.ok {
        AttributeCredits(chain, rates, r1.books, i + 1);
        CreditedLater(chain, r1.books, AttributeFrom(chain, rates, b, i).books, i);
      }
    }
  }

  /** After a pass that ran to its end, every awaiting deposit with an output at its address is funded by the first, and
      every coinstake in the history of an active deposit with spent funds has a reward. */
  lemma PassMissesNothing(chain: Chain, rates: Rates, b: Books)
    requires Watched(chain, rates, b).ok
    ensures var c := Watched(chain, rates, b).books;
            && |c.deposits| == |b.deposits|
            && (forall id :: 0 <= id < |b.deposits| ==> IsMarked(chain, b.deposits[id], c.deposits[id]))
            && (forall id :: 0 <= id < |b.deposits| ==> AllCredited(chain, c, id))
  {
    hide MarkFrom, AttributeFrom, AllCredited, IsMarked;
    MarkExact(chain, rates, b, 0);
    AttributeCredits(chain, rates, MarkFrom(chain, rates, b, 0).books, 0);
  }

  // ---------------------------------------------------------------- what a user is owed

  /** The amounts of the deposits of a user in a phase, and nothing for the others. */
  function Amounts(b: Books, u: User, phase: Phase): (r: seq<int>)
    ensures |r| == |b.deposits|
  {
    seq(|b.deposits|, k requires 0 <= k < |b.deposits| => if Counts(b, u, phase, k) then b.deposits[k].amount else 0)
  }

  /** The net rewards that belong to such deposits. */
  function Nets(b: Books, u: User, phase: Phase): (r: seq<int>)
    ensures |r| == |b.rewards|
  {
    seq(|b.rewards|, k requires 0 <= k < |b.rewards| =>
      if Counts(b, u, phase, b.rewards[k].deposit.n) then b.rewards[k].net else 0)
  }

  lemma {:induction false} WorthWithout(b: Books, u: User, phase: Phase, n: nat)
    requires n <= |b.deposits| && b.rewards == []
    ensures Worth(b, u, phase, n) == Sum(Amounts(b, u, phase)[..n])
  {
    if n > 0 {
      WorthWithout(b, u, phase, n - 1);
      WorthBare(b, u, phase, n);
      assert Amounts(b, u, phase)[..n][..n - 1] == Amounts(b, u, phase)[..n - 1];
    }
  }

  /** What a user's deposits in a phase are worth: their amounts, and the net of every reward that belongs to one. */
  lemma {:induction false} WorthIs(b: Books, u: User, phase: Phase)
    ensures Worth(b, u, phase, |b.deposits|) == Sum(Amounts(b, u, phase)) + Sum(Nets(b, u, phase))
    decreases |b.rewards|
  {
    hide Worth;
    if b.rewards == [] {
      WorthWithout(b, u, phase, |b.deposits|);
      assert Amounts(b, u, phase)[..|b.deposits|] == Amounts(b, u, phase);
    } else {
      var n := |b.rewards| - 1;
      var c := b.(rewards := b.rewards[..n]);
      WorthIs(c, u, phase);
      WorthAdds(c, b.rewards[n], u, phase, |b.deposits|);
      assert c.rewards + [b.rewards[n]] == b.rewards;
      assert b == c.(rewards := c.rewards + [b.rewards[n]]);
      assert Nets(b, u, phase)[..n] == Nets(c, u, phase);
      assert Amounts(c, u, phase) == Amounts(b, u, phase);
    }
  }
}
