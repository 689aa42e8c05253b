/** The ledger as an object: tables updated row by row. */
module Gateway {
  import opened Ledger
  import opened LedgerRuns
  import opened Options

  class Gateway {
    const rates: Rates
    var deposits: seq<Deposit>
    var rewards: seq<Reward>
    var credits: seq<Credit>
    var referredBy: map<User, User>
    var paid: seq<Payout>
    var referralPaid: seq<Payout>
    ghost var funded: seq<DepositId>

    ghost function View(): Books
      reads this
    {
      Books(deposits, rewards, credits, referredBy, paid, referralPaid, funded)
    }

    constructor (rates: Rates)
      ensures this.rates == rates && View() == NEW_BOOKS
    {
      this.rates := rates;
      deposits, rewards, credits, referredBy, paid, referralPaid := [], [], [], map[], [], [];
      funded := [];
    }

    method CreditReferralIfEligible(id: nat)
      requires id < |deposits|
      modifies this`credits
      ensures View() == CreditReferral(old(View()), rates, id)
    {
      var user := deposits[id].user;
      if user !in referredBy {
        return;
      }
      if exists k :: 0 <= k < |credits| && credits[k].referred == user {
        return;
      }
      if exists k :: 0 <= k < |deposits| && k != id && Funded(deposits[k]) && deposits[k].user == user {
        return;
      }
      var reward := Referral(deposits[id].amount, rates);
      if reward <= 0 {
        return;
      }
      credits := credits + [Credit(referredBy[user], user, DepositId(id), reward, false)];
    }

    /** Marks every deposit that has received funds; stops where the node fails to answer. */
    method MarkFundedDeposits(chain: Chain) returns (ok: bool)
      modifies this`deposits, this`credits, this`funded
      ensures Outcome(View(), ok) == MarkFrom(chain, rates, old(View()), 0)
    {
      var i := 0;
      while i < |deposits|
        invariant 0 <= i <= |deposits| == |old(deposits)|
        invariant MarkFrom(chain, rates, View(), i) == MarkFrom(chain, rates, old(View()), 0)
      {
        var d := deposits[i];
        if d.phase.Awaiting? {
          var utxos := chain.listUnspent(d.address);
          if utxos.None? {
            return false;
          }
          if utxos.value != [] {
            ghost var was := View();
            var u := utxos.value[0];
            deposits := deposits[i := d.(phase := Active, txid := u.txid, vout := u.vout, amount := u.amount)];
            funded := funded + [DepositId(i)];
            CreditReferralIfEligible(i);
            assert View() == Activated(was, rates, i, u);
          }
        }
        i := i + 1;
      }
      ok := true;
    }

    /** The value of the inputs of a transaction, if all can be looked up. */
    method SumInputs(chain: Chain, vin: seq<Vin>) returns (r: Option<int>)
      ensures r == InTotal(chain, vin)
    {
      var sum := 0;
      var i := 0;
      while i < |vin|
        invariant 0 <= i <= |vin| && InTotal(chain, vin[..i]) == Some(sum)
      {
        assert vin[..i + 1][..i] == vin[..i];
        var v := InValue(chain, vin[i]);
        if v.None? {
          FailsWhole(chain, vin, i + 1);
          return None;
        }
        sum := sum + v.value;
        i := i + 1;
      }
      assert vin[..|vin|] == vin;
      r := Some(sum);
    }

    /** Credits the coinstakes of one deposit that are not credited yet. */
    method CreditHistory(chain: Chain, id: nat, txs: seq<TxId>) returns (ok: bool)
      requires id < |deposits|
      modifies this`rewards
      ensures Outcome(View(), ok) == CreditFrom(chain, rates, old(View()), id, txs)
    {
      var i := 0;
      while i < |txs|
        invariant 0 <= i <= |txs|
        invariant CreditFrom(chain, rates, View(), id, txs[i..]) == CreditFrom(chain, rates, old(View()), id, txs)
      {
        ghost var was := View();
        var txid := txs[i];
        assert txs[i..][0] == txid && txs[i..][1..] == txs[i + 1..];
        if !exists k :: 0 <= k < |rewards| && rewards[k].txid == txid {
          var tx := chain.getTx(txid);
          if tx.Some? && IsCoinstake(tx.value) && Spends(tx.value, deposits[id]) {
            var inTotal := SumInputs(chain, tx.value.vin);
            if inTotal.None? {
              return false;
            }
            rewards := rewards + [RewardOf(rates, id, txid, OutTotal(tx.value.vout) - inTotal.value)];
          }
        }
        assert Outcome(View(), true) == CreditOne(chain, rates, was, id, txid);
        i := i + 1;
      }
      ok := true;
    }

    method AttributeRewards(chain: Chain) returns (ok: bool)
      modifies this`rewards
      ensures Outcome(View(), ok) == AttributeFrom(chain, rates, old(View()), 0)
    {
      var i := 0;
      while i < |deposits|
        invariant 0 <= i <= |deposits|
        invariant AttributeFrom(chain, rates, View(), i) == AttributeFrom(chain, rates, old(View()), 0)
      {
        var d := deposits[i];
        if d.phase.Active? && chain.getTxOut(d.txid, d.vout).Spent? {
          var history := chain.history(DepositId(i));
          if history.None? {
            return false;
          }
          var done := CreditHistory(chain, i, history.value);
          if !done {
            return false;
          }
        }
        i := i + 1;
      }
      ok := true;
    }

    method RunWatcherPass(chain: Chain) returns (ok: bool)
      modifies this`deposits, this`credits, this`rewards, this`funded
      ensures Outcome(View(), ok) == Watched(chain, rates, old(View()))
    {
      if !chain.walletOk {
        return false;
      }
      ok := MarkFundedDeposits(chain);
      if ok {
        ok := AttributeRewards(chain);
      }
    }

    /** What a user has delegated and earned in deposits that are still active. */
    method StatusForUser(u: User) returns (delegated: int, earned: int)
      ensures delegated == Worth(View().(rewards := []), u, Active, |deposits|)
      ensures delegated + earned == Worth(View(), u, Active, |deposits|)
    {
      ghost var b := View();
      delegated := 0;
      var i := 0;
      while i < |deposits|
        invariant 0 <= i <= |deposits| && delegated == Worth(b.(rewards := []), u, Active, i)
      {
        WorthBare(b.(rewards := []), u, Active, i + 1);
        if deposits[i].user == u && deposits[i].phase.Active? {
          delegated := delegated + deposits[i].amount;
        }
        i := i + 1;
      }
      earned := 0;
      i := 0;
      assert rewards[..0] == [];
      while i < |rewards|
        invariant 0 <= i <= |rewards| && delegated + earned == Worth(b.(rewards := rewards[..i]), u, Active, |deposits|)
      {
        WorthAdds(b.(rewards := rewards[..i]), rewards[i], u, Active, |deposits|);
        assert rewards[..i + 1] == rewards[..i] + [rewards[i]];
        var id := rewards[i].deposit.n;
        if id < |deposits| && deposits[id].user == u && deposits[id].phase.Active? {
          earned := earned + rewards[i].net;
        }
        i := i + 1;
      }
      assert rewards[..|rewards|] == rewards;
      assert b.(rewards := rewards) == b;
    }

    /** Pays a user and closes all active deposits; `sent` says whether the wallet could send. */
    method Withdraw(u: User, amount: int, sent: bool) returns (ok: bool)
      modifies this`deposits, this`paid
      ensures Outcome(View(), ok) == Withdraws(old(View()), u, amount, sent)
    {
      var delegated, earned := StatusForUser(u);
      if amount > delegated + earned {
        return false;
      }
      if !sent || amount <= 0 {
        return false;
      }
      paid := paid + [Payout(u, amount)];
      ghost var was := deposits;
      var i := 0;
      while i < |deposits|
        invariant 0 <= i <= |deposits| == |was| && paid == old(paid) + [Payout(u, amount)]
        invariant forall k :: 0 <= k < i ==>
                    deposits[k] == if was[k].user == u && was[k].phase.Active? then was[k].(phase := Withdrawn)
                        else was[k]
        invariant forall k :: i <= k < |was| ==> deposits[k] == was[k]
      {
        if deposits[i].user == u && deposits[i].phase.Active? {
          deposits := deposits[i := deposits[i].(phase := Withdrawn)];
        }
        i := i + 1;
      }
      assert deposits == Closed(old(View()), u).deposits;
      ok := true;
    }

    /** Pays a referrer all credits that are due. */
    method ReferralWithdraw(u: User, sent: bool) returns (ok: bool)
      modifies this`credits, this`referralPaid
      ensures Outcome(View(), ok) == ReferralWithdraws(old(View()), u, sent)
    {
      var amount := 0;
      var i := 0;
      while i < |credits|
        invariant 0 <= i <= |credits| && View() == old(View()) && amount == CreditSum(credits[..i], u, false)
      {
        assert credits[..i + 1][..i] == credits[..i];
        if credits[i].referrer == u && !credits[i].withdrawn {
          amount := amount + credits[i].amount;
        }
        i := i + 1;
      }
      assert credits[..|credits|] == credits;
      if amount <= 0 || !sent {
        return false;
      }
      referralPaid := referralPaid + [Payout(u, amount)];
      ghost var was := credits;
      i := 0;
      while i < |credits|
        invariant 0 <= i <= |credits| == |was| && referralPaid == old(referralPaid) + [Payout(u, amount)]
        invariant forall k :: 0 <= k < i ==>
                    credits[k] == if was[k].referrer == u then was[k].(withdrawn := true) else was[k]
        invariant forall k :: i <= k < |was| ==> credits[k] == was[k]
      {
        if credits[i].referrer == u && !credits[i].withdrawn {
          credits := credits[i := credits[i].(withdrawn := true)];
        }
        i := i + 1;
      }
      assert credits == Settled(was, u);
      ok := true;
    }

    /** Performs one operation of a run. */
    method Perform(op: Op)
      modifies this
      ensures View() == Step(old(View()), rates, op)
    {
      hide Watched, Withdraws, ReferralWithdraws;
      match op
      case SignUp(u, referrer) =>
        if referrer.Some? && u !in referredBy {
          referredBy := referredBy[u := referrer.value];
        }
      case Create(u, address) =>
        deposits := deposits + [Deposit(u, address, Awaiting, TxId(0), 0, 0)];
      case Watch(chain) =>
        var _ := RunWatcherPass(chain);
      case Withdraw(u, amount, sent) =>
        var _ := Withdraw(u, amount, sent);
      case ReferralWithdraw(u, sent) =>
        var _ := ReferralWithdraw(u, sent);
    }
  }

  /** Whatever is asked of a new gateway, its books are right. */
  method PerformAll(rates: Rates, ops: seq<Op>) returns (g: Gateway)
    ensures fresh(g) && g.rates == rates && g.View() == Run(NEW_BOOKS, rates, ops) && BooksOk(g.View(), rates)
  {
    hide Step, BooksOk;
    g := new Gateway(rates);
    assert ops[0..] == ops;
    var n := 0;
    while n < |ops|
      invariant 0 <= n <= |ops| && g.rates == rates && fresh(g)
      invariant Run(g.View(), rates, ops[n..]) == Run(NEW_BOOKS, rates, ops)
    {
      assert ops[n..][0] == ops[n] && ops[n..][1..] == ops[n + 1..];
      g.Perform(ops[n]);
      n := n + 1;
    }
    EveryRun(rates, ops);
  }

  /** One input that cannot be looked up fails the whole sum. */
  lemma {:induction false} FailsWhole(chain: Chain, vin: seq<Vin>, n: nat)
    requires n <= |vin| && InTotal(chain, vin[..n]).None?
    ensures InTotal(chain, vin).None?
    decreases |vin|
  {
    if n == |vin| {
      assert vin[..n] == vin;
    } else {
      var m := |vin| - 1;
      assert vin[..m][..n] == vin[..n];
      FailsWhole(chain, vin[..m], n);
    }
  }
}
