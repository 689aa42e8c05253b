/** Whole runs of the ledger: conservation of money, and every credit given once. */
module LedgerRuns {
  import opened Ledger
  import opened Options

  // ---------------------------------------------------------------- the invariant

  ghost predicate RewardOk(b: Books, rates: Rates, r: Reward) {
    && r.fee + r.net == r.gross && r.fee == r.gross * rates.feeBp / 10000
    && r.deposit.n < |b.deposits| && Funded(b.deposits[r.deposit.n])
  }

  /** Every reward splits into fee and net and belongs to a funded deposit; no coinstake is credited twice. */
  ghost predicate RewardsOk(b: Books, rates: Rates) {
    && (forall k :: 0 <= k < |b.rewards| ==> RewardOk(b, rates, b.rewards[k]))
    && (forall i, j :: 0 <= i < j < |b.rewards| ==> b.rewards[i].txid != b.rewards[j].txid)
  }

  /** The history has every funded deposit once. */
  ghost predicate FundedOk(b: Books) {
    && (forall k :: 0 <= k < |b.funded| ==> b.funded[k].n < |b.deposits| && Funded(b.deposits[b.funded[k].n]))
    && (forall id :: 0 <= id < |b.deposits| && Funded(b.deposits[id]) ==> DepositId(id) in b.funded)
    && (forall i, j :: 0 <= i < j < |b.funded| ==> b.funded[i] != b.funded[j])
  }

  /** At place `k` of the history a deposit of the user was funded for the first time. */
  ghost predicate FirstAt(b: Books, u: User, id: DepositId, k: nat) {
    && k < |b.funded| && b.funded[k] == id
    && forall j :: 0 <= j < k ==> b.funded[j].n < |b.deposits| && b.deposits[b.funded[j].n].user != u
  }

  ghost predicate CreditOk(b: Books, rates: Rates, c: Credit) {
    && c.deposit.n < |b.deposits| && Funded(b.deposits[c.deposit.n])
    && c.amount == b.deposits[c.deposit.n].amount * rates.referralBp / 10000 > 0
    && b.deposits[c.deposit.n].user == c.referred && (exists k :: FirstAt(b, c.referred, c.deposit, k))
    && c.referred in b.referredBy && b.referredBy[c.referred] == c.referrer
  }

  /** Every credit is the positive share of the first funded deposit of a referred user; no user is credited
      for twice. */
  ghost predicate CreditsOk(b: Books, rates: Rates) {
    && (forall k :: 0 <= k < |b.credits| ==> CreditOk(b, rates, b.credits[k]))
    && (forall i, j :: 0 <= i < j < |b.credits| ==> b.credits[i].referred != b.credits[j].referred)
  }

  /** Nobody was paid more than their withdrawn deposits and the net rewards of these were worth. */
  ghost predicate PaidOk(b: Books) {
    forall u :: Paid(b.paid, u) <= Worth(b, u, Withdrawn, |b.deposits|)
  }

  /** Referrers were paid exactly their withdrawn credits. */
  ghost predicate ReferralPaidOk(b: Books) {
    forall u :: Paid(b.referralPaid, u) == CreditSum(b.credits, u, true)
  }

  ghost predicate BooksOk(b: Books, rates: Rates) {
    RewardsOk(b, rates) && CreditsOk(b, rates) && FundedOk(b) && PaidOk(b) && ReferralPaidOk(b)
  }

  // ---------------------------------------------------------------- what a deposit is worth

  /** Worth depends only on the deposits in the phase and their net rewards. */
  lemma {:induction false} WorthSame(b: Books, c: Books, u: User, phase: Phase, n: nat)
    requires n <= |b.deposits| && n <= |c.deposits|
    requires forall k :: 0 <= k < n ==>
               && (b.deposits[k].user == u && b.deposits[k].phase == phase <==>
                   c.deposits[k].user == u && c.deposits[k].phase == phase)
               && (b.deposits[k].user == u && b.deposits[k].phase == phase ==>
                     b.deposits[k].amount == c.deposits[k].amount && NetOf(b.rewards, k) == NetOf(c.rewards, k))
    ensures Worth(b, u, phase, n) == Worth(c, u, phase, n)
  {
    if n > 0 { WorthSame(b, c, u, phase, n - 1); }
  }

  /** A reward adds its net amount to what its deposit is worth. */
  lemma {:induction false} WorthAdds(b: Books, r: Reward, u: User, phase: Phase, n: nat)
    requires n <= |b.deposits|
    ensures Worth(b.(rewards := b.rewards + [r]), u, phase, n) ==
            Worth(b, u, phase, n) + if r.deposit.n < n && Counts(b, u, phase, r.deposit.n) then r.net else 0
  {
    if n > 0 {
      WorthAdds(b, r, u, phase, n - 1);
      assert (b.rewards + [r])[..|b.rewards|] == b.rewards;
      assert r.deposit == DepositId(n - 1) <==> r.deposit.n == n - 1;
    }
  }

  predicate Counts(b: Books, u: User, phase: Phase, id: nat) {
    id < |b.deposits| && b.deposits[id].user == u && b.deposits[id].phase == phase
  }

  lemma {:induction false} WorthBare(b: Books, u: User, phase: Phase, n: nat)
    requires 0 < n <= |b.deposits| && b.rewards == []
    ensures Worth(b, u, phase, n) == Worth(b, u, phase, n - 1) + if Counts(b, u, phase, n - 1)
            then b.deposits[n - 1].amount else 0
  {
  }

  lemma NetOther(rewards: seq<Reward>, r: Reward, id: nat)
    requires r.deposit != DepositId(id)
    ensures NetOf(rewards + [r], id) == NetOf(rewards, id)
  {
    assert (rewards + [r])[..|rewards|] == rewards;
  }

  lemma PaidNext(ps: seq<Payout>, p: Payout, u: User)
    ensures Paid(ps + [p], u) == Paid(ps, u) + if p.user == u then p.amount else 0
  {
    assert (ps + [p])[..|ps|] == ps;
  }

  /** Closing a user's deposits moves their worth from active to withdrawn, and touches no one else's. */
  lemma {:induction false} ClosedWorth(b: Books, u: User, v: User, n: nat)
    requires n <= |b.deposits|
    ensures Worth(Closed(b, u), v, Withdrawn, n) == Worth(b, v, Withdrawn, n) + if u == v then Worth(b, v, Active, n)
            else 0
  {
    if n > 0 { ClosedWorth(b, u, v, n - 1); }
  }

  lemma {:induction false} ClosedLeavesNone(b: Books, u: User, n: nat)
    requires n <= |b.deposits|
    ensures Worth(Closed(b, u), u, Active, n) == 0
  {
    if n > 0 { ClosedLeavesNone(b, u, n - 1); }
  }

  /** After an accepted withdrawal nothing more is due. What was paid and what is due make up the same sum as
      before exactly when all that was due was asked for: the rest of a smaller withdrawal is forfeited. */
  lemma WithdrawSettles(b: Books, u: User, amount: int, sent: bool)
    requires Withdraws(b, u, amount, sent).ok
    ensures var c := Withdraws(b, u, amount, sent).books;
            var due := Worth(b, u, Active, |b.deposits|);
            && Worth(c, u, Active, |c.deposits|) == 0
            && Paid(c.paid, u) == Paid(b.paid, u) + amount
            && (Paid(c.paid, u) + Worth(c, u, Active, |c.deposits|) == Paid(b.paid, u) + due <==> amount == due)
  {
    var c := Withdraws(b, u, amount, sent).books;
    PaidNext(b.paid, Payout(u, amount), u);
    ClosedLeavesNone(b, u, |b.deposits|);
    WorthSame(Closed(b, u), c, u, Active, |b.deposits|);
  }

  /** When money is paid out: at most what is due and something, or all credits that are due. */
  lemma PaidOutIff(b: Books, u: User, amount: int, sent: bool)
    ensures Withdraws(b, u, amount, sent).ok <==> sent && 0 < amount <= Worth(b, u, Active, |b.deposits|)
    ensures ReferralWithdraws(b, u, sent).ok <==> sent && CreditSum(b.credits, u, false) > 0
    ensures ReferralWithdraws(b, u, sent).ok ==>
              var c := ReferralWithdraws(b, u, sent).books;
              && CreditSum(c.credits, u, false) == 0
              && Paid(c.referralPaid, u) == Paid(b.referralPaid, u) + CreditSum(b.credits, u, false)
  {
    if ReferralWithdraws(b, u, sent).ok {
      SettledLeavesNone(b.credits, u);
      PaidNext(b.referralPaid, Payout(u, CreditSum(b.credits, u, false)), u);
    }
  }

  lemma {:induction false} SettledLeavesNone(credits: seq<Credit>, u: User)
    ensures CreditSum(Settled(credits, u), u, false) == 0
  {
    if credits != [] {
      var n := |credits| - 1;
      SettledLeavesNone(credits[..n], u);
      assert Settled(credits, u)[..n] == Settled(credits[..n], u);
    }
  }

  // ---------------------------------------------------------------- every step keeps it

  predicate SameDeposit(d: Deposit, e: Deposit) {
    d.user == e.user && (Funded(d) ==> Funded(e) && d.amount == e.amount)
  }

  /** Deposits may be added and funded; what is withdrawn stays, and users stay who they are. */
  ghost predicate Grows(b: Books, c: Books) {
    && |b.deposits| <= |c.deposits| && b.funded <= c.funded
    && (forall k :: 0 <= k < |b.deposits| ==> SameDeposit(b.deposits[k], c.deposits[k]))
    && (forall u :: u in b.referredBy ==> u in c.referredBy && c.referredBy[u] == b.referredBy[u])
  }

  lemma RowsStay(b: Books, c: Books, rates: Rates)
    requires Grows(b, c)
    ensures RewardsOk(b, rates) && c.rewards == b.rewards ==> RewardsOk(c, rates)
    ensures CreditsOk(b, rates) && c.credits == b.credits ==> CreditsOk(c, rates)
  {
    if RewardsOk(b, rates) && c.rewards == b.rewards {
      forall k | 0 <= k < |c.rewards|
        ensures RewardOk(c, rates, c.rewards[k]) { assert RewardOk(b, rates, b.rewards[k]); }
    }
    if CreditsOk(b, rates) && c.credits == b.credits {
      forall k | 0 <= k < |c.credits|
        ensures CreditOk(c, rates, c.credits[k]) { CreditStays(b, c, rates, c.credits[k]); }
    }
  }

  lemma CreditStays(b: Books, c: Books, rates: Rates, credit: Credit)
    requires Grows(b, c) && CreditOk(b, rates, credit)
    ensures CreditOk(c, rates, credit)
  {
    var k :| FirstAt(b, credit.referred, credit.deposit, k);
    assert SameDeposit(b.deposits[credit.deposit.n], c.deposits[credit.deposit.n]);
    forall j | 0 <= j < k ensures c.funded[j].n < |c.deposits| && c.deposits[c.funded[j].n].user != credit.referred {
      assert c.funded[j] == b.funded[j] && SameDeposit(b.deposits[b.funded[j].n], c.deposits[b.funded[j].n]);
    }
    assert FirstAt(c, credit.referred, credit.deposit, k);
  }

  /** The only deposit of a user that was funded was funded first. */
  lemma FirstInHistory(b: Books, id: nat) returns (k: nat)
    requires FundedOk(b) && id < |b.deposits| && Funded(b.deposits[id]) && FirstFunded(b, id)
    ensures FirstAt(b, b.deposits[id].user, DepositId(id), k)
  {
    k :| 0 <= k < |b.funded| && b.funded[k] == DepositId(id);
    forall j | 0 <= j < k
      ensures b.funded[j].n < |b.deposits| && b.deposits[b.funded[j].n].user != b.deposits[id].user {
      assert b.funded[j] == DepositId(b.funded[j].n);
    }
  }

  lemma CreditReferralKeeps(b: Books, rates: Rates, id: nat)
    requires BooksOk(b, rates) && id < |b.deposits| && Funded(b.deposits[id])
    ensures BooksOk(CreditReferral(b, rates, id), rates)
  {
    var c := CreditReferral(b, rates, id);
    if c.credits != b.credits {
      var n := |b.credits|;
      var at := FirstInHistory(b, id);
      assert FirstAt(c, b.deposits[id].user, DepositId(id), at);
      forall k | 0 <= k < n ensures CreditOk(c, rates, c.credits[k]) && c.credits[k].referred != c.credits[n].referred {
        CreditStays(b, c, rates, b.credits[k]);
      }
      RowsStay(b, c, rates);
      forall u ensures Paid(c.paid, u) <= Worth(c, u, Withdrawn, |c.deposits|) {
        WorthSame(b, c, u, Withdrawn, |b.deposits|);
      }
      forall u ensures CreditSum(c.credits, u, true) == CreditSum(b.credits, u, true) {
        assert c.credits[..n] == b.credits;
      }
    }
  }

  lemma FundedMore(b: Books, id: nat, d: Deposit)
    requires FundedOk(b) && id < |b.deposits| && b.deposits[id].phase.Awaiting? && Funded(d)
    ensures FundedOk(b.(deposits := b.deposits[id := d], funded := b.funded + [DepositId(id)]))
  {
    assert DepositId(id) !in b.funded;
  }

  lemma ActivatedKeeps(b: Books, rates: Rates, id: nat, x: Utxo)
    requires BooksOk(b, rates) && id < |b.deposits| && b.deposits[id].phase.Awaiting?
    ensures BooksOk(Activated(b, rates, id, x), rates)
  {
    var d := b.deposits[id].(phase := Active, txid := x.txid, vout := x.vout, amount := x.amount);
    var c := b.(deposits := b.deposits[id := d], funded := b.funded + [DepositId(id)]);
    RowsStay(b, c, rates);
    FundedMore(b, id, d);
    forall u ensures Paid(c.paid, u) <= Worth(c, u, Withdrawn, |c.deposits|) {
      WorthSame(b, c, u, Withdrawn, |b.deposits|);
    }
    CreditReferralKeeps(c, rates, id);
  }

  lemma {:induction false} MarkKeeps(chain: Chain, rates: Rates, b: Books, i: nat)
    requires BooksOk(b, rates) && i <= |b.deposits|
    ensures BooksOk(MarkFrom(chain, rates, b, i).books, rates)
    decreases |b.deposits| - i
  {
    hide BooksOk, Activated;
    if i < |b.deposits| {
      var d := b.deposits[i];
      if !d.phase.Awaiting? {
        MarkKeeps(chain, rates, b, i + 1);
      } else if chain.listUnspent(d.address).Some? {
        var utxos := chain.listUnspent(d.address).value;
        if utxos == [] {
          MarkKeeps(chain, rates, b, i + 1);
        } else {
          ActivatedKeeps(b, rates, i, utxos[0]);
          ActivatedLength(b, rates, i, utxos[0]);
          MarkKeeps(chain, rates, Activated(b, rates, i, utxos[0]), i + 1);
        }
      }
    }
  }

  lemma ActivatedLength(b: Books, rates: Rates, id: nat, x: Utxo)
    requires id < |b.deposits|
    ensures |Activated(b, rates, id, x).deposits| == |b.deposits|
  {
  }

  lemma CreditOneKeeps(chain: Chain, rates: Rates, b: Books, id: nat, txid: TxId)
    requires BooksOk(b, rates) && id < |b.deposits| && b.deposits[id].phase.Active?
    ensures BooksOk(CreditOne(chain, rates, b, id, txid).books, rates)
  {
    var c := CreditOne(chain, rates, b, id, txid).books;
    if c.rewards != b.rewards {
      var n := |b.rewards|;
      forall k | 0 <= k < n ensures RewardOk(c, rates, c.rewards[k]) && c.rewards[k].txid != c.rewards[n].txid {
        assert RewardOk(b, rates, b.rewards[k]);
      }
      RowsStay(b, c, rates);
      forall u ensures Paid(c.paid, u) <= Worth(c, u, Withdrawn, |c.deposits|) {
        forall k | 0 <= k < |b.deposits| && k != id ensures NetOf(c.rewards, k) == NetOf(b.rewards, k) {
          NetOther(b.rewards, c.rewards[n], k);
        }
        WorthSame(b, c, u, Withdrawn, |b.deposits|);
      }
    }
  }

  lemma {:induction false} CreditFromKeeps(chain: Chain, rates: Rates, b: Books, id: nat, txs: seq<TxId>)
    requires BooksOk(b, rates) && id < |b.deposits| && b.deposits[id].phase.Active?
    ensures BooksOk(CreditFrom(chain, rates, b, id, txs).books, rates)
    decreases txs
  {
    hide BooksOk, CreditOne;
    if txs != [] {
      CreditOneKeeps(chain, rates, b, id, txs[0]);
      var r := CreditOne(chain, rates, b, id, txs[0]);
      if r.ok { CreditFromKeeps(chain, rates, r.books, id, txs[1..]); }
    }
  }

  lemma {:induction false} AttributeKeeps(chain: Chain, rates: Rates, b: Books, i: nat)
    requires BooksOk(b, rates) && i <= |b.deposits|
    ensures BooksOk(AttributeFrom(chain, rates, b, i).books, rates)
    decreases |b.deposits| - i
  {
    hide BooksOk, CreditFrom;
    if i < |b.deposits| {
      var d := b.deposits[i];
      if d.phase.Active? && chain.history(DepositId(i)).Some? {
        CreditFromKeeps(chain, rates, b, i, chain.history(DepositId(i)).value);
      }
      var r := AttributeOne(chain, rates, b, i);
      if r.ok { AttributeKeeps(chain, rates, r.books, i + 1); }
    }
  }

  lemma WatchKeeps(chain: Chain, rates: Rates, b: Books)
    requires BooksOk(b, rates)
    ensures BooksOk(Watched(chain, rates, b).books, rates)
  {
    hide BooksOk, MarkFrom, AttributeFrom;
    MarkKeeps(chain, rates, b, 0);
    AttributeKeeps(chain, rates, MarkFrom(chain, rates, b, 0).books, 0);
  }

  lemma WithdrawKeeps(b: Books, rates: Rates, u: User, amount: int, sent: bool)
    requires BooksOk(b, rates)
    ensures BooksOk(Withdraws(b, u, amount, sent).books, rates)
  {
    var c := Withdraws(b, u, amount, sent).books;
    if c != b {
      RowsStay(b, c, rates);
      forall v ensures Paid(c.paid, v) <= Worth(c, v, Withdrawn, |c.deposits|) {
        PaidNext(b.paid, Payout(u, amount), v);
        ClosedWorth(b, u, v, |b.deposits|);
        WorthSame(Closed(b, u), c, v, Withdrawn, |b.deposits|);
      }
    }
  }

  lemma {:induction false} SettledSum(credits: seq<Credit>, u: User, v: User)
    ensures CreditSum(Settled(credits, u), v, true) ==
            CreditSum(credits, v, true) + if u == v then CreditSum(credits, v, false) else 0
  {
    if credits != [] {
      var n := |credits| - 1;
      SettledSum(credits[..n], u, v);
      assert Settled(credits, u)[..n] == Settled(credits[..n], u);
    }
  }

  lemma ReferralWithdrawKeeps(b: Books, rates: Rates, u: User, sent: bool)
    requires BooksOk(b, rates)
    ensures BooksOk(ReferralWithdraws(b, u, sent).books, rates)
  {
    var c := ReferralWithdraws(b, u, sent).books;
    if c != b {
      RowsStay(b, c, rates);
      forall k | 0 <= k < |c.credits|
        ensures CreditOk(c, rates, c.credits[k]) { CreditStays(b, c, rates, b.credits[k]); }
      forall v ensures Paid(c.paid, v) <= Worth(c, v, Withdrawn, |c.deposits|) {
        WorthSame(b, c, v, Withdrawn, |b.deposits|);
      }
      forall v ensures Paid(c.referralPaid, v) == CreditSum(c.credits, v, true) {
        PaidNext(b.referralPaid, Payout(u, CreditSum(b.credits, u, false)), v);
        SettledSum(b.credits, u, v);
      }
    }
  }

  // ---------------------------------------------------------------- runs

  datatype Op =
    | SignUp(user: User, referrer: Option<User>)
    | Create(user: User, address: int)
    | Watch(chain: Chain)
    | Withdraw(user: User, amount: int, sent: bool)
    | ReferralWithdraw(user: User, sent: bool)

  function Step(b: Books, rates: Rates, op: Op): Books {
    match op
    case SignUp(u, referrer) =>
      if referrer.Some? && u !in b.referredBy then b.(referredBy := b.referredBy[u := referrer.value]) else b
    case Create(u, address) => b.(deposits := b.deposits + [Deposit(u, address, Awaiting, TxId(0), 0, 0)])
    case Watch(chain) => Watched(chain, rates, b).books
    case Withdraw(u, amount, sent) => Withdraws(b, u, amount, sent).books
    case ReferralWithdraw(u, sent) => ReferralWithdraws(b, u, sent).books
  }

  /** A user's first sign-up with a referrer names the referrer for good, and a new deposit awaits funds. */
  lemma PlainSteps(b: Books, rates: Rates, u: User, r: User, address: int)
    ensures var c := Step(b, rates, SignUp(u, Some(r)));
            && c == b.(referredBy := c.referredBy) && c.referredBy.Keys == b.referredBy.Keys + {u}
            && (forall v :: v in b.referredBy ==> c.referredBy[v] == b.referredBy[v])
            && (u !in b.referredBy ==> c.referredBy[u] == r)
    ensures Step(b, rates, SignUp(u, None)) == b
    ensures var c := Step(b, rates, Create(u, address));
            && c == b.(deposits := c.deposits) && |c.deposits| == |b.deposits| + 1 && b.deposits <= c.deposits
            && var d := c.deposits[|b.deposits|]; d.user == u && d.address == address && !Funded(d)
  {
    hide Watched, Withdraws, ReferralWithdraws;
    assert Step(b, rates, Create(u, address)).deposits[..|b.deposits|] == b.deposits;
  }

  /** The other steps are a watcher pass and the two kinds of payout. */
  lemma OtherSteps(b: Books, rates: Rates, chain: Chain, u: User, amount: int, sent: bool)
    ensures Step(b, rates, Watch(chain)) == Watched(chain, rates, b).books
    ensures Step(b, rates, Withdraw(u, amount, sent)) == Withdraws(b, u, amount, sent).books
    ensures Step(b, rates, ReferralWithdraw(u, sent)) == ReferralWithdraws(b, u, sent).books
  {
    hide Watched, Withdraws, ReferralWithdraws;
  }

  lemma PlainKeeps(b: Books, rates: Rates, op: Op)
    requires BooksOk(b, rates) && (op.SignUp? || op.Create?)
    ensures BooksOk(Step(b, rates, op), rates)
  {
    var c := Step(b, rates, op);
    RowsStay(b, c, rates);
    forall u ensures Paid(c.paid, u) <= Worth(c, u, Withdrawn, |c.deposits|) {
      WorthSame(b, c, u, Withdrawn, |b.deposits|);
    }
  }

  lemma StepKeeps(b: Books, rates: Rates, op: Op)
    requires BooksOk(b, rates)
    ensures BooksOk(Step(b, rates, op), rates)
  {
    hide BooksOk, Watched, Withdraws, ReferralWithdraws;
    match op {
      case SignUp(_, _) => PlainKeeps(b, rates, op);
      case Create(_, _) => PlainKeeps(b, rates, op);
      case Watch(chain) => WatchKeeps(chain, rates, b);
      case Withdraw(u, amount, sent) => WithdrawKeeps(b, rates, u, amount, sent);
      case ReferralWithdraw(u, sent) => ReferralWithdrawKeeps(b, rates, u, sent);
    }
  }

  function Run(b: Books, rates: Rates, ops: seq<Op>): Books
    decreases ops
  {
    if ops == [] then b else Run(Step(b, rates, ops[0]), rates, ops[1..])
  }

  const NEW_BOOKS := Books([], [], [], map[], [], [], [])

  lemma {:induction false} RunKeeps(b: Books, rates: Rates, ops: seq<Op>)
    requires BooksOk(b, rates)
    ensures BooksOk(Run(b, rates, ops), rates)
    decreases ops
  {
    hide BooksOk, Step;
    if ops != [] {
      StepKeeps(b, rates, ops[0]);
      RunKeeps(Step(b, rates, ops[0]), rates, ops[1..]);
    }
  }

  /** Over every run from empty books nobody is overpaid, fee and net make up the gross, no coinstake and no
      referred user is credited twice, and referrers get exactly their withdrawn credits. */
  lemma EveryRun(rates: Rates, ops: seq<Op>)
    ensures BooksOk(Run(NEW_BOOKS, rates, ops), rates)
  {
    assert BooksOk(NEW_BOOKS, rates);
    RunKeeps(NEW_BOOKS, rates, ops);
  }

  /** A chain that shows one output of 100 for every deposit address and nothing else. */
  function FundingChain(): Chain {
    Chain(true, address => Some([Utxo(TxId(1), 0, 100)]), (t, n) => Unspent, id => None, t => None)
  }

  /** The rest of a partial withdrawal is lost on a run from empty books: of 100 that were funded 1 is paid and
      nothing is left due. */
  lemma ForfeitsRest(rates: Rates, u: User) returns (b: Books)
    ensures b == Run(NEW_BOOKS, rates, [Create(u, 7), Watch(FundingChain())])
    ensures Worth(b, u, Active, |b.deposits|) == 100 && Withdraws(b, u, 1, true).ok
    ensures var c := Withdraws(b, u, 1, true).books;
            Paid(c.paid, u) == 1 && Worth(c, u, Active, |c.deposits|) == 0
  {
    var d := Deposit(u, 7, Active, TxId(1), 0, 100);
    b := NEW_BOOKS.(deposits := [d], funded := [DepositId(0)]);
    var made := Step(NEW_BOOKS, rates, Create(u, 7));
    assert made.deposits == [Deposit(u, 7, Awaiting, TxId(0), 0, 0)];
    FundedOnce(rates, u, made, b);
    RunTwo(NEW_BOOKS, rates, Create(u, 7), Watch(FundingChain()));
    assert Worth(b, u, Active, 1) == 100 by { assert NetOf([], 0) == 0; }
    WithdrawSettles(b, u, 1, true);
  }

  lemma RunTwo(b: Books, rates: Rates, first: Op, second: Op)
    ensures Run(b, rates, [first, second]) == Step(Step(b, rates, first), rates, second)
  {
    hide Step;
    var x := Step(b, rates, first);
    assert [first, second][1..] == [second] && [second][1..] == [];
    assert Run(x, rates, [second]) == Run(Step(x, rates, second), rates, []);
  }

  lemma FundedOnce(rates: Rates, u: User, made: Books, b: Books)
    requires made == NEW_BOOKS.(deposits := [Deposit(u, 7, Awaiting, TxId(0), 0, 0)])
    requires b == NEW_BOOKS.(deposits := [Deposit(u, 7, Active, TxId(1), 0, 100)], funded := [DepositId(0)])
    ensures Watched(FundingChain(), rates, made) == Outcome(b, true)
  {
    var chain := FundingChain();
    assert Activated(made, rates, 0, Utxo(TxId(1), 0, 100)) == b;
    assert MarkFrom(chain, rates, b, 1) == Outcome(b, true);
    assert MarkFrom(chain, rates, made, 0) == Outcome(b, true);
    assert AttributeOne(chain, rates, b, 0) == Outcome(b, true);
    assert AttributeFrom(chain, rates, b, 1) == Outcome(b, true);
  }
}
