/** Referral credits over whole runs: a referred user is credited for exactly when they signed up before a deposit of
    theirs was funded and the share of the one funded first is positive. */
module LedgerCredits {
  import opened Ledger
  import opened LedgerRuns

  /** At place `k` of the history is the deposit of the user that was funded first. */
  ghost predicate FirstOf(b: Books, u: User, k: nat) {
    && k < |b.funded| && FirstAt(b, u, b.funded[k], k)
    && b.funded[k].n < |b.deposits| && b.deposits[b.funded[k].n].user == u
  }

  /** The share of the deposit at place `k` of the history. */
  function Share(b: Books, rates: Rates, k: nat): int
    requires k < |b.funded| && b.funded[k].n < |b.deposits|
  {
    b.deposits[b.funded[k].n].amount * rates.referralBp / 10000
  }

  /** If the user is referred, a positive share of the deposit of theirs that was funded first was credited. */
  ghost predicate NotMissed(b: Books, rates: Rates, u: User) {
    forall k: nat :: u in b.referredBy && FirstOf(b, u, k) && Share(b, rates, k) > 0 ==> HasCredit(b, u)
  }

  ghost predicate HasFunded(b: Books, u: User) {
    exists k :: 0 <= k < |b.deposits| && Funded(b.deposits[k]) && b.deposits[k].user == u
  }

  // ---------------------------------------------------------------- steps that fund nothing

  /** The same history, and the same credits of the user. */
  ghost predicate Later(b: Books, c: Books, u: User) {
    && c.funded == b.funded && |b.deposits| <= |c.deposits| && (HasCredit(b, u) <==> HasCredit(c, u))
    && (forall k :: 0 <= k < |b.deposits| ==> SameDeposit(b.deposits[k], c.deposits[k]))
  }

  lemma FirstBefore(b: Books, c: Books, u: User, k: nat)
    requires FundedOk(b) && b.funded <= c.funded && k < |b.funded| && FirstOf(c, u, k)
    requires |b.deposits| <= |c.deposits|
    requires forall k :: 0 <= k < |b.deposits| ==> SameDeposit(b.deposits[k], c.deposits[k])
    ensures FirstOf(b, u, k) && b.deposits[b.funded[k].n].amount == c.deposits[c.funded[k].n].amount && HasFunded(b, u)
  {
    assert SameDeposit(b.deposits[b.funded[k].n], c.deposits[b.funded[k].n]);
    forall j | 0 <= j < k ensures b.funded[j].n < |b.deposits| && b.deposits[b.funded[j].n].user != u {
      assert SameDeposit(b.deposits[b.funded[j].n], c.deposits[b.funded[j].n]) && c.funded[j] == b.funded[j];
    }
  }

  lemma LaterKeeps(b: Books, c: Books, rates: Rates, u: User)
    requires FundedOk(b) && NotMissed(b, rates, u) && Later(b, c, u)
    requires u in c.referredBy ==> u in b.referredBy || !HasFunded(b, u)
    ensures NotMissed(c, rates, u)
  {
    hide FundedOk, HasFunded, HasCredit;
    forall k: nat | u in c.referredBy && FirstOf(c, u, k) && Share(c, rates, k) > 0 ensures HasCredit(c, u) {
      FirstBefore(b, c, u, k);
    }
  }

  lemma FundedStays(b: Books, c: Books, u: User)
    requires Grows(b, c) && HasFunded(b, u)
    ensures HasFunded(c, u)
  {
    var k :| 0 <= k < |b.deposits| && Funded(b.deposits[k]) && b.deposits[k].user == u;
    assert SameDeposit(b.deposits[k], c.deposits[k]);
  }

  // ---------------------------------------------------------------- funding

  /** A deposit funded last is first only if no other deposit of its user is funded. */
  lemma LastIsFirst(b: Books, id: nat)
    requires FundedOk(b) && id < |b.deposits| && |b.funded| > 0 && b.funded[|b.funded| - 1] == DepositId(id)
    requires FirstOf(b, b.deposits[id].user, |b.funded| - 1)
    ensures FirstFunded(b, id)
  {
    var n := |b.funded| - 1;
    forall k | 0 <= k < |b.deposits| && k != id && Funded(b.deposits[k])
      ensures b.deposits[k].user != b.deposits[id].user
    {
      var j :| 0 <= j < |b.funded| && b.funded[j] == DepositId(k);
      assert j < n;
    }
  }

  /** Who has a credit after one deposit was looked at. */
  lemma CreditGiven(b: Books, rates: Rates, id: nat, u: User)
    requires id < |b.deposits|
    ensures var d := b.deposits[id];
            HasCredit(CreditReferral(b, rates, id), u) <==>
            || HasCredit(b, u)
            || (u == d.user && u in b.referredBy && FirstFunded(b, id) && Referral(d.amount, rates) > 0)
  {
    var c := CreditReferral(b, rates, id);
    if c != b { assert c.credits[|b.credits|].referred == b.deposits[id].user; }
    if k :| 0 <= k < |b.credits| && b.credits[k].referred == u { assert c.credits[k].referred == u; }
  }

  function Funding(b: Books, id: nat, x: Utxo): Books
    requires id < |b.deposits|
  {
    var d := b.deposits[id].(phase := Active, txid := x.txid, vout := x.vout, amount := x.amount);
    b.(deposits := b.deposits[id := d], funded := b.funded + [DepositId(id)])
  }

  /** Funding a deposit gives the credit that is due. */
  lemma ActivatedMisses(b: Books, rates: Rates, id: nat, x: Utxo, u: User)
    requires FundedOk(b) && NotMissed(b, rates, u) && id < |b.deposits| && b.deposits[id].phase.Awaiting?
    ensures NotMissed(Activated(b, rates, id, x), rates, u)
  {
    var a, c := Funding(b, id, x), Activated(b, rates, id, x);
    FundedMore(b, id, a.deposits[id]);
    CreditGiven(a, rates, id, u);
    forall k: nat | u in c.referredBy && FirstOf(c, u, k) && Share(c, rates, k) > 0 ensures HasCredit(c, u) {
      if k < |b.funded| {
        FirstBefore(b, c, u, k);
      } else {
        assert FirstOf(a, u, k);
        LastIsFirst(a, id);
      }
    }
  }

  /** Funding another deposit gives no credit. */
  lemma ActivatedSettled(b: Books, rates: Rates, id: nat, x: Utxo, u: User)
    requires id < |b.deposits| && b.deposits[id].phase.Awaiting? && HasFunded(b, u)
    ensures HasCredit(Activated(b, rates, id, x), u) <==> HasCredit(b, u)
    ensures HasFunded(Activated(b, rates, id, x), u)
  {
    var a, c := Funding(b, id, x), Activated(b, rates, id, x);
    CreditGiven(a, rates, id, u);
    var k :| 0 <= k < |b.deposits| && Funded(b.deposits[k]) && b.deposits[k].user == u;
    assert a.deposits[k] == b.deposits[k] == c.deposits[k];
  }

  // ---------------------------------------------------------------- every step

  /** What a step leaves: no credit is missed, and none comes after the first funding. */
  ghost predicate StepOk(b: Books, c: Books, rates: Rates, u: User) {
    && (NotMissed(b, rates, u) ==> NotMissed(c, rates, u))
    && (HasFunded(b, u) ==> HasFunded(c, u) && (HasCredit(c, u) <==> HasCredit(b, u)))
  }

  lemma HistoryOk(b: Books, rates: Rates)
    requires BooksOk(b, rates)
    ensures FundedOk(b) && CreditsOk(b, rates)
  {
  }

  lemma {:induction false} MarkStep(chain: Chain, rates: Rates, b: Books, i: nat, u: User)
    requires BooksOk(b, rates) && i <= |b.deposits|
    ensures StepOk(b, MarkFrom(chain, rates, b, i).books, rates, u)
    decreases |b.deposits| - i
  {
    hide BooksOk, Activated, NotMissed, HasFunded, HasCredit;
    if i < |b.deposits| {
      var d := b.deposits[i];
      if !d.phase.Awaiting? {
        MarkStep(chain, rates, b, i + 1, u);
      } else if chain.listUnspent(d.address).Some? {
        var utxos := chain.listUnspent(d.address).value;
        if utxos == [] {
          MarkStep(chain, rates, b, i + 1, u);
        } else {
          ActivatedStep(b, rates, i, utxos[0], u);
          MarkStep(chain, rates, Activated(b, rates, i, utxos[0]), i + 1, u);
        }
      }
    }
  }

  lemma ActivatedStep(b: Books, rates: Rates, id: nat, x: Utxo, u: User)
    requires BooksOk(b, rates) && id < |b.deposits| && b.deposits[id].phase.Awaiting?
    ensures var c := Activated(b, rates, id, x);
            BooksOk(c, rates) && |c.deposits| == |b.deposits| && StepOk(b, c, rates, u)
  {
    hide BooksOk, Activated, NotMissed, HasFunded, HasCredit;
    HistoryOk(b, rates);
    if NotMissed(b, rates, u) { ActivatedMisses(b, rates, id, x, u); }
    if HasFunded(b, u) { ActivatedSettled(b, rates, id, x, u); }
    ActivatedKeeps(b, rates, id, x);
    ActivatedLength(b, rates, id, x);
  }

  lemma LaterStep(b: Books, c: Books, rates: Rates, u: User)
    requires BooksOk(b, rates) && Later(b, c, u) && Grows(b, c)
    requires u in c.referredBy ==> u in b.referredBy || !HasFunded(b, u)
    ensures StepOk(b, c, rates, u)
  {
    hide BooksOk, NotMissed, HasFunded, HasCredit, Later, Grows;
    HistoryOk(b, rates);
    if NotMissed(b, rates, u) { LaterKeeps(b, c, rates, u); }
    if HasFunded(b, u) { FundedStays(b, c, u); }
    assert HasCredit(c, u) <==> HasCredit(b, u) by { SameCredit(b, c, u); }
  }

  lemma SameCredit(b: Books, c: Books, u: User)
    requires Later(b, c, u)
    ensures HasCredit(c, u) <==> HasCredit(b, u)
  {
  }

  lemma WatchStep(chain: Chain, rates: Rates, b: Books, u: User)
    requires BooksOk(b, rates)
    ensures StepOk(b, Watched(chain, rates, b).books, rates, u)
  {
    hide BooksOk, MarkFrom, AttributeFrom, NotMissed, HasFunded;
    var c := MarkFrom(chain, rates, b, 0).books;
    MarkStep(chain, rates, b, 0, u);
    MarkKeeps(chain, rates, b, 0);
    AttributeKeepsRest(chain, rates, c, 0);
    LaterStep(c, AttributeFrom(chain, rates, c, 0).books, rates, u);
  }

  /** The user does not get a referrer after a deposit of theirs was funded. */
  ghost predicate InTime(b: Books, op: Op, u: User) {
    op.SignUp? && op.user == u && op.referrer.Some? && u !in b.referredBy ==> !HasFunded(b, u)
  }

  lemma SettledCredit(b: Books, u: User, sent: bool, v: User)
    ensures HasCredit(ReferralWithdraws(b, u, sent).books, v) <==> HasCredit(b, v)
  {
    var c := ReferralWithdraws(b, u, sent).books;
    forall k | 0 <= k < |b.credits| ensures c.credits[k].referred == b.credits[k].referred {
    }
  }

  lemma StepMisses(b: Books, rates: Rates, op: Op, u: User)
    requires BooksOk(b, rates)
    ensures var c := Step(b, rates, op);
            && (InTime(b, op, u) && NotMissed(b, rates, u) ==> NotMissed(c, rates, u))
            && (HasFunded(b, u) ==> HasFunded(c, u) && (HasCredit(c, u) <==> HasCredit(b, u)))
  {
    hide BooksOk, Watched, NotMissed, HasFunded;
    var c := Step(b, rates, op);
    if op.Watch? {
      WatchStep(op.chain, rates, b, u);
    } else {
      if op.ReferralWithdraw? { SettledCredit(b, op.user, op.sent, u); }
      HistoryOk(b, rates);
      if HasFunded(b, u) { FundedStays(b, c, u); }
      if InTime(b, op, u) && NotMissed(b, rates, u) { LaterKeeps(b, c, rates, u); }
    }
  }

  // ---------------------------------------------------------------- runs

  ghost predicate AllInTime(b: Books, rates: Rates, ops: seq<Op>, u: User)
    decreases ops
  {
    ops != [] ==> InTime(b, ops[0], u) && AllInTime(Step(b, rates, ops[0]), rates, ops[1..], u)
  }

  /** Once a deposit of a user is funded, whether they are credited for never changes. */
  lemma {:induction false} CreditSettled(b: Books, rates: Rates, ops: seq<Op>, u: User)
    requires BooksOk(b, rates) && HasFunded(b, u)
    ensures HasCredit(Run(b, rates, ops), u) <==> HasCredit(b, u)
    decreases ops
  {
    hide BooksOk, Step, NotMissed, InTime, HasFunded, HasCredit;
    if ops != [] {
      StepKeeps(b, rates, ops[0]);
      StepMisses(b, rates, ops[0], u);
      CreditSettled(Step(b, rates, ops[0]), rates, ops[1..], u);
    }
  }

  lemma CreditIsReferred(b: Books, rates: Rates, u: User)
    requires CreditsOk(b, rates) && HasCredit(b, u)
    ensures u in b.referredBy
  {
    var k :| 0 <= k < |b.credits| && b.credits[k].referred == u;
    assert CreditOk(b, rates, b.credits[k]);
  }

  lemma {:induction false} RunMisses(b: Books, rates: Rates, ops: seq<Op>, u: User)
    requires BooksOk(b, rates) && NotMissed(b, rates, u)
    ensures AllInTime(b, rates, ops, u) ==> NotMissed(Run(b, rates, ops), rates, u)
    ensures !AllInTime(b, rates, ops, u) ==> !HasCredit(Run(b, rates, ops), u)
    decreases ops
  {
    hide BooksOk, Step, NotMissed, HasFunded, HasCredit;
    if ops != [] {
      if InTime(b, ops[0], u) {
        StepKeeps(b, rates, ops[0]);
        StepMisses(b, rates, ops[0], u);
        RunMisses(Step(b, rates, ops[0]), rates, ops[1..], u);
      } else {
        HistoryOk(b, rates);
        if HasCredit(b, u) { CreditIsReferred(b, rates, u); }
        CreditSettled(b, rates, ops, u);
      }
    }
  }

  lemma OnlyOneFirst(b: Books, u: User, i: nat, k: nat)
    requires FirstOf(b, u, i) && FirstOf(b, u, k)
    ensures i == k
  {
  }

  lemma CreditedShare(b: Books, rates: Rates, u: User, k: nat)
    requires CreditsOk(b, rates) && HasCredit(b, u) && FirstOf(b, u, k)
    ensures Share(b, rates, k) > 0
  {
    var c :| 0 <= c < |b.credits| && b.credits[c].referred == u;
    assert CreditOk(b, rates, b.credits[c]);
    var i :| FirstAt(b, u, b.credits[c].deposit, i);
    assert FirstOf(b, u, i);
    OnlyOneFirst(b, u, i, k);
  }

  lemma {:induction false} FirstUpTo(b: Books, u: User, n: nat) returns (k: nat)
    requires FundedOk(b) && n < |b.funded| && b.deposits[b.funded[n].n].user == u
    ensures FirstOf(b, u, k)
  {
    if j :| 0 <= j < n && b.deposits[b.funded[j].n].user == u {
      k := FirstUpTo(b, u, j);
    } else {
      k := n;
    }
  }

  lemma FirstIs(b: Books, u: User) returns (k: nat)
    requires FundedOk(b) && HasFunded(b, u)
    ensures FirstOf(b, u, k)
  {
    var id :| 0 <= id < |b.deposits| && Funded(b.deposits[id]) && b.deposits[id].user == u;
    var n :| 0 <= n < |b.funded| && b.funded[n] == DepositId(id);
    k := FirstUpTo(b, u, n);
  }

  lemma NewBooks(rates: Rates, u: User)
    ensures BooksOk(NEW_BOOKS, rates) && NotMissed(NEW_BOOKS, rates, u)
  {
  }

  /** After every run from empty books, a referred user with a funded deposit is credited for if and only if they did
      not get their referrer after a deposit of theirs was funded and the share of the one funded first is positive. */
  lemma CreditedIff(rates: Rates, ops: seq<Op>, u: User) returns (k: nat)
    requires u in Run(NEW_BOOKS, rates, ops).referredBy && HasFunded(Run(NEW_BOOKS, rates, ops), u)
    ensures var b := Run(NEW_BOOKS, rates, ops);
            && FirstOf(b, u, k)
            && (HasCredit(b, u) <==> AllInTime(NEW_BOOKS, rates, ops, u) && Share(b, rates, k) > 0)
  {
    hide BooksOk, Run, HasFunded, HasCredit, FundedOk;
    var b := Run(NEW_BOOKS, rates, ops);
    NewBooks(rates, u);
    EveryRun(rates, ops);
    HistoryOk(b, rates);
    k := FirstIs(b, u);
    RunMisses(NEW_BOOKS, rates, ops, u);
    if HasCredit(b, u) { CreditedShare(b, rates, u, k); }
  }
}
