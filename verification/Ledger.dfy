/** The custodial staking and referral ledger on values: tables, watcher passes and payouts. */
module Ledger {
  import opened Options

  datatype User = User(id: int)

  datatype TxId = TxId(hash: int)

  datatype DepositId = DepositId(n: nat)

  datatype Phase = Awaiting | Active | Withdrawn

  datatype Deposit = Deposit(user: User, address: int, phase: Phase, txid: TxId, vout: nat, amount: int)

  datatype Reward = Reward(deposit: DepositId, txid: TxId, gross: int, fee: int, net: int)

  datatype Credit = Credit(referrer: User, referred: User, deposit: DepositId, amount: int, withdrawn: bool)

  datatype Payout = Payout(user: User, amount: int)

  /** The rates, in basis points. */
  datatype Rates = Rates(feeBp: int, referralBp: int)

  /** The tables, and the history of what was paid out of the pool and out of the referral fund, and of the
      order in which deposits were funded. */
  datatype Books = Books(
    deposits: seq<Deposit>, rewards: seq<Reward>, credits: seq<Credit>, referredBy: map<User, User>,
    paid: seq<Payout>, referralPaid: seq<Payout>, funded: seq<DepositId>)

  // ---------------------------------------------------------------- the chain as the node shows it

  datatype Utxo = Utxo(txid: TxId, vout: nat, amount: int)

  datatype Vin = Vin(coinbase: bool, txid: TxId, vout: nat)

  datatype Vout = Vout(value: int, emptyScript: bool)

  datatype RawTx = RawTx(vin: seq<Vin>, vout: seq<Vout>)

  datatype Spentness = Unspent | Spent | Unknown

  /** The answers of the node while the chain stays as it is; no value stands for an error. */
  datatype Chain = Chain(
    walletOk: bool, listUnspent: int -> Option<seq<Utxo>>, getTxOut: (TxId, nat) -> Spentness,
    history: DepositId -> Option<seq<TxId>>, getTx: TxId -> Option<RawTx>)

  predicate IsCoinstake(tx: RawTx) {
    |tx.vin| > 0 && !tx.vin[0].coinbase && |tx.vout| >= 2 && tx.vout[0].value == 0 && tx.vout[0].emptyScript
  }

  predicate Spends(tx: RawTx, d: Deposit) {
    exists k :: 0 <= k < |tx.vin| && !tx.vin[k].coinbase && tx.vin[k].txid == d.txid && tx.vin[k].vout == d.vout
  }

  function OutTotal(vout: seq<Vout>): int {
    if vout == [] then 0 else OutTotal(vout[..|vout| - 1]) + vout[|vout| - 1].value
  }

  /** The value of the inputs; fails if one of them cannot be looked up. */
  function InTotal(chain: Chain, vin: seq<Vin>): Option<int> {
    if vin == [] then Some(0)
    else
      var n := |vin| - 1;
      match InTotal(chain, vin[..n])
      case None => None
      case Some(sum) =>
        match InValue(chain, vin[n])
        case None => None
        case Some(v) => Some(sum + v)
  }

  function InValue(chain: Chain, v: Vin): Option<int> {
    if v.coinbase then None
    else
      match chain.getTx(v.txid)
      case None => None
      case Some(tx) => if v.vout < |tx.vout| then Some(tx.vout[v.vout].value) else None
  }

  // ---------------------------------------------------------------- referral credits

  predicate Funded(d: Deposit) {
    !d.phase.Awaiting?
  }

  /** Whether this is the only deposit of its user that was ever funded. */
  predicate FirstFunded(b: Books, id: nat)
    requires id < |b.deposits|
  {
    forall k :: 0 <= k < |b.deposits| && k != id && Funded(b.deposits[k]) ==> b.deposits[k].user != b.deposits[id].user
  }

  predicate HasCredit(b: Books, u: User) {
    exists k :: 0 <= k < |b.credits| && b.credits[k].referred == u
  }

  function Referral(amount: int, rates: Rates): int {
    amount * rates.referralBp / 10000
  }

  /** Credits the referrer of the depositor, once, for the first funded deposit. */
  function CreditReferral(b: Books, rates: Rates, id: nat): Books
    requires id < |b.deposits|
  {
    var d := b.deposits[id];
    if d.user !in b.referredBy || HasCredit(b, d.user) || !FirstFunded(b, id) || Referral(d.amount, rates) <= 0 then b
    else b.(credits := b.credits + [Credit(b.referredBy[d.user], d.user, DepositId(id), Referral(d.amount, rates),
                                           false)])
  }

  // ---------------------------------------------------------------- the watcher

  /** The books after some work, and whether it ran to its end: an error leaves what was done so far. */
  datatype Outcome = Outcome(books: Books, ok: bool)

  function Activated(b: Books, rates: Rates, id: nat, u: Utxo): Books
    requires id < |b.deposits|
  {
    var d := b.deposits[id].(phase := Active, txid := u.txid, vout := u.vout, amount := u.amount);
    CreditReferral(b.(deposits := b.deposits[id := d], funded := b.funded + [DepositId(id)]), rates, id)
  }

  /** Marks the deposits from `i` on that have received funds. */
  function MarkFrom(chain: Chain, rates: Rates, b: Books, i: nat): (r: Outcome)
    requires i <= |b.deposits|
    ensures |r.books.deposits| == |b.deposits|
    decreases |b.deposits| - i
  {
    if i == |b.deposits| then Outcome(b, true)
    else if !b.deposits[i].phase.Awaiting? then MarkFrom(chain, rates, b, i + 1)
    else
      match chain.listUnspent(b.deposits[i].address)
      case None => Outcome(b, false)
      case Some(utxos) =>
        if utxos == [] then MarkFrom(chain, rates, b, i + 1)
        else MarkFrom(chain, rates, Activated(b, rates, i, utxos[0]), i + 1)
  }

  predicate Rewarded(b: Books, txid: TxId) {
    exists k :: 0 <= k < |b.rewards| && b.rewards[k].txid == txid
  }

  function RewardOf(rates: Rates, id: nat, txid: TxId, gross: int): Reward {
    var fee := gross * rates.feeBp / 10000;
    Reward(DepositId(id), txid, gross, fee, gross - fee)
  }

  /** Looks at one transaction of a deposit's history, and credits it if it is a coinstake of its funds. */
  function CreditOne(chain: Chain, rates: Rates, b: Books, id: nat, txid: TxId): (r: Outcome)
    requires id < |b.deposits|
    ensures r.books.deposits == b.deposits
  {
    if Rewarded(b, txid) then Outcome(b, true)
    else
      match chain.getTx(txid)
      case None => Outcome(b, true)
      case Some(tx) =>
        if !IsCoinstake(tx) || !Spends(tx, b.deposits[id]) then Outcome(b, true)
        else
          match InTotal(chain, tx.vin)
          case None => Outcome(b, false)
          case Some(inTotal) =>
            Outcome(b.(rewards := b.rewards + [RewardOf(rates, id, txid, OutTotal(tx.vout) - inTotal)]), true)
  }

  function CreditFrom(chain: Chain, rates: Rates, b: Books, id: nat, txs: seq<TxId>): (r: Outcome)
    requires id < |b.deposits|
    ensures r.books.deposits == b.deposits
    decreases txs
  {
    if txs == [] then Outcome(b, true)
    else
      var r := CreditOne(chain, rates, b, id, txs[0]);
      if r.ok then CreditFrom(chain, rates, r.books, id, txs[1..]) else r
  }

  /** Credits what one deposit has earned, once its funds have moved. */
  function AttributeOne(chain: Chain, rates: Rates, b: Books, id: nat): (r: Outcome)
    requires id < |b.deposits|
    ensures r.books.deposits == b.deposits
  {
    var d := b.deposits[id];
    if !d.phase.Active? || !chain.getTxOut(d.txid, d.vout).Spent? then Outcome(b, true)
    else
      match chain.history(DepositId(id))
      case None => Outcome(b, false)
      case Some(txs) => CreditFrom(chain, rates, b, id, txs)
  }

  function AttributeFrom(chain: Chain, rates: Rates, b: Books, i: nat): (r: Outcome)
    requires i <= |b.deposits|
    ensures r.books.deposits == b.deposits
    decreases |b.deposits| - i
  {
    if i == |b.deposits| then Outcome(b, true)
    else
      var r := AttributeOne(chain, rates, b, i);
      if r.ok then AttributeFrom(chain, rates, r.books, i + 1) else r
  }

  /** One pass of the watcher. */
  function Watched(chain: Chain, rates: Rates, b: Books): Outcome {
    if !chain.walletOk then Outcome(b, false)
    else
      var r := MarkFrom(chain, rates, b, 0);
      if r.ok then AttributeFrom(chain, rates, r.books, 0) else r
  }

  // ---------------------------------------------------------------- a second pass

  /** Marking again from where it started does nothing, and stops where it stopped. */
  lemma {:induction false} MarkTwice(chain: Chain, rates: Rates, b: Books, i: nat)
    requires i <= |b.deposits|
    ensures var r := MarkFrom(chain, rates, b, i);
            MarkFrom(chain, rates, r.books, i) == r && forall k :: 0 <= k < i ==> r.books.deposits[k] == b.deposits[k]
    decreases |b.deposits| - i
  {
    if i < |b.deposits| {
      var d := b.deposits[i];
      if !d.phase.Awaiting? {
        MarkTwice(chain, rates, b, i + 1);
      } else if chain.listUnspent(d.address).Some? {
        var utxos := chain.listUnspent(d.address).value;
        MarkTwice(chain, rates, if utxos == [] then b else Activated(b, rates, i, utxos[0]), i + 1);
      }
    }
  }

  /** Crediting has nothing to do at a transaction of a deposit. */
  ghost predicate Handled(chain: Chain, b: Books, id: nat, txid: TxId)
    requires id < |b.deposits|
  {
    Rewarded(b, txid) || chain.getTx(txid).None? || !IsCoinstake(chain.getTx(txid).value)
    || !Spends(chain.getTx(txid).value, b.deposits[id])
  }

  lemma HandledSkips(chain: Chain, rates: Rates, b: Books, id: nat, txid: TxId)
    requires id < |b.deposits| && Handled(chain, b, id, txid)
    ensures CreditOne(chain, rates, b, id, txid) == Outcome(b, true)
  {
  }

  /** Later books only have more rewards. */
  predicate Extends(b: Books, c: Books) {
    b.deposits == c.deposits && b.rewards <= c.rewards
  }

  lemma HandledLater(chain: Chain, b: Books, c: Books, id: nat, txid: TxId)
    requires id < |b.deposits| && Extends(b, c) && Handled(chain, b, id, txid)
    ensures Handled(chain, c, id, txid)
  {
    if Rewarded(b, txid) {
      var k :| 0 <= k < |b.rewards| && b.rewards[k].txid == txid;
      assert c.rewards[k].txid == txid;
    }
  }

  lemma CreditHandles(chain: Chain, rates: Rates, b: Books, id: nat, txid: TxId)
    requires id < |b.deposits|
    ensures var r := CreditOne(chain, rates, b, id, txid);
            Extends(b, r.books) && (r.ok ==> Handled(chain, r.books, id, txid)) && (!r.ok ==> r.books == b)
  {
    var r := CreditOne(chain, rates, b, id, txid);
    if |r.books.rewards| > |b.rewards| {
      assert r.books.rewards[|b.rewards|].txid == txid;
    }
  }

  /** Crediting a history again, in any later books that only went further, does nothing more. */
  lemma {:induction false} CreditAgain(chain: Chain, rates: Rates, b: Books, id: nat, txs: seq<TxId>)
    requires id < |b.deposits|
    ensures var r := CreditFrom(chain, rates, b, id, txs);
            && Extends(b, r.books)
            && CreditFrom(chain, rates, r.books, id, txs) == r
            && (r.ok ==> forall c :: Extends(r.books, c) ==> CreditFrom(chain, rates, c, id, txs) == Outcome(c, true))
    decreases txs
  {
    if txs != [] {
      var r1 := CreditOne(chain, rates, b, id, txs[0]);
      CreditHandles(chain, rates, b, id, txs[0]);
      if r1.ok {
        CreditAgain(chain, rates, r1.books, id, txs[1..]);
        var r := CreditFrom(chain, rates, b, id, txs);
        HandledLater(chain, r1.books, r.books, id, txs[0]);
        HandledSkips(chain, rates, r.books, id, txs[0]);
        if r.ok {
          forall c | Extends(r.books, c) ensures CreditFrom(chain, rates, c, id, txs) == Outcome(c, true) {
            HandledLater(chain, r.books, c, id, txs[0]);
            HandledSkips(chain, rates, c, id, txs[0]);
          }
        }
      }
    }
  }

  lemma AttributeOneAgain(chain: Chain, rates: Rates, b: Books, id: nat)
    requires id < |b.deposits|
    ensures var r := AttributeOne(chain, rates, b, id);
            && Extends(b, r.books)
            && AttributeOne(chain, rates, r.books, id) == r
            && (r.ok ==> forall c :: Extends(r.books, c) ==> AttributeOne(chain, rates, c, id) == Outcome(c, true))
  {
    if chain.history(DepositId(id)).Some? {
      CreditAgain(chain, rates, b, id, chain.history(DepositId(id)).value);
    }
  }

  lemma {:induction false} AttributeTwice(chain: Chain, rates: Rates, b: Books, i: nat)
    requires i <= |b.deposits|
    ensures var r := AttributeFrom(chain, rates, b, i);
            Extends(b, r.books) && AttributeFrom(chain, rates, r.books, i) == r
    decreases |b.deposits| - i
  {
    hide AttributeOne;
    if i < |b.deposits| {
      AttributeOneAgain(chain, rates, b, i);
      var r1 := AttributeOne(chain, rates, b, i);
      if r1.ok { AttributeTwice(chain, rates, r1.books, i + 1); }
    }
  }

  /** Marking only looks at the deposits: it repeats itself on books that differ in the rewards. */
  lemma {:induction false} MarkIgnoresRewards(chain: Chain, rates: Rates, b: Books, i: nat, rewards: seq<Reward>)
    requires i <= |b.deposits| && MarkFrom(chain, rates, b, i) == Outcome(b, true)
    ensures MarkFrom(chain, rates, b.(rewards := rewards), i) == Outcome(b.(rewards := rewards), true)
    decreases |b.deposits| - i
  {
    if i < |b.deposits| {
      NoneActivated(chain, rates, b, i);
      MarkIgnoresRewards(chain, rates, b, i + 1, rewards);
    }
  }

  /** Where marking changes nothing it activates nothing. */
  lemma NoneActivated(chain: Chain, rates: Rates, b: Books, i: nat)
    requires i < |b.deposits| && MarkFrom(chain, rates, b, i) == Outcome(b, true)
    ensures b.deposits[i].phase.Awaiting? ==> chain.listUnspent(b.deposits[i].address) == Some([])
    ensures MarkFrom(chain, rates, b, i + 1) == Outcome(b, true)
  {
    var d := b.deposits[i];
    if d.phase.Awaiting? && chain.listUnspent(d.address).Some? && chain.listUnspent(d.address).value != [] {
      MarkTwice(chain, rates, Activated(b, rates, i, chain.listUnspent(d.address).value[0]), i + 1);
      assert false;
    }
  }

  lemma {:induction false} AttributeKeepsRest(chain: Chain, rates: Rates, b: Books, i: nat)
    requires i <= |b.deposits|
    ensures var r := AttributeFrom(chain, rates, b, i).books;
            r == b.(rewards := r.rewards)
    decreases |b.deposits| - i
  {
    hide AttributeOne;
    if i < |b.deposits| {
      AttributeOneRest(chain, rates, b, i);
      var r1 := AttributeOne(chain, rates, b, i);
      if r1.ok { AttributeKeepsRest(chain, rates, r1.books, i + 1); }
    }
  }

  lemma AttributeOneRest(chain: Chain, rates: Rates, b: Books, id: nat)
    requires id < |b.deposits|
    ensures var r := AttributeOne(chain, rates, b, id).books;
            r == b.(rewards := r.rewards)
  {
    if chain.history(DepositId(id)).Some? { CreditRest(chain, rates, b, id, chain.history(DepositId(id)).value); }
  }

  lemma {:induction false} CreditRest(chain: Chain, rates: Rates, b: Books, id: nat, txs: seq<TxId>)
    requires id < |b.deposits|
    ensures var r := CreditFrom(chain, rates, b, id, txs).books;
            r == b.(rewards := r.rewards)
    decreases txs
  {
    if txs != [] { CreditRest(chain, rates, CreditOne(chain, rates, b, id, txs[0]).books, id, txs[1..]); }
  }

  /** A second pass on an unchanged chain changes nothing, even after a pass that broke off. */
  lemma WatchTwice(chain: Chain, rates: Rates, b: Books)
    ensures var r := Watched(chain, rates, b);
            Watched(chain, rates, r.books) == r
  {
    hide MarkFrom, AttributeFrom;
    MarkTwice(chain, rates, b, 0);
    var r1 := MarkFrom(chain, rates, b, 0);
    if chain.walletOk && r1.ok {
      var r := AttributeFrom(chain, rates, r1.books, 0);
      AttributeTwice(chain, rates, r1.books, 0);
      AttributeKeepsRest(chain, rates, r1.books, 0);
      MarkIgnoresRewards(chain, rates, r1.books, 0, r.books.rewards);
    }
  }

  // ---------------------------------------------------------------- payouts

  /** The net rewards of a deposit. */
  function NetOf(rewards: seq<Reward>, id: nat): int {
    if rewards == [] then 0
    else
      var n := |rewards| - 1;
      NetOf(rewards[..n], id) + if rewards[n].deposit == DepositId(id) then rewards[n].net else 0
  }

  /** Principal and net rewards of a user's first `n` deposits that are in a phase. */
  function Worth(b: Books, u: User, phase: Phase, n: nat): int
    requires n <= |b.deposits|
  {
    if n == 0 then 0
    else
      var d := b.deposits[n - 1];
      Worth(b, u, phase, n - 1) + if d.user == u && d.phase == phase then d.amount + NetOf(b.rewards, n - 1) else 0
  }

  function Paid(ps: seq<Payout>, u: User): int {
    if ps == [] then 0
    else
      var n := |ps| - 1;
      Paid(ps[..n], u) + if ps[n].user == u then ps[n].amount else 0
  }

  function Closed(b: Books, u: User): Books {
    b.(deposits := seq(|b.deposits|, k requires 0 <= k < |b.deposits| =>
                     if b.deposits[k].user == u && b.deposits[k].phase.Active? then b.deposits[k].(phase := Withdrawn)
                     else b.deposits[k]))
  }

  /** A withdrawal pays at most what the active deposits are worth and closes all of them; a refused one
      changes nothing. The wallet refuses amounts that are not positive. */
  function Withdraws(b: Books, u: User, amount: int, sent: bool): Outcome {
    if amount > Worth(b, u, Active, |b.deposits|) || !sent || amount <= 0 then Outcome(b, false)
    else Outcome(Closed(b, u).(paid := b.paid + [Payout(u, amount)]), true)
  }

  /** The referral credits of a user that are withdrawn, or not. */
  function CreditSum(credits: seq<Credit>, u: User, withdrawn: bool): int {
    if credits == [] then 0
    else
      var n := |credits| - 1;
      CreditSum(credits[..n], u, withdrawn) +
      if credits[n].referrer == u && credits[n].withdrawn == withdrawn then credits[n].amount else 0
  }

  function Settled(credits: seq<Credit>, u: User): (r: seq<Credit>)
    ensures |r| == |credits|
    ensures forall k :: 0 <= k < |r| ==>
              r[k] == if credits[k].referrer == u then credits[k].(withdrawn := true) else credits[k]
  {
    seq(|credits|, k requires 0 <= k < |credits| =>
      if credits[k].referrer == u then credits[k].(withdrawn := true) else credits[k])
  }

  /** A referral withdrawal pays all credits that are due. */
  function ReferralWithdraws(b: Books, u: User, sent: bool): Outcome {
    var amount := CreditSum(b.credits, u, false);
    if amount <= 0 || !sent then Outcome(b, false)
    else Outcome(b.(credits := Settled(b.credits, u), referralPaid := b.referralPaid + [Payout(u, amount)]), true)
  }
}
