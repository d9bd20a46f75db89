/** Ether accounting after a block: rewards, withdrawals and the EIP-779 balance move. */
module Accounting {
  import opened Words
  import opened Wrappers

  const GWEI_TO_WEI: nat := 1_000_000_000

  type Address = nat

  datatype Ommer = Ommer(number: nat, beneficiary: Address)

  datatype Withdrawal = Withdrawal(address: Address, amount: nat)

  datatype Block = Block(number: nat, beneficiary: Address, ommers: seq<Ommer>, withdrawals: Option<seq<Withdrawal>>)

  datatype AccountState = NotExisting | StorageCleared | Touched | Untouched

  datatype Info = Info(balance: nat, state: AccountState)

  /** How an account's balance was changed. */
  datatype Change = Created(balance: nat) | Changed(now: nat, before: nat)

  /** The cached accounts; a missing one is loaded as not existing. */
  type Db = map<Address, Info>

  /** The accounts to drain and the one that receives their ether. */
  datatype DaoMove = DaoMove(accounts: seq<Address>, beneficiary: Address)

  datatype Payment = Payment(to: Address, amount: nat)

  // ---------------------------------------------------------------- sums

  /** The sum of a map's values, in whatever order they are taken. */
  ghost function Sum(m: map<Address, nat>): nat
    decreases |m.Keys|
  {
    if m == map[] then 0
    else
      var a :| a in m;
      assert (m - {a}).Keys == m.Keys - {a};
      m[a] + Sum(m - {a})
  }

  lemma {:induction false} SumWithout(m: map<Address, nat>, a: Address)
    requires a in m
    ensures Sum(m) == m[a] + Sum(m - {a})
    decreases |m.Keys|
  {
    var b :| b in m && Sum(m) == m[b] + Sum(m - {b});
    if a != b {
      assert (m - {b}).Keys == m.Keys - {b} && (m - {a}).Keys == m.Keys - {a};
      SumWithout(m - {b}, a);
      SumWithout(m - {a}, b);
      assert m - {b} - {a} == m - {a} - {b};
    }
  }

  function At(m: map<Address, nat>, a: Address): nat {
    if a in m then m[a] else 0
  }

  lemma {:induction false} SumUpdate(m: map<Address, nat>, a: Address, v: nat)
    ensures Sum(m[a := v]) == Sum(m) - At(m, a) + v
  {
    SumWithout(m[a := v], a);
    assert m[a := v] - {a} == m - {a};
    if a in m {
      SumWithout(m, a);
    } else {
      assert m - {a} == m;
    }
  }

  lemma {:induction false} NoSum()
    ensures Sum(map[]) == 0
  {
  }

  lemma {:induction false} SumHas(m: map<Address, nat>, a: Address)
    ensures At(m, a) <= Sum(m)
  {
    if a in m {
      SumWithout(m, a);
    }
  }

  // ---------------------------------------------------------------- what a block pays

  /** An ommer is at most eight blocks back, and the 64-bit sum behind that test does not overflow. */
  predicate Near(block: Block, ommer: Ommer) {
    block.number <= 8 + ommer.number < TWO_TO_THE_64
  }

  function OmmerReward(block: Block, ommer: Ommer, reward: nat): nat
    requires Near(block, ommer)
  {
    Eighths(8 + ommer.number - block.number, reward)
  }

  function Eighths(n: nat, reward: nat): nat {
    n * reward / 8
  }

  ghost predicate OmmersNear(block: Block) {
    forall i :: 0 <= i < |block.ommers| ==> Near(block, block.ommers[i])
  }

  ghost function OmmerPayments(block: Block, reward: nat): (ps: seq<Payment>)
    requires OmmersNear(block)
    ensures |ps| == |block.ommers|
  {
    seq(|block.ommers|, i requires 0 <= i < |block.ommers| =>
      Payment(block.ommers[i].beneficiary, OmmerReward(block, block.ommers[i], reward)))
  }

  ghost function WithdrawalPayments(ws: seq<Withdrawal>): (ps: seq<Payment>)
    ensures |ps| == |ws|
  {
    seq(|ws|, i requires 0 <= i < |ws| => Payment(ws[i].address, ws[i].amount * GWEI_TO_WEI))
  }

  ghost function RewardPayments(block: Block, reward: Option<nat>): seq<Payment>
    requires reward.Some? ==> OmmersNear(block)
  {
    if reward.None? then []
    else
      OmmerPayments(block, reward.value)
      + [Payment(block.beneficiary, reward.value + reward.value / 32 * |block.ommers|)]
  }

  /** Everything a block pays out, in the order it is credited. */
  ghost function Payments(block: Block, reward: Option<nat>, shanghai: bool): seq<Payment>
    requires reward.Some? ==> OmmersNear(block)
  {
    RewardPayments(block, reward)
    + if shanghai && block.withdrawals.Some? then WithdrawalPayments(block.withdrawals.value) else []
  }

  ghost function Paid(ps: seq<Payment>): nat {
    if ps == [] then 0 else Paid(ps[..|ps| - 1]) + ps[|ps| - 1].amount
  }

  ghost function PaidTo(ps: seq<Payment>, a: Address): nat {
    if ps == [] then 0
    else PaidTo(ps[..|ps| - 1], a) + if ps[|ps| - 1].to == a then ps[|ps| - 1].amount else 0
  }

  lemma {:induction false} PaidConcat(a: seq<Payment>, b: seq<Payment>)
    ensures Paid(a + b) == Paid(a) + Paid(b)
    decreases |b|
  {
    if b == [] {
      assert a + b == a;
    } else {
      assert (a + b)[..|a + b| - 1] == a + b[..|b| - 1];
      PaidConcat(a, b[..|b| - 1]);
    }
  }

  /** The sum of the ommers' own rewards. */
  ghost function OmmerRewards(block: Block, reward: nat, n: nat): nat
    requires OmmersNear(block) && n <= |block.ommers|
  {
    if n == 0 then 0 else OmmerRewards(block, reward, n - 1) + OmmerReward(block, block.ommers[n - 1], reward)
  }

  ghost function Withdrawn(ws: seq<Withdrawal>): nat {
    if ws == [] then 0 else Withdrawn(ws[..|ws| - 1]) + ws[|ws| - 1].amount
  }

  lemma {:induction false} OmmersPaid(block: Block, reward: nat, n: nat)
    requires OmmersNear(block) && n <= |block.ommers|
    ensures Paid(OmmerPayments(block, reward)[..n]) == OmmerRewards(block, reward, n)
    decreases n
  {
    if n > 0 {
      OmmersPaid(block, reward, n - 1);
      var ps := OmmerPayments(block, reward);
      assert ps[..n][..n - 1] == ps[..n - 1];
    }
  }

  lemma {:induction false} WithdrawalsPaid(ws: seq<Withdrawal>)
    ensures Paid(WithdrawalPayments(ws)) == Withdrawn(ws) * GWEI_TO_WEI
    decreases |ws|
  {
    if ws != [] {
      WithdrawalsPaid(ws[..|ws| - 1]);
      assert WithdrawalPayments(ws)[..|ws| - 1] == WithdrawalPayments(ws[..|ws| - 1]);
    }
  }

  /** What a block mints: the reward, a 32nd of it per ommer, the ommers' rewards and the withdrawals in wei. */
  ghost function Minted(block: Block, reward: Option<nat>, shanghai: bool): nat
    requires reward.Some? ==> OmmersNear(block)
  {
    (if reward.None? then 0
     else reward.value + reward.value / 32 * |block.ommers| + OmmerRewards(block, reward.value, |block.ommers|))
    + if shanghai && block.withdrawals.Some? then Withdrawn(block.withdrawals.value) * GWEI_TO_WEI else 0
  }

  lemma {:induction false} PaymentsAreMinted(block: Block, reward: Option<nat>, shanghai: bool)
    requires reward.Some? ==> OmmersNear(block)
    ensures Paid(Payments(block, reward, shanghai)) == Minted(block, reward, shanghai)
  {
    var rewards := RewardPayments(block, reward);
    if reward.Some? {
      var ommers := OmmerPayments(block, reward.value);
      var last := Payment(block.beneficiary, reward.value + reward.value / 32 * |block.ommers|);
      OmmersPaid(block, reward.value, |block.ommers|);
      assert ommers[..|block.ommers|] == ommers;
      PaidConcat(ommers, [last]);
      assert [last][..0] == [];
      assert Paid([last]) == last.amount;
    }
    if shanghai && block.withdrawals.Some? {
      WithdrawalsPaid(block.withdrawals.value);
      PaidConcat(rewards, WithdrawalPayments(block.withdrawals.value));
    } else {
      PaidConcat(rewards, []);
    }
  }

  // ---------------------------------------------------------------- the increments

  function Plus(a: nat, b: nat): nat {
    (a + b) % TWO_TO_THE_256
  }

  lemma {:induction false} PlusExact(a: nat, b: nat)
    requires a + b < TWO_TO_THE_256
    ensures Plus(a, b) == a + b
  {
  }

  /** Payments to one address add up. */
  function AddTo(m: map<Address, nat>, p: Payment): map<Address, nat> {
    m[p.to := Plus(At(m, p.to), p.amount)]
  }

  ghost function Increments(ps: seq<Payment>): map<Address, nat> {
    if ps == [] then map[] else AddTo(Increments(ps[..|ps| - 1]), ps[|ps| - 1])
  }

  /** However addresses collide, each gets what it was paid and the sum is what was paid in all. */
  lemma {:induction false} IncrementsConserve(ps: seq<Payment>)
    requires Paid(ps) < TWO_TO_THE_256
    ensures Sum(Increments(ps)) == Paid(ps)
    ensures forall a :: At(Increments(ps), a) == PaidTo(ps, a)
    decreases |ps|
  {
    hide Plus, Sum;
    if ps == [] {
      NoSum();
    } else {
      var front, last := ps[..|ps| - 1], ps[|ps| - 1];
      IncrementsConserve(front);
      var m := Increments(front);
      SumHas(m, last.to);
      PlusExact(At(m, last.to), last.amount);
      SumUpdate(m, last.to, At(m, last.to) + last.amount);
    }
  }

  // ---------------------------------------------------------------- crediting accounts

  function Load(db: Db, a: Address): Info {
    if a in db then db[a] else Info(0, NotExisting)
  }

  ghost function Balances(db: Db): map<Address, nat> {
    map a | a in db :: db[a].balance
  }

  /** All the ether there is. */
  ghost function Total(db: Db): nat {
    Sum(Balances(db))
  }

  function Credited(info: Info, amount: nat): Info {
    Info(Plus(info.balance, amount),
      match info.state
      case NotExisting => StorageCleared
      case Untouched => Touched
      case _ => info.state)
  }

  function ChangeOf(info: Info, amount: nat): Change {
    if info.state.NotExisting? then Created(Plus(info.balance, amount))
    else Changed(Plus(info.balance, amount), info.balance)
  }

  /** Every account in the map credited once. */
  ghost function CreditedAll(db: Db, incs: map<Address, nat>): Db {
    map a | a in db.Keys + incs.Keys :: if a in incs then Credited(Load(db, a), incs[a]) else db[a]
  }

  ghost function ChangesOf(db: Db, incs: map<Address, nat>): map<Address, Change> {
    map a | a in incs :: ChangeOf(Load(db, a), incs[a])
  }

  lemma {:induction false} BalancesUpdate(db: Db, a: Address, info: Info)
    ensures Balances(db[a := info]) == Balances(db)[a := info.balance]
    ensures At(Balances(db), a) == Load(db, a).balance
  {
  }

  lemma {:induction false} TotalUpdate(db: Db, a: Address, info: Info)
    ensures Total(db[a := info]) == Total(db) - Load(db, a).balance + info.balance
    ensures Load(db, a).balance <= Total(db)
  {
    BalancesUpdate(db, a, info);
    SumUpdate(Balances(db), a, info.balance);
    SumHas(Balances(db), a);
  }

  lemma {:induction false} CreditedLast(db: Db, incs: map<Address, nat>, a: Address)
    requires a in incs
    ensures CreditedAll(db, incs) == CreditedAll(db, incs - {a})[a := Credited(Load(db, a), incs[a])]
    ensures Load(CreditedAll(db, incs - {a}), a) == Load(db, a)
  {
    hide Credited;
  }

  /** Crediting adds exactly the increments to the total, as long as the new total fits 256 bits. */
  lemma {:induction false} CreditingConserves(db: Db, incs: map<Address, nat>)
    requires Total(db) + Sum(incs) < TWO_TO_THE_256
    ensures Total(CreditedAll(db, incs)) == Total(db) + Sum(incs)
    decreases |incs.Keys|
  {
    hide Plus, Sum, Total, CreditedAll;
    if incs == map[] {
      NoSum();
      NothingCredited(db);
    } else {
      var a :| a in incs;
      var fewer := incs - {a};
      assert fewer.Keys == incs.Keys - {a};
      SumWithout(incs, a);
      CreditingConserves(db, fewer);
      var before := CreditedAll(db, fewer);
      CreditedLast(db, incs, a);
      TotalUpdate(before, a, Credited(Load(db, a), incs[a]));
      PlusExact(Load(db, a).balance, incs[a]);
    }
  }

  lemma {:induction false} NothingCredited(db: Db)
    ensures CreditedAll(db, map[]) == db
  {
  }

  // ---------------------------------------------------------------- the DAO move

  /** The balances of the listed accounts, taken in order; a repeated address is empty the second time. */
  ghost function Drained(db: Db, list: seq<Address>, n: nat): (Db, nat)
    requires n <= |list|
  {
    if n == 0 then (db, 0)
    else
      var (d, taken) := Drained(db, list, n - 1);
      var info := Load(d, list[n - 1]);
      (d[list[n - 1] := info.(balance := 0)], Plus(taken, info.balance))
  }

  /** Draining moves ether out of the accounts and into the sum, without loss. */
  lemma {:induction false} DrainConserves(db: Db, list: seq<Address>, n: nat)
    requires n <= |list| && Total(db) < TWO_TO_THE_256
    ensures Total(Drained(db, list, n).0) + Drained(db, list, n).1 == Total(db)
    decreases n
  {
    hide Plus, Total;
    if n > 0 {
      DrainConserves(db, list, n - 1);
      var before := Drained(db, list, n - 1);
      var info := Load(before.0, list[n - 1]);
      TotalUpdate(before.0, list[n - 1], info.(balance := 0));
      PlusExact(before.1, info.balance);
    }
  }

  /** The balance move as a whole. */
  ghost function DaoMoved(db: Db, list: seq<Address>, beneficiary: Address): Db {
    var drained := Drained(db, list, |list|);
    var info := Load(drained.0, beneficiary);
    drained.0[beneficiary := info.(balance := Plus(info.balance, drained.1))]
  }

  /** The move leaves the total unchanged, even when the beneficiary is itself on the list. */
  lemma {:induction false} DaoConserves(db: Db, list: seq<Address>, beneficiary: Address)
    requires Total(db) < TWO_TO_THE_256
    ensures Total(DaoMoved(db, list, beneficiary)) == Total(db)
  {
    hide Plus, Total, Drained;
    DrainConserves(db, list, |list|);
    var drained := Drained(db, list, |list|);
    var info := Load(drained.0, beneficiary);
    TotalUpdate(drained.0, beneficiary, info.(balance := Plus(info.balance, drained.1)));
    PlusExact(info.balance, drained.1);
  }

  /** Draining empties the listed accounts and leaves the others alone. */
  lemma {:induction false} DrainedAt(db: Db, list: seq<Address>, n: nat, a: Address)
    requires n <= |list|
    ensures Load(Drained(db, list, n).0, a).balance == if a in list[..n] then 0 else Load(db, a).balance
    decreases n
  {
    hide Plus;
    if n > 0 {
      DrainedAt(db, list, n - 1, a);
      assert list[..n] == list[..n - 1] + [list[n - 1]];
    } else {
      assert list[..0] == [];
    }
  }

  /** Afterwards every listed account other than the beneficiary is empty, and every other one is as before. */
  lemma {:induction false} DaoEmpties(db: Db, list: seq<Address>, beneficiary: Address, a: Address)
    requires a != beneficiary
    ensures Load(DaoMoved(db, list, beneficiary), a).balance == if a in list then 0 else Load(db, a).balance
  {
    hide Plus, Drained;
    DrainedAt(db, list, |list|, a);
    assert list[..|list|] == list;
  }

  // ---------------------------------------------------------------- the changes reported

  function Times(list: seq<Address>, n: nat, a: Address): nat
    requires n <= |list|
  {
    if n == 0 then 0 else Times(list, n - 1, a) + if list[n - 1] == a then 1 else 0
  }

  /** One entry per drained account; a repeated one is overwritten. */
  ghost function DrainChanges(db: Db, list: seq<Address>, n: nat): map<Address, Change>
    requires n <= |list|
  {
    if n == 0 then map[]
    else
      var before := Load(Drained(db, list, n - 1).0, list[n - 1]).balance;
      DrainChanges(db, list, n - 1)[list[n - 1] := Changed(0, before)]
  }

  ghost function DaoChanges(db: Db, list: seq<Address>, beneficiary: Address): map<Address, Change> {
    var drained := Drained(db, list, |list|);
    var before := Load(drained.0, beneficiary).balance;
    DrainChanges(db, list, |list|)[beneficiary := Changed(Plus(before, drained.1), before)]
  }

  lemma {:induction false} DrainChangesAt(db: Db, list: seq<Address>, n: nat, a: Address)
    requires n <= |list|
    ensures a in DrainChanges(db, list, n) <==> Times(list, n, a) > 0
    ensures a in list[..n] <==> Times(list, n, a) > 0
    ensures a in DrainChanges(db, list, n) ==>
      DrainChanges(db, list, n)[a] == Changed(0, if Times(list, n, a) == 1 then Load(db, a).balance else 0)
    decreases n
  {
    hide Plus, Drained;
    if n > 0 {
      DrainChangesAt(db, list, n - 1, a);
      DrainedAt(db, list, n - 1, a);
      assert list[..n] == list[..n - 1] + [list[n - 1]];
    }
  }

  /** What an entry says the balance is now, and what it says it was; a created account had nothing. */
  function Now(c: Change): nat {
    match c
    case Created(balance) => balance
    case Changed(now, _) => now
  }

  function Before(c: Change): nat {
    match c
    case Created(_) => 0
    case Changed(_, before) => before
  }

  lemma {:induction false} DaoChangesAt(db: Db, list: seq<Address>, beneficiary: Address, a: Address)
    ensures var changes := DaoChanges(db, list, beneficiary);
      && (a in changes <==> a in list || a == beneficiary)
      && (a in changes ==> Now(changes[a]) == Load(DaoMoved(db, list, beneficiary), a).balance)
      && (a in changes ==>
            Before(changes[a]) ==
              if Times(list, |list|, a) > 1 || (Times(list, |list|, a) == 1 && a == beneficiary) then 0
              else Load(db, a).balance)
  {
    hide Plus, Drained;
    DrainChangesAt(db, list, |list|, a);
    DrainedAt(db, list, |list|, a);
    assert list[..|list|] == list;
    if a != beneficiary {
      DaoEmpties(db, list, beneficiary, a);
    }
  }

  /** The entries of the increments, overwritten by those of the balance move. */
  ghost function Reported(db: Db, incs: map<Address, nat>, dao: Option<DaoMove>): map<Address, Change> {
    ChangesOf(db, incs)
    + if dao.None? then map[] else DaoChanges(CreditedAll(db, incs), dao.value.accounts, dao.value.beneficiary)
  }

  ghost function Moved(db: Db, dao: Option<DaoMove>): Db {
    if dao.None? then db else DaoMoved(db, dao.value.accounts, dao.value.beneficiary)
  }

  /** The move touches the account. */
  predicate InMove(dao: Option<DaoMove>, a: Address) {
    dao.Some? && (a in dao.value.accounts || a == dao.value.beneficiary)
  }

  /** The move meets the account again after having emptied it. */
  predicate MetTwice(dao: DaoMove, a: Address) {
    var n := Times(dao.accounts, |dao.accounts|, a);
    n > 1 || (n == 1 && a == dao.beneficiary)
  }

  /** Accounts that do not exist hold nothing. */
  ghost predicate Coherent(db: Db) {
    forall a :: a in db && db[a].state.NotExisting? ==> db[a].balance == 0
  }

  lemma {:induction false} ChangesAt(db: Db, incs: map<Address, nat>, a: Address)
    requires Coherent(db)
    ensures a in ChangesOf(db, incs) <==> a in incs
    ensures a in incs ==> Now(ChangesOf(db, incs)[a]) == Load(CreditedAll(db, incs), a).balance
    ensures a in incs ==> Before(ChangesOf(db, incs)[a]) == Load(db, a).balance
    ensures a !in incs ==> Load(CreditedAll(db, incs), a) == Load(db, a)
  {
    hide Plus;
  }

  /** The reported entries give exactly the final balances, and no account changes without an entry. */
  lemma {:induction false} ReportedNow(db: Db, incs: map<Address, nat>, dao: Option<DaoMove>, a: Address)
    requires Coherent(db)
    ensures var changes, after := Reported(db, incs, dao), Load(Moved(CreditedAll(db, incs), dao), a).balance;
      if a in changes then Now(changes[a]) == after else after == Load(db, a).balance
  {
    hide ChangesOf, CreditedAll, DaoChanges, DaoMoved, Now, Load;
    ChangesAt(db, incs, a);
    if dao.Some? {
      DaoChangesAt(CreditedAll(db, incs), dao.value.accounts, dao.value.beneficiary, a);
      if !InMove(dao, a) {
        DaoEmpties(CreditedAll(db, incs), dao.value.accounts, dao.value.beneficiary, a);
      }
    }
  }

  /**
   * The old balance in an entry is the one before the block exactly when the account is not in the balance move,
   * or the move meets it once and the block paid it nothing, or the move meets it again and it held nothing.
   */
  lemma {:induction false} ReportedBefore(db: Db, incs: map<Address, nat>, dao: Option<DaoMove>, a: Address)
    requires Coherent(db) && a in Reported(db, incs, dao)
    requires Total(db) + Sum(incs) < TWO_TO_THE_256
    ensures Before(Reported(db, incs, dao)[a]) == Load(db, a).balance <==>
      || !InMove(dao, a)
      || (if MetTwice(dao.value, a) then Load(db, a).balance == 0 else At(incs, a) == 0)
  {
    hide ChangesOf, CreditedAll, DaoChanges, Before, Load, Total, Sum, Times;
    ChangesAt(db, incs, a);
    CreditedBalances(db, incs);
    if dao.Some? {
      DaoChangesAt(CreditedAll(db, incs), dao.value.accounts, dao.value.beneficiary, a);
    }
  }

  /** The move meets nobody again when its list has no repetition and leaves out the beneficiary. */
  lemma {:induction false} NoneMetTwice(dao: DaoMove, a: Address)
    requires forall i, j :: 0 <= i < j < |dao.accounts| ==> dao.accounts[i] != dao.accounts[j]
    requires dao.beneficiary !in dao.accounts
    ensures !MetTwice(dao, a)
  {
    TimesOnce(dao.accounts, |dao.accounts|, a);
    assert dao.accounts[..|dao.accounts|] == dao.accounts;
    DrainChangesAt(map[], dao.accounts, |dao.accounts|, a);
  }

  lemma {:induction false} TimesOnce(list: seq<Address>, n: nat, a: Address)
    requires n <= |list| && forall i, j :: 0 <= i < j < |list| ==> list[i] != list[j]
    ensures Times(list, n, a) <= 1
    ensures Times(list, n, a) > 0 ==> exists i :: 0 <= i < n && list[i] == a
  {
    if n > 0 {
      TimesOnce(list, n - 1, a);
    }
  }

  /** A block's own beneficiary that the move meets once: the reported old balance includes the reward. */
  lemma {:induction false} RewardMisreported(db: Db, block: Block, reward: nat, dao: DaoMove)
    requires Coherent(db) && OmmersNear(block) && reward > 0
    requires InMove(Some(dao), block.beneficiary) && !MetTwice(dao, block.beneficiary)
    requires Total(db) + Paid(Payments(block, Some(reward), false)) < TWO_TO_THE_256
    ensures var changes := Reported(db, Increments(Payments(block, Some(reward), false)), Some(dao));
      && block.beneficiary in changes
      && Before(changes[block.beneficiary]) != Load(db, block.beneficiary).balance
  {
    hide MetTwice, Total, Paid, OmmersNear, OmmerPayments, Before, Load, ChangesOf, CreditedAll, DaoChanges, Increments;
    var paid := Payments(block, Some(reward), false);
    assert paid == OmmerPayments(block, reward)
      + [Payment(block.beneficiary, reward + reward / 32 * |block.ommers|)];
    assert PaidTo(paid, block.beneficiary) > 0;
    IncrementsConserve(paid);
    DaoChangesAt(CreditedAll(db, Increments(paid)), dao.accounts, dao.beneficiary, block.beneficiary);
    ReportedBefore(db, Increments(paid), Some(dao), block.beneficiary);
  }

  // ---------------------------------------------------------------- the executor

  class Executor {
    var db: Db

    constructor (db: Db)
      ensures this.db == db
    {
      this.db := db;
    }

    /** The ommers' rewards; `None` when a 64-bit ommer distance underflows or overflows. */
    method AddOmmers(block: Block, reward: nat) returns (r: Option<map<Address, nat>>)
      ensures r.Some? <==> OmmersNear(block)
      ensures r.Some? ==> r.value == Increments(OmmerPayments(block, reward))
    {
      hide Plus, OmmerReward, Near, AddTo, Increments;
      var incs: map<Address, nat> := map[];
      ghost var paid: seq<Payment> := [];
      IncrementsNone();
      var i := 0;
      while i < |block.ommers|
        invariant i <= |block.ommers| && |paid| == i && incs == Increments(paid)
        invariant forall j :: 0 <= j < i ==> Near(block, block.ommers[j])
        invariant forall j :: 0 <= j < i ==>
          paid[j] == Payment(block.ommers[j].beneficiary, OmmerReward(block, block.ommers[j], reward))
      {
        var ommer := block.ommers[i];
        if !Near(block, ommer) {
          return None;
        }
        var p := Payment(ommer.beneficiary, OmmerReward(block, ommer, reward));
        IncrementsSnoc(paid, p);
        incs, paid, i := AddTo(incs, p), paid + [p], i + 1;
      }
      assert paid == OmmerPayments(block, reward);
      return Some(incs);
    }

    /** All balance increments of a block, added up per address. */
    method PostBlockIncrements(block: Block, reward: Option<nat>, shanghai: bool)
      returns (r: Option<map<Address, nat>>)
      ensures r.Some? <==> (reward.Some? ==> OmmersNear(block))
      ensures r.Some? ==> r.value == Increments(Payments(block, reward, shanghai))
    {
      hide Plus, Increments, OmmersNear, OmmerPayments, AddTo;
      var incs: map<Address, nat> := map[];
      IncrementsNone();
      if reward.Some? {
        var ommers := AddOmmers(block, reward.value);
        if ommers.None? {
          return None;
        }
        var p := Payment(block.beneficiary, reward.value + reward.value / 32 * |block.ommers|);
        IncrementsSnoc(OmmerPayments(block, reward.value), p);
        incs := AddTo(ommers.value, p);
      }
      ghost var rewards := RewardPayments(block, reward);
      if shanghai && block.withdrawals.Some? {
        incs := AddWithdrawals(rewards, incs, block.withdrawals.value);
      } else {
        assert rewards + [] == rewards;
      }
      return Some(incs);
    }

    method AddWithdrawals(ghost paid: seq<Payment>, start: map<Address, nat>, ws: seq<Withdrawal>)
      returns (incs: map<Address, nat>)
      requires start == Increments(paid)
      ensures incs == Increments(paid + WithdrawalPayments(ws))
    {
      hide Plus;
      incs := start;
      ghost var ps := WithdrawalPayments(ws);
      var i := 0;
      assert paid + ps[..0] == paid;
      while i < |ws|
        invariant i <= |ws| && incs == Increments(paid + ps[..i])
      {
        IncrementsSnoc(paid + ps[..i], ps[i]);
        assert paid + ps[..i + 1] == paid + ps[..i] + [ps[i]];
        incs := AddTo(incs, Payment(ws[i].address, ws[i].amount * GWEI_TO_WEI));
        i := i + 1;
      }
      assert ps[..i] == ps;
    }

    /** Change one account in place and say how. */
    method IncrementBalance(a: Address, amount: nat) returns (change: Change)
      modifies this
      ensures db == old(db)[a := Credited(Load(old(db), a), amount)]
      ensures change == ChangeOf(Load(old(db), a), amount)
    {
      var info := Load(db, a);
      var before := info.balance;
      info := info.(balance := Plus(info.balance, amount));
      if info.state.NotExisting? {
        info := info.(state := StorageCleared);
        change := Created(info.balance);
      } else {
        if info.state.Untouched? {
          info := info.(state := Touched);
        }
        change := Changed(info.balance, before);
      }
      db := db[a := info];
    }

    /** The map is visited in any order; the outcome is always the same. */
    method ApplyIncrements(incs: map<Address, nat>) returns (changes: map<Address, Change>)
      modifies this
      ensures db == CreditedAll(old(db), incs)
      ensures changes == ChangesOf(old(db), incs)
    {
      hide Credited, ChangeOf;
      changes := map[];
      var left := incs.Keys;
      ghost var done: map<Address, nat> := map[];
      NothingCredited(db);
      while left != {}
        invariant left <= incs.Keys && done.Keys == incs.Keys - left
        invariant forall a :: a in done ==> done[a] == incs[a]
        invariant db == CreditedAll(old(db), done)
        invariant changes == ChangesOf(old(db), done)
        decreases |left|
      {
        var a :| a in left;
        ghost var more := done[a := incs[a]];
        assert more - {a} == done;
        CreditedLast(old(db), more, a);
        var change := IncrementBalance(a, incs[a]);
        changes := changes[a := change];
        done := more;
        left := left - {a};
      }
      assert done == incs;
    }

    /** The balance move, and an entry for every account it meets. */
    method DaoFork(list: seq<Address>, beneficiary: Address) returns (changes: map<Address, Change>)
      modifies this
      ensures db == DaoMoved(old(db), list, beneficiary)
      ensures changes == DaoChanges(old(db), list, beneficiary)
    {
      hide Plus;
      changes := map[];
      var drained, i := 0, 0;
      while i < |list|
        invariant i <= |list| && (db, drained) == Drained(old(db), list, i)
        invariant changes == DrainChanges(old(db), list, i)
      {
        var info := Load(db, list[i]);
        drained := Plus(drained, info.balance);
        changes := changes[list[i] := Changed(0, info.balance)];
        db := db[list[i] := info.(balance := 0)];
        i := i + 1;
      }
      var info := Load(db, beneficiary);
      changes := changes[beneficiary := Changed(Plus(info.balance, drained), info.balance)];
      db := db[beneficiary := info.(balance := Plus(info.balance, drained))];
    }

    /** Everything after the transactions of a block; `None` when an ommer is too far back. */
    method PostBlock(block: Block, reward: Option<nat>, shanghai: bool, dao: Option<DaoMove>)
      returns (changes: Option<map<Address, Change>>)
      modifies this
      ensures changes.Some? <==> (reward.Some? ==> OmmersNear(block))
      ensures changes.None? ==> db == old(db)
      ensures changes.Some? ==>
        && db == AfterBlock(old(db), block, reward, shanghai, dao)
        && changes.value == Reported(old(db), Increments(Payments(block, reward, shanghai)), dao)
    {
      hide Plus, Payments, Increments, CreditedAll, DaoMoved, ChangesOf, DaoChanges;
      var incs := PostBlockIncrements(block, reward, shanghai);
      if incs.None? {
        return None;
      }
      var made := ApplyIncrements(incs.value);
      if dao.Some? {
        var moved := DaoFork(dao.value.accounts, dao.value.beneficiary);
        made := made + moved;
      }
      return Some(made);
    }
  }

  ghost function AfterBlock(
    db: Db, block: Block, reward: Option<nat>, shanghai: bool, dao: Option<DaoMove>): Db
    requires reward.Some? ==> OmmersNear(block)
  {
    Moved(CreditedAll(db, Increments(Payments(block, reward, shanghai))), dao)
  }

  /** The total rises by exactly what the block mints, with or without the DAO move. */
  lemma {:induction false} BlockConserves(
    db: Db, block: Block, reward: Option<nat>, shanghai: bool, dao: Option<DaoMove>)
    requires reward.Some? ==> OmmersNear(block)
    requires Total(db) + Minted(block, reward, shanghai) < TWO_TO_THE_256
    ensures Total(AfterBlock(db, block, reward, shanghai, dao)) == Total(db) + Minted(block, reward, shanghai)
  {
    hide Total, Minted, Payments, Increments, CreditedAll, DaoMoved, Sum;
    var ps := Payments(block, reward, shanghai);
    PaymentsAreMinted(block, reward, shanghai);
    IncrementsConserve(ps);
    CreditingConserves(db, Increments(ps));
    if dao.Some? {
      DaoConserves(CreditedAll(db, Increments(ps)), dao.value.accounts, dao.value.beneficiary);
    }
  }

  /** However addresses collide, every account gets exactly the sum of the payments to it. */
  lemma {:induction false} EveryoneIsPaid(db: Db, block: Block, reward: Option<nat>, shanghai: bool, a: Address)
    requires reward.Some? ==> OmmersNear(block)
    requires Total(db) + Minted(block, reward, shanghai) < TWO_TO_THE_256
    ensures Load(AfterBlock(db, block, reward, shanghai, None), a).balance ==
      Load(db, a).balance + PaidTo(Payments(block, reward, shanghai), a)
  {
    hide Total, Minted, Payments, Increments, CreditedAll, Sum;
    var ps := Payments(block, reward, shanghai);
    PaymentsAreMinted(block, reward, shanghai);
    IncrementsConserve(ps);
    CreditedBalances(db, Increments(ps));
  }

  lemma {:induction false} IncrementsNone()
    ensures Increments([]) == map[]
  {
  }

  lemma {:induction false} IncrementsSnoc(ps: seq<Payment>, p: Payment)
    ensures Increments(ps + [p]) == AddTo(Increments(ps), p)
  {
    assert (ps + [p])[..|ps|] == ps;
  }

  lemma {:induction false} CreditedBalances(db: Db, incs: map<Address, nat>)
    requires Total(db) + Sum(incs) < TWO_TO_THE_256
    ensures forall a :: Load(CreditedAll(db, incs), a).balance == Load(db, a).balance + At(incs, a)
  {
    hide Plus, Total, Sum;
    forall a ensures Load(CreditedAll(db, incs), a).balance == Load(db, a).balance + At(incs, a) {
      if a in incs {
        SumHas(incs, a);
        TotalUpdate(db, a, Load(db, a));
        PlusExact(Load(db, a).balance, incs[a]);
      }
    }
  }
}
