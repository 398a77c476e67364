/**
 Properties of the ledger over whole histories of requests.

 A history is a sequence of state-changing requests (create, deposit,
 withdraw, transfer) applied one after the other, as the service handles
 them one at a time. Login does not change the ledger and so does not
 appear in a history.
 */
module Traces {
  import opened Ledger

  datatype Op =
    | CreateOp(username: Option<string>, password: Option<string>,
               initialBalance: Option<int>, currency: Option<string>, hashpw: string -> Hash)
    | DepositOp(account: int, amount: int)
    | WithdrawOp(account: int, amount: int)
    | TransferOp(fromId: int, toId: int, amount: int)

  /** The store after one request. */
  function Step(s: Store, op: Op): Store {
    match op
    case CreateOp(u, p, b, c, h) => Create(s, u, p, b, c, h).store
    case DepositOp(id, amount) => Deposit(s, id, amount).store
    case WithdrawOp(id, amount) => Withdraw(s, id, amount).store
    case TransferOp(fromId, toId, amount) => Transfer(s, fromId, toId, amount).store
  }

  /** The money a request brings into the ledger (negative when it takes money out). */
  function Flow(s: Store, op: Op): int {
    match op
    case CreateOp(u, p, b, c, h) =>
      var o := Create(s, u, p, b, c, h);
      if o.result.Ok? then o.result.value.balance else 0
    case DepositOp(id, amount) => if Deposit(s, id, amount).result.Ok? then amount else 0
    case WithdrawOp(id, amount) => if Withdraw(s, id, amount).result.Ok? then -amount else 0
    case TransferOp(_, _, _) => 0
  }

  /** The store after a whole history. */
  function Run(s: Store, ops: seq<Op>): Store
    decreases |ops|
  {
    if ops == [] then s else Run(Step(s, ops[0]), ops[1..])
  }

  /** The money a whole history brings in. */
  function NetFlow(s: Store, ops: seq<Op>): int
    decreases |ops|
  {
    if ops == [] then 0 else Flow(s, ops[0]) + NetFlow(Step(s, ops[0]), ops[1..])
  }

  /** The id a request hands out: the one a successful create answers with, else none. */
  function IssuedId(s: Store, op: Op): (ids: seq<int>)
    ensures |ids| <= 1
    ensures ids != [] ==> ids[0] == s.nextId
    ensures Step(s, op).nextId == s.nextId + |ids|
  {
    match op
    case CreateOp(u, p, b, c, h) =>
      var o := Create(s, u, p, b, c, h);
      if o.result.Ok? then [o.result.value.id] else []
    case _ => []
  }

  /** The ids that the successful creates of a history answered with, in order. */
  function CreatedIds(s: Store, ops: seq<Op>): seq<int>
    decreases |ops|
  {
    if ops == [] then [] else IssuedId(s, ops[0]) + CreatedIds(Step(s, ops[0]), ops[1..])
  }

  /** Every create in the history asks for a balance of at least zero. */
  predicate NonNegativeCreates(ops: seq<Op>) {
    forall i :: 0 <= i < |ops| && ops[i].CreateOp? ==> ops[i].initialBalance.GetOr(DefaultBalance) >= 0
  }

  /** One request changes the ledger's total by exactly the money it brings in. */
  lemma StepTotal(s: Store, op: Op)
    requires WellFormed(s)
    ensures Total(Step(s, op)) == Total(s) + Flow(s, op)
  {
    match op
    case CreateOp(u, p, b, c, h) => CreateTotal(s, u, p, b, c, h);
    case DepositOp(id, amount) => DepositTotal(s, id, amount);
    case WithdrawOp(id, amount) => WithdrawTotal(s, id, amount);
    case TransferOp(fromId, toId, amount) => TransferTotal(s, fromId, toId, amount);
  }

  /** Every history keeps the store well formed: ids stay 1..counter-1 and usernames stay unique. */
  lemma {:induction false} RunWellFormed(s: Store, ops: seq<Op>)
    requires WellFormed(s)
    ensures WellFormed(Run(s, ops))
    decreases |ops|
  {
    if ops != [] {
      RunWellFormed(Step(s, ops[0]), ops[1..]);
    }
  }

  /** A history changes the total by the money its successful creates, deposits and withdrawals move. */
  lemma {:induction false} RunTotal(s: Store, ops: seq<Op>)
    requires WellFormed(s)
    ensures Total(Run(s, ops)) == Total(s) + NetFlow(s, ops)
    decreases |ops|
  {
    if ops != [] {
      StepTotal(s, ops[0]);
      RunTotal(Step(s, ops[0]), ops[1..]);
    }
  }

  /** Conservation: a history made of transfers only, successful or not, leaves the total unchanged. */
  lemma {:induction false} TransfersConserveTotal(s: Store, ops: seq<Op>)
    requires WellFormed(s)
    requires forall i :: 0 <= i < |ops| ==> ops[i].TransferOp?
    ensures Total(Run(s, ops)) == Total(s)
    decreases |ops|
  {
    if ops != [] {
      TransferTotal(s, ops[0].fromId, ops[0].toId, ops[0].amount);
      TransfersConserveTotal(Step(s, ops[0]), ops[1..]);
    }
  }

  /**
   Balances never go negative, provided that no create was asked for a
   negative initial balance (which the service accepts).
   */
  lemma {:induction false} RunNonNegative(s: Store, ops: seq<Op>)
    requires NonNegative(s)
    requires NonNegativeCreates(ops)
    ensures NonNegative(Run(s, ops))
    decreases |ops|
  {
    if ops != [] {
      assert NonNegative(Step(s, ops[0]));
      RunNonNegative(Step(s, ops[0]), ops[1..]);
    }
  }

  /**
   Accounts are never removed, ids are never reassigned, and an account's
   username, password hash and currency never change; the counter only grows.
   */
  lemma {:induction false} RunKeepsAccounts(s: Store, ops: seq<Op>)
    requires WellFormed(s)
    ensures Run(s, ops).nextId >= s.nextId
    ensures forall id :: id in s.accounts ==>
              && id in Run(s, ops).accounts
              && Run(s, ops).accounts[id] == s.accounts[id].(balance := Run(s, ops).accounts[id].balance)
    decreases |ops|
  {
    if ops != [] {
      var s' := Step(s, ops[0]);
      assert forall id :: id in s.accounts ==>
               id in s'.accounts && s'.accounts[id] == s.accounts[id].(balance := s'.accounts[id].balance);
      RunKeepsAccounts(s', ops[1..]);
    }
  }

  /** Prefixing at most one id `lo` to increasing ids that start at `mid` = `lo` + that count keeps them increasing. */
  lemma PrependIssued(here: seq<int>, rest: seq<int>, lo: int, mid: int, hi: int)
    requires |here| <= 1 && mid == lo + |here| && (here != [] ==> here[0] == lo)
    requires forall i, j :: 0 <= i < j < |rest| ==> rest[i] < rest[j]
    requires forall i :: 0 <= i < |rest| ==> mid <= rest[i] < hi
    requires mid <= hi
    ensures var ids := here + rest;
            && (forall i, j :: 0 <= i < j < |ids| ==> ids[i] < ids[j])
            && (forall i :: 0 <= i < |ids| ==> lo <= ids[i] < hi)
  {
  }

  /** The ids handed out by a history are strictly increasing and lie between the counter before and after. */
  lemma {:induction false} CreatedIdsIncrease(s: Store, ops: seq<Op>)
    ensures var ids := CreatedIds(s, ops);
            && (forall i, j :: 0 <= i < j < |ids| ==> ids[i] < ids[j])
            && (forall i :: 0 <= i < |ids| ==> s.nextId <= ids[i] < Run(s, ops).nextId)
    ensures Run(s, ops).nextId == s.nextId + |CreatedIds(s, ops)|
    decreases |ops|
  {
    if ops != [] {
      var s' := Step(s, ops[0]);
      CreatedIdsIncrease(s', ops[1..]);
      PrependIssued(IssuedId(s, ops[0]), CreatedIds(s', ops[1..]), s.nextId, s'.nextId, Run(s', ops[1..]).nextId);
    }
  }

  /** No id a history hands out belonged to an account before, and each names an account afterwards. */
  lemma CreatedIdsFresh(s: Store, ops: seq<Op>)
    requires WellFormed(s)
    ensures forall id :: id in CreatedIds(s, ops) ==> id !in s.accounts && id in Run(s, ops).accounts
  {
    CreatedIdsIncrease(s, ops);
    RunWellFormed(s, ops);
  }

  /**
   The walk-through the service is meant to support: alice opens with 100,
   deposits 50, bob opens with 0, alice sends bob 150, and a further
   withdrawal of 1 from alice is refused for lack of funds.
   */
  lemma Walkthrough(hashpw: string -> Hash)
    ensures var s0 := Initial();
            var c1 := Create(s0, Some("alice"), Some("pw-a"), Some(100), Some("USD"), hashpw);
            var d := Deposit(c1.store, 1, 50);
            var c2 := Create(d.store, Some("bob"), Some("pw-b"), Some(0), Some("USD"), hashpw);
            var t := Transfer(c2.store, 1, 2, 150);
            var w := Withdraw(t.store, 1, 1);
            && c1.result == Ok(Created(1, 100, "USD"))
            && d.result == Ok(BalanceReport(1, 150))
            && c2.result == Ok(Created(2, 0, "USD"))
            && t.result == Ok(TransferReport(1, 2, 0, 150))
            && w.result == Err(InsufficientFunds)
            && w.store == t.store
  {
    var s0 := Initial();
    var c1 := Create(s0, Some("alice"), Some("pw-a"), Some(100), Some("USD"), hashpw);
    var d := Deposit(c1.store, 1, 50);
    assert "alice" != "bob";
    assert d.store.accounts.Keys == {1};
  }
}
