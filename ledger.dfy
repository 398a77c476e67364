/**
 The in-memory account ledger of the banking service, as values.

 The service keeps a dictionary from account id to an account record and a
 counter that supplies the next id. This module describes that state as a
 `Store` value and each request handler as a pure transition from one store to
 the next together with the response it produces. The class in module Bank
 performs the same transitions in place and is proved against these functions.
 */
module Ledger {

  datatype Option<T> = None | Some(value: T) {
    /** The value, or `default` when the field was absent from the request. */
    function GetOr(default: T): T {
      match this
      case Some(v) => v
      case None => default
    }
  }

  /** The error responses of the handlers, one per distinct message. */
  datatype Error =
    | MissingCredentials   // "Username and password are required"
    | DuplicateUsername    // "Username already exists"
    | BadLogin             // "Bad username or password"
    | AccountNotFound      // "Account not found"
    | NonPositiveAmount    // "Amount must be positive"
    | InsufficientFunds    // "Insufficient funds"

  datatype Result<T> = Ok(value: T) | Err(error: Error)

  /** The bytes that the password hashing library returns. */
  type Hash = seq<bv8>

  /** One entry of the accounts dictionary. Balances are integer minor units. */
  datatype Account = Account(passwordHash: Hash, username: string, balance: int, currency: string)

  /** The whole ledger: the accounts dictionary and the id counter. */
  datatype Store = Store(accounts: map<int, Account>, nextId: int)

  /** Response bodies of the successful handlers. */
  datatype Created = Created(id: int, balance: int, currency: string)
  datatype BalanceReport = BalanceReport(id: int, balance: int)
  datatype TransferReport = TransferReport(fromId: int, toId: int, fromBalance: int, toBalance: int)

  /** The store after a request, paired with the response to it. */
  datatype Outcome<T> = Outcome(store: Store, result: Result<T>)

  const DefaultBalance: int := 0
  const DefaultCurrency: string := "USD"

  /** The counter's value before any account exists. */
  const FirstId: int := 1

  /** The empty ledger the service starts with. */
  function Initial(): (s: Store)
    ensures WellFormed(s) && NonNegative(s) && Total(s) == 0
  {
    Store(map[], FirstId)
  }

  // ---------------------------------------------------------------------------
  // Invariants of the store

  /** No two accounts share a username. */
  ghost predicate UniqueUsernames(m: map<int, Account>) {
    forall i, j :: i in m && j in m && m[i].username == m[j].username ==> i == j
  }

  /**
   The invariant every reachable store keeps: ids are exactly those handed
   out so far, which are the integers from `FirstId` up to (not including) the
   counter, usernames are non-empty and no two accounts share one.
   */
  ghost predicate WellFormed(s: Store) {
    && FirstId <= s.nextId
    && (forall id :: id in s.accounts <==> FirstId <= id < s.nextId)
    && (forall id :: id in s.accounts ==> s.accounts[id].username != "")
    && UniqueUsernames(s.accounts)
  }

  /** Every balance is at least zero. */
  ghost predicate NonNegative(s: Store) {
    forall id :: id in s.accounts ==> s.accounts[id].balance >= 0
  }

  /**
   `s'` differs from `s` in balances only: same counter, same ids, and every
   account keeps its password hash, username and currency.
   */
  ghost predicate OnlyBalancesChange(s: Store, s': Store) {
    && s'.nextId == s.nextId
    && s'.accounts.Keys == s.accounts.Keys
    && forall id :: id in s.accounts ==> s'.accounts[id] == s.accounts[id].(balance := s'.accounts[id].balance)
  }

  /** `s'` is `s` with the balance of account `id` moved by `delta` and nothing else changed. */
  ghost predicate Moved(s: Store, s': Store, id: int, delta: int) {
    && id in s.accounts
    && OnlyBalancesChange(s, s')
    && s'.accounts[id].balance == s.accounts[id].balance + delta
    && forall k :: k in s.accounts && k != id ==> s'.accounts[k] == s.accounts[k]
  }

  // ---------------------------------------------------------------------------
  // Sum of balances

  /** The balance of `id`, or 0 for an id with no account. */
  function Bal(m: map<int, Account>, id: int): int {
    if id in m then m[id].balance else 0
  }

  /** The sum of the balances of the ids in [lo, hi). */
  function SumBalances(m: map<int, Account>, lo: int, hi: int): int
    decreases hi - lo
  {
    if hi <= lo then 0 else Bal(m, lo) + SumBalances(m, lo + 1, hi)
  }

  /** The money held by the whole ledger (all ids lie in [FirstId, nextId) in a well-formed store). */
  function Total(s: Store): int {
    SumBalances(s.accounts, FirstId, s.nextId)
  }

  lemma {:induction false} SumFrame(m: map<int, Account>, m': map<int, Account>, lo: int, hi: int)
    requires forall i :: lo <= i < hi ==> Bal(m, i) == Bal(m', i)
    ensures SumBalances(m, lo, hi) == SumBalances(m', lo, hi)
    decreases hi - lo
  {
    if lo < hi {
      SumFrame(m, m', lo + 1, hi);
    }
  }

  /** Changing the balance at one id `k` in range changes the sum by exactly that difference. */
  lemma {:induction false} SumPoint(m: map<int, Account>, m': map<int, Account>, k: int, lo: int, hi: int)
    requires lo <= k < hi
    requires forall i :: lo <= i < hi && i != k ==> Bal(m, i) == Bal(m', i)
    ensures SumBalances(m', lo, hi) == SumBalances(m, lo, hi) + Bal(m', k) - Bal(m, k)
    decreases hi - lo
  {
    if lo == k {
      SumFrame(m, m', lo + 1, hi);
    } else {
      SumPoint(m, m', k, lo + 1, hi);
    }
  }

  /** Extending the range by one id adds that id's balance. */
  lemma {:induction false} SumExtend(m: map<int, Account>, lo: int, hi: int)
    requires lo <= hi
    ensures SumBalances(m, lo, hi + 1) == SumBalances(m, lo, hi) + Bal(m, hi)
    decreases hi - lo
  {
    if lo < hi {
      SumExtend(m, lo + 1, hi);
    }
  }

  // ---------------------------------------------------------------------------
  // create_account

  /** A credential the handler accepts: present and not the empty string. */
  predicate Present(field: Option<string>) {
    field.Some? && field.value != ""
  }

  /** The usernames already taken. */
  function Usernames(m: map<int, Account>): (names: set<string>)
    ensures forall id :: id in m ==> m[id].username in names
    ensures forall name :: name in names ==> exists id :: id in m && m[id].username == name
  {
    set id | id in m :: m[id].username
  }

  /**
   Create an account: reject a missing or empty username or password, then a
   username already taken; otherwise store the record under the counter's
   value and advance the counter. An absent balance is 0, an absent currency
   "USD"; a negative balance is accepted.
   */
  function Create(s: Store, username: Option<string>, password: Option<string>,
                  initialBalance: Option<int>, currency: Option<string>,
                  hashpw: string -> Hash): (o: Outcome<Created>)
    ensures o.result.Err? ==> o.store == s
    ensures o.result == Err(MissingCredentials) <==> !Present(username) || !Present(password)
    ensures o.result == Err(DuplicateUsername) <==>
              Present(username) && Present(password) &&
              exists id :: id in s.accounts && s.accounts[id].username == username.value
    ensures o.result.Ok? <==>
              Present(username) && Present(password) &&
              !exists id :: id in s.accounts && s.accounts[id].username == username.value
    ensures o.result.Ok? ==>
              && o.result.value == Created(s.nextId, initialBalance.GetOr(DefaultBalance), currency.GetOr(DefaultCurrency))
              && o.store.nextId == s.nextId + 1
              && o.store.accounts.Keys == s.accounts.Keys + {s.nextId}
              && o.store.accounts[s.nextId] ==
                   Account(hashpw(password.value), username.value, initialBalance.GetOr(DefaultBalance), currency.GetOr(DefaultCurrency))
              && forall id :: id in s.accounts && id != s.nextId ==> o.store.accounts[id] == s.accounts[id]
    // the new id was free and is above every existing id
    ensures WellFormed(s) && o.result.Ok? ==>
              o.result.value.id !in s.accounts && forall id :: id in s.accounts ==> id < o.result.value.id
    ensures WellFormed(s) ==> WellFormed(o.store)
    ensures NonNegative(s) && initialBalance.GetOr(DefaultBalance) >= 0 ==> NonNegative(o.store)
  {
    if !Present(username) || !Present(password) then
      Outcome(s, Err(MissingCredentials))
    else if username.value in Usernames(s.accounts) then
      Outcome(s, Err(DuplicateUsername))
    else
      var balance := initialBalance.GetOr(DefaultBalance);
      var cur := currency.GetOr(DefaultCurrency);
      var id := s.nextId;
      var account := Account(hashpw(password.value), username.value, balance, cur);
      Outcome(Store(s.accounts[id := account], s.nextId + 1), Ok(Created(id, balance, cur)))
  }

  /** A successful create adds its initial balance to the ledger's total; a failed one adds nothing. */
  lemma CreateTotal(s: Store, username: Option<string>, password: Option<string>,
                    initialBalance: Option<int>, currency: Option<string>, hashpw: string -> Hash)
    requires WellFormed(s)
    ensures var o := Create(s, username, password, initialBalance, currency, hashpw);
            Total(o.store) == Total(s) + (if o.result.Ok? then o.result.value.balance else 0)
  {
    var o := Create(s, username, password, initialBalance, currency, hashpw);
    if o.result.Ok? {
      var m, m', n := s.accounts, o.store.accounts, s.nextId;
      forall i | FirstId <= i < n
        ensures Bal(m, i) == Bal(m', i)
      {
        assert i in m && i != n;
      }
      SumFrame(m, m', FirstId, n);
      SumExtend(m', FirstId, n);
    }
  }

  // ---------------------------------------------------------------------------
  // deposit

  /**
   Deposit into account `id`: an unknown id is reported first, then an
   amount that is not positive; otherwise the balance grows by `amount`.
   */
  function Deposit(s: Store, id: int, amount: int): (o: Outcome<BalanceReport>)
    ensures o.result.Err? ==> o.store == s
    ensures o.result == Err(AccountNotFound) <==> id !in s.accounts
    ensures o.result == Err(NonPositiveAmount) <==> id in s.accounts && amount <= 0
    ensures o.result.Ok? <==> id in s.accounts && amount > 0
    ensures o.result.Ok? ==>
              && Moved(s, o.store, id, amount)
              && o.result.value == BalanceReport(id, s.accounts[id].balance + amount)
    ensures WellFormed(s) ==> WellFormed(o.store)
    ensures NonNegative(s) ==> NonNegative(o.store)
  {
    if id !in s.accounts then
      Outcome(s, Err(AccountNotFound))
    else if amount <= 0 then
      Outcome(s, Err(NonPositiveAmount))
    else
      var a := s.accounts[id];
      var s' := s.(accounts := s.accounts[id := a.(balance := a.balance + amount)]);
      Outcome(s', Ok(BalanceReport(id, s'.accounts[id].balance)))
  }

  /** A successful deposit adds exactly `amount` to the ledger's total. */
  lemma DepositTotal(s: Store, id: int, amount: int)
    requires WellFormed(s)
    ensures var o := Deposit(s, id, amount);
            Total(o.store) == Total(s) + (if o.result.Ok? then amount else 0)
  {
    var o := Deposit(s, id, amount);
    if o.result.Ok? {
      SumPoint(s.accounts, o.store.accounts, id, FirstId, s.nextId);
    }
  }

  // ---------------------------------------------------------------------------
  // withdraw

  /**
   Withdraw from account `id`: unknown id, then a non-positive amount, then
   a balance below the amount are reported in that order; otherwise the
   balance shrinks by `amount`.
   */
  function Withdraw(s: Store, id: int, amount: int): (o: Outcome<BalanceReport>)
    ensures o.result.Err? ==> o.store == s
    ensures o.result == Err(AccountNotFound) <==> id !in s.accounts
    ensures o.result == Err(NonPositiveAmount) <==> id in s.accounts && amount <= 0
    ensures o.result == Err(InsufficientFunds) <==>
              id in s.accounts && amount > 0 && s.accounts[id].balance < amount
    ensures o.result.Ok? <==> id in s.accounts && 0 < amount <= s.accounts[id].balance
    ensures o.result.Ok? ==>
              && Moved(s, o.store, id, -amount)
              && o.result.value == BalanceReport(id, s.accounts[id].balance - amount)
              && o.result.value.balance >= 0
    ensures WellFormed(s) ==> WellFormed(o.store)
    ensures NonNegative(s) ==> NonNegative(o.store)
  {
    if id !in s.accounts then
      Outcome(s, Err(AccountNotFound))
    else if amount <= 0 then
      Outcome(s, Err(NonPositiveAmount))
    else if s.accounts[id].balance < amount then
      Outcome(s, Err(InsufficientFunds))
    else
      var a := s.accounts[id];
      var s' := s.(accounts := s.accounts[id := a.(balance := a.balance - amount)]);
      Outcome(s', Ok(BalanceReport(id, s'.accounts[id].balance)))
  }

  /** A successful withdrawal removes exactly `amount` from the ledger's total. */
  lemma WithdrawTotal(s: Store, id: int, amount: int)
    requires WellFormed(s)
    ensures var o := Withdraw(s, id, amount);
            Total(o.store) == Total(s) - (if o.result.Ok? then amount else 0)
  {
    var o := Withdraw(s, id, amount);
    if o.result.Ok? {
      SumPoint(s.accounts, o.store.accounts, id, FirstId, s.nextId);
    }
  }

  // ---------------------------------------------------------------------------
  // transfer

  /**
   Transfer `amount` from `fromId` to `toId`: either id unknown, then a
   non-positive amount, then a source balance below the amount are reported
   in that order; otherwise the source is debited and then the destination
   credited. A transfer to the same account is not rejected and leaves its
   balance as it was.
   */
  function Transfer(s: Store, fromId: int, toId: int, amount: int): (o: Outcome<TransferReport>)
    ensures o.result.Err? ==> o.store == s
    ensures o.result == Err(AccountNotFound) <==> fromId !in s.accounts || toId !in s.accounts
    ensures o.result == Err(NonPositiveAmount) <==>
              fromId in s.accounts && toId in s.accounts && amount <= 0
    ensures o.result == Err(InsufficientFunds) <==>
              fromId in s.accounts && toId in s.accounts && amount > 0 && s.accounts[fromId].balance < amount
    ensures o.result.Ok? <==>
              fromId in s.accounts && toId in s.accounts && 0 < amount <= s.accounts[fromId].balance
    ensures o.result.Ok? && fromId == toId ==> o.store == s
    ensures o.result.Ok? && fromId != toId ==>
              && OnlyBalancesChange(s, o.store)
              && o.store.accounts[fromId].balance == s.accounts[fromId].balance - amount
              && o.store.accounts[toId].balance == s.accounts[toId].balance + amount
              && o.store.accounts[fromId].balance >= 0
              && forall k :: k in s.accounts && k != fromId && k != toId ==> o.store.accounts[k] == s.accounts[k]
    // the two balances involved keep their sum
    ensures o.result.Ok? ==>
              o.store.accounts[fromId].balance + o.store.accounts[toId].balance ==
              s.accounts[fromId].balance + s.accounts[toId].balance
    ensures o.result.Ok? ==>
              o.result.value == TransferReport(fromId, toId, o.store.accounts[fromId].balance, o.store.accounts[toId].balance)
    ensures WellFormed(s) ==> WellFormed(o.store)
    ensures NonNegative(s) ==> NonNegative(o.store)
  {
    if fromId !in s.accounts || toId !in s.accounts then
      Outcome(s, Err(AccountNotFound))
    else if amount <= 0 then
      Outcome(s, Err(NonPositiveAmount))
    else if s.accounts[fromId].balance < amount then
      Outcome(s, Err(InsufficientFunds))
    else
      var from := s.accounts[fromId];
      var debited := s.accounts[fromId := from.(balance := from.balance - amount)];
      var to := debited[toId];
      var credited := debited[toId := to.(balance := to.balance + amount)];
      Outcome(Store(credited, s.nextId),
              Ok(TransferReport(fromId, toId, credited[fromId].balance, credited[toId].balance)))
  }

  /** Conservation: a transfer, successful or not, leaves the ledger's total unchanged. */
  lemma TransferTotal(s: Store, fromId: int, toId: int, amount: int)
    requires WellFormed(s)
    ensures Total(Transfer(s, fromId, toId, amount).store) == Total(s)
  {
    var o := Transfer(s, fromId, toId, amount);
    if o.result.Ok? && fromId != toId {
      var m := s.accounts;
      var debited := m[fromId := m[fromId].(balance := m[fromId].balance - amount)];
      SumPoint(m, debited, fromId, FirstId, s.nextId);
      SumPoint(debited, o.store.accounts, toId, FirstId, s.nextId);
    }
  }

  // ---------------------------------------------------------------------------
  // login

  /** Account `id` has `username` and its stored hash accepts `password`. */
  predicate LoginMatches(s: Store, id: int, username: string, password: string, checkpw: (string, Hash) -> bool) {
    id in s.accounts && s.accounts[id].username == username && checkpw(password, s.accounts[id].passwordHash)
  }

  /**
   After a successful create, logging in with the same username and password
   finds the new account and no other, provided the hash library accepts a
   password against its own hash.
   */
  lemma CreateThenLogin(s: Store, username: Option<string>, password: Option<string>,
                        initialBalance: Option<int>, currency: Option<string>,
                        hashpw: string -> Hash, checkpw: (string, Hash) -> bool)
    requires WellFormed(s)
    requires Create(s, username, password, initialBalance, currency, hashpw).result.Ok?
    requires checkpw(password.value, hashpw(password.value))
    ensures var o := Create(s, username, password, initialBalance, currency, hashpw);
            && LoginMatches(o.store, o.result.value.id, username.value, password.value, checkpw)
            && forall id :: LoginMatches(o.store, id, username.value, password.value, checkpw) ==> id == o.result.value.id
  {
  }
}
