/**
 The banking service's request handlers acting on the shared ledger in place.

 `Bank` holds the accounts dictionary and the id counter as mutable fields.
 Each handler method validates its request in the order the service does,
 mutates the fields, and returns the response; its contract ties the new
 fields and the response to the transition of the same name in module
 Ledger, whose properties are proved there and in module Traces.

 The caller's account id, which the service reads from the access token,
 is a parameter; the password hashing library is passed in as `hashpw` and
 `checkpw`.
 */
module Bank {
  import Ledger

  class Bank {
    var accounts: map<int, Ledger.Account>
    var counter: int

    /** The fields, as the value the Ledger functions work on. */
    ghost function State(): Ledger.Store
      reads this
    {
      Ledger.Store(accounts, counter)
    }

    ghost predicate Valid()
      reads this
    {
      Ledger.WellFormed(State())
    }

    /** No accounts yet; the first id handed out is 1. */
    constructor ()
      ensures Valid()
      ensures State() == Ledger.Initial()
    {
      accounts := map[];
      counter := Ledger.FirstId;
    }

    method CreateAccount(username: Ledger.Option<string>, password: Ledger.Option<string>,
                         initialBalance: Ledger.Option<int>, currency: Ledger.Option<string>,
                         hashpw: string -> Ledger.Hash)
      returns (r: Ledger.Result<Ledger.Created>)
      requires Valid()
      modifies this
      ensures Valid()
      ensures var o := Ledger.Create(old(State()), username, password, initialBalance, currency, hashpw);
              State() == o.store && r == o.result
    {
      if !Ledger.Present(username) || !Ledger.Present(password) {
        return Ledger.Err(Ledger.MissingCredentials);
      }
      var usernames := set id | id in accounts :: accounts[id].username;
      if username.value in usernames {
        return Ledger.Err(Ledger.DuplicateUsername);
      }
      var hashed := hashpw(password.value);
      var balance := initialBalance.GetOr(Ledger.DefaultBalance);
      var cur := currency.GetOr(Ledger.DefaultCurrency);
      var id := counter;
      counter := counter + 1;
      accounts := accounts[id := Ledger.Account(hashed, username.value, balance, cur)];
      r := Ledger.Ok(Ledger.Created(id, balance, cur));
    }

    /**
     Scan the accounts in the order they were inserted, which is ascending id,
     and answer with the first whose username is `username` and whose stored
     hash accepts `password`.
     */
    method Login(username: string, password: string, checkpw: (string, Ledger.Hash) -> bool)
      returns (r: Ledger.Result<int>)
      requires Valid()
      ensures r.Ok? ==> Ledger.LoginMatches(State(), r.value, username, password, checkpw)
      // usernames are unique, so the id found is the only account with that name
      ensures r.Ok? ==> forall id :: id in accounts && accounts[id].username == username ==> id == r.value
      ensures r.Err? ==>
                && r.error == Ledger.BadLogin
                && forall id :: !Ledger.LoginMatches(State(), id, username, password, checkpw)
    {
      var id := Ledger.FirstId;
      while id < counter
        invariant Ledger.FirstId <= id <= counter
        invariant forall j :: j < id ==> !Ledger.LoginMatches(State(), j, username, password, checkpw)
      {
        var info := accounts[id];
        if info.username == username {
          if checkpw(password, info.passwordHash) {
            return Ledger.Ok(id);
          }
        }
        id := id + 1;
      }
      return Ledger.Err(Ledger.BadLogin);
    }

    method Deposit(id: int, amount: int) returns (r: Ledger.Result<Ledger.BalanceReport>)
      requires Valid()
      modifies this
      ensures Valid()
      ensures var o := Ledger.Deposit(old(State()), id, amount);
              State() == o.store && r == o.result
    {
      if id !in accounts {
        return Ledger.Err(Ledger.AccountNotFound);
      }
      if amount <= 0 {
        return Ledger.Err(Ledger.NonPositiveAmount);
      }
      accounts := accounts[id := accounts[id].(balance := accounts[id].balance + amount)];
      r := Ledger.Ok(Ledger.BalanceReport(id, accounts[id].balance));
    }

    method Withdraw(id: int, amount: int) returns (r: Ledger.Result<Ledger.BalanceReport>)
      requires Valid()
      modifies this
      ensures Valid()
      ensures var o := Ledger.Withdraw(old(State()), id, amount);
              State() == o.store && r == o.result
    {
      if id !in accounts {
        return Ledger.Err(Ledger.AccountNotFound);
      }
      if amount <= 0 {
        return Ledger.Err(Ledger.NonPositiveAmount);
      }
      if accounts[id].balance < amount {
        return Ledger.Err(Ledger.InsufficientFunds);
      }
      accounts := accounts[id := accounts[id].(balance := accounts[id].balance - amount)];
      r := Ledger.Ok(Ledger.BalanceReport(id, accounts[id].balance));
    }

    method Transfer(fromId: int, toId: int, amount: int) returns (r: Ledger.Result<Ledger.TransferReport>)
      requires Valid()
      modifies this
      ensures Valid()
      ensures var o := Ledger.Transfer(old(State()), fromId, toId, amount);
              State() == o.store && r == o.result
    {
      if fromId !in accounts || toId !in accounts {
        return Ledger.Err(Ledger.AccountNotFound);
      }
      if amount <= 0 {
        return Ledger.Err(Ledger.NonPositiveAmount);
      }
      if accounts[fromId].balance < amount {
        return Ledger.Err(Ledger.InsufficientFunds);
      }
      accounts := accounts[fromId := accounts[fromId].(balance := accounts[fromId].balance - amount)];
      accounts := accounts[toId := accounts[toId].(balance := accounts[toId].balance + amount)];
      r := Ledger.Ok(Ledger.TransferReport(fromId, toId, accounts[fromId].balance, accounts[toId].balance));
    }
  }
}
