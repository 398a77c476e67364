# Banking service ledger, modelled in Dafny

The service keeps every account in one in-memory dictionary, `accounts`, from an
integer id to a record holding the password hash, the username, the balance and
the currency. A global counter, `account_id_counter`, starts at 1 and supplies the
next id. Five request handlers act on this state: `create_account`, `login`,
`deposit`, `withdraw` and `transfer`. This project models that ledger and proves
what its handlers promise.

- `ledger.dfy`, module `Ledger`: the state as a value (`Store`: the accounts map
  and the counter). Each handler is a pure transition from a store to the next
  store plus the response (`Create`, `Deposit`, `Withdraw`, `Transfer`). Their
  contracts give the order of the error checks and show that an error leaves the
  store as it was. On success they give the exact new state, and they show that
  the store invariant (`WellFormed`) and non-negative balances are kept. Lemmas
  relate each transition to `Total`, the sum of all balances.
- `bank.dfy`, module `Bank`: class `Bank` with the two mutable fields `accounts`
  and `counter`. Each handler is a method that checks the request in the
  service's order and updates the fields in place. Its contract ties the new
  fields and the response to the `Ledger` transition. `Login` is a loop over the
  accounts in insertion order (ascending id) that returns on the first match.
- `traces.dfy`, module `Traces`: histories of requests. Any history keeps the
  store well formed (ids are exactly 1..counter-1, usernames unique). The total
  changes only by what creates, deposits and withdrawals bring in or take out, so
  transfers conserve it. Balances stay non-negative when no create asked for a
  negative balance. The ids handed out are strictly increasing and never reused,
  and an account's username, hash and currency never change. A lemma also works
  through one walk-through (alice, bob, a transfer, a refused withdrawal).

Amounts are integers (minor units). Error responses are constructors of
`Ledger.Error`: `MissingCredentials`, `DuplicateUsername`, `BadLogin`,
`AccountNotFound`, `NonPositiveAmount` and `InsufficientFunds`.

The model follows the code where a fuller ledger design would differ:
- `create_account` accepts a negative `initial_balance` (`main.py:54,57`).
- `transfer` accepts a transfer to the same account, which leaves that balance
  unchanged (`main.py:154-164`).
- Amount errors are reported as "must be positive", not as a general invalid
  argument.
- There are no locks around the shared globals. The handlers are modelled as
  running one at a time.

So non-negative balances are proved as a preserved invariant, under the
assumption that every create was given a non-negative balance.

## Model

| member | source | states |
|---|---|---|
| `Ledger.Initial` | main.py:43-44 | The starting ledger has no accounts and the counter at 1. It is well formed, has no negative balance, and its total is 0. |
| `Ledger.Create` | main.py:49-80 | A missing or empty username or password gives `MissingCredentials` (iff). Next, a name already held gives `DuplicateUsername` (iff). The create succeeds exactly when both credentials are present and the name is free. Every error leaves the store unchanged. On success the record is stored under the old counter value and the counter grows by 1. Absent fields default to balance 0 and currency "USD". Other accounts are untouched. The new id was free and is above every existing id. Well-formedness (unique usernames) is kept, and non-negativity is kept when the initial balance is non-negative. |
| `Ledger.CreateTotal` | main.py:66-73 | A successful create adds its initial balance to the ledger's total. A failed one adds nothing. |
| `Ledger.CreateThenLogin` | main.py:64-93 | Suppose the hash library accepts a password against its own hash. Then after a successful create, the new account matches a login with the same username and password, and no other account does. `Bank.Bank.Login` therefore returns the new id. |
| `Ledger.Deposit` | main.py:101-117 | An unknown id gives `AccountNotFound`, then an amount of 0 or less gives `NonPositiveAmount` (each iff). Errors leave the store unchanged. On success only that balance changes, and it grows by exactly `amount`. The response carries the new balance. Well-formedness and non-negativity are kept. |
| `Ledger.DepositTotal` | main.py:112 | A successful deposit adds exactly `amount` to the ledger's total. |
| `Ledger.Withdraw` | main.py:123-142 | The checks run in order: not found, non-positive amount, then balance below amount (`InsufficientFunds`), each iff. Errors leave the store unchanged. Success happens exactly when 0 < amount <= balance. Only that balance changes, it drops by exactly `amount`, and the result is never negative. Well-formedness and non-negativity are kept. |
| `Ledger.WithdrawTotal` | main.py:137 | A successful withdrawal removes exactly `amount` from the ledger's total. |
| `Ledger.Transfer` | main.py:148-178 | Either id unknown gives `AccountNotFound`, checked before any change. Then a non-positive amount, then a source balance below the amount, each iff. Errors leave the store unchanged. For distinct ids, the source drops by `amount`, the destination grows by `amount`, the source stays non-negative, and all other accounts are untouched. For the same id the store is unchanged. The sum of the two balances is kept. The response carries both new balances. Well-formedness and non-negativity are kept. |
| `Ledger.TransferTotal` | main.py:163-164 | Conservation: a transfer leaves the total of all balances unchanged. |
| `Bank.Bank.constructor` | main.py:43-44 | A new bank holds the starting ledger: no accounts, counter 1. |
| `Bank.Bank.CreateAccount` | main.py:49-80 | Updates the fields in place exactly as `Ledger.Create` describes and returns its response. The invariant is kept. |
| `Bank.Bank.Login` | main.py:85-95 | On success the returned id has the given username and a hash that accepts the password, and no other account has that username. On failure the result is `BadLogin` and no account matches. |
| `Bank.Bank.Deposit` | main.py:101-117 | Updates the fields in place exactly as `Ledger.Deposit` describes and returns its response. The invariant is kept. |
| `Bank.Bank.Withdraw` | main.py:123-142 | Updates the fields in place exactly as `Ledger.Withdraw` describes and returns its response. The invariant is kept. |
| `Bank.Bank.Transfer` | main.py:148-178 | Debits, then credits, in place exactly as `Ledger.Transfer` describes and returns its response. The invariant is kept. |
| `Traces.IssuedId` | main.py:66-67 | A request hands out at most one id. That id is the old counter value, and the counter grows by the number of ids handed out. |
| `Traces.StepTotal` | main.py:66-164 | One request changes the total by exactly the money it brings in: the initial balance of a create, plus a deposit, minus a withdrawal, 0 for a transfer. |
| `Traces.RunWellFormed` | main.py:57-73 | After any history, ids are exactly 1..counter-1, usernames are non-empty, and no two accounts share a username. |
| `Traces.RunTotal` | main.py:66-164 | After any history, the total equals the starting total plus the net money brought in by successful creates, deposits and withdrawals. |
| `Traces.TransfersConserveTotal` | main.py:160-164 | A history of transfers only leaves the total of all balances unchanged. |
| `Traces.RunNonNegative` | main.py:109-164 | If no create asked for a negative balance, a history that starts with no negative balance ends with none. |
| `Traces.RunKeepsAccounts` | main.py:68-164 | Accounts are never removed and the counter never shrinks. An account's username, password hash and currency never change. |
| `Traces.CreatedIdsIncrease` | main.py:66-67 | The ids a history hands out are strictly increasing and lie between the counter before and after it. The counter grows by exactly their number. |
| `Traces.CreatedIdsFresh` | main.py:66-68 | No id a history hands out belonged to an account before, and each names an account afterwards. |
| `Traces.Walkthrough` | main.py:49-178 | alice is created with 100 and deposits 50 (balance 150). bob is created with 0. A transfer of 150 leaves alice with 0 and bob with 150. A further withdrawal of 1 from alice fails with `InsufficientFunds` and changes nothing. |

## Left out

- HTTP routing, JSON parsing, status codes and `jsonify`: transport only. Each
  error response is a `Ledger.Error` constructor. Each success response is a
  result datatype.
- JWT issuing and `get_jwt_identity` (`main.py:92, 104, 126, 152`): the caller's
  account id is a method parameter, and a successful login returns the id that
  the token would carry.
- bcrypt: `hashpw(password, gensalt())` is the parameter `hashpw`. It is a
  function, so one call's random salt is fixed inside it. `checkpw` is the
  parameter `checkpw`.
- Rate limiting, logging to `transactions.log`, the Swagger blueprint, `dotenv`
  and `app.run`: I/O and configuration with no ledger logic.
- Concurrency: `app.run` starts a server that handles requests on several
  threads, and the handlers update the shared globals without locks. The model
  runs the handlers one at a time. Id freshness and username uniqueness
  (`Traces.RunWellFormed`, `Traces.CreatedIdsIncrease`, `Traces.CreatedIdsFresh`)
  are therefore proved for serial execution only. Two creates that run at the
  same time can both read the counter before either one advances it
  (`main.py:66-67`). They then get the same id, and the second record overwrites
  the first. Likewise, a username check (`main.py:59-61`) that races with
  another insert (`main.py:68`) can store a duplicate username.
- Floating-point amounts: amounts and balances are integers, so rounding is not
  modelled.
- Request fields that are not strings or integers are not modelled. This covers
  a JSON `null` where a default would apply, a missing or non-numeric `amount`,
  and a missing `password` at login together with an existing username: in the
  service these raise or store `None`. At login an absent username matches no
  account, just like an unknown name, so `Login` takes plain strings.
