# cashup back end: transfers, accounts and the token gate

cashup is a small money-transfer service: an Express and MongoDB back end
with three collections (users, banks, tokens). This project models its core
in Dafny:

- the transfer engine `transferBalance` (module `Bank`, `bank.dfy`). The
  balances are a map from the owning user's id to an integer number of cents.
  A ghost field records whether the request's database session was left open,
  aborted or committed.
- the user controller's `registerUser`, `loginUser`, `logoutUser`,
  `deleteUser` and `updateUser` (module `Accounts`, `accounts.dfy`). These are
  methods of a `Store` class whose fields are the three collections. Every
  method keeps three invariants:
  - usernames and e-mails are unique;
  - every user owns exactly one bank, and that bank points back at them;
  - every token belongs to an existing user.
- the bearer-token middleware `authenticate` (module `Auth`, `auth.dfy`). The
  token is extracted with a string model of JavaScript's `split(' ')[1]`. The
  decision is a pure function `Gate` over the token table, the users and the
  current instant, and the `Authenticate` method writes it into a `Request` object.
- the shared vocabulary (module `Common`, `common.dfy`): ids, documents, and
  the `ApiResponse` envelope with which every handler answers.

Values the environment supplies become parameters:

- bcrypt's compare is the store's `matches` relation. A hash is a parameter
  that `matches` accepts for its password.
- fresh ObjectIds and token strings are parameters not yet in use.
- the random part of the opening balance is a parameter `draw`.
- the clock is a parameter `now`, in milliseconds.

`findOne` with an `$or` filter may return any matching document. The
contracts therefore say what holds whichever document the database returns.

## Model

| member | source | states |
|---|---|---|
| Bank.Transfer | backend/src/controllers/bank.controller.ts:6-51 | The transfer succeeds exactly when there is a caller, the caller has an account, the amount does not exceed their balance, and the recipient has an account. It commits exactly when it succeeds. A failure leaves every balance as it was. Its receipt names caller, recipient and amount. The set of accounts and the sum of all balances never change. |
| Bank.Ledger.TransferBalance | backend/src/controllers/bank.controller.ts:6-51 | The imperative handler. Its reply, new balances and session state are those `Transfer` gives for the old balances. The total is conserved, and a failed reply changes nothing. |
| Bank.DebitCredit | backend/src/controllers/bank.controller.ts:40-41 | For distinct accounts, the two `$inc` updates lower the sender by `amount` and raise the recipient by `amount`. For the same account they cancel. No other account changes, and the total is preserved. |
| Bank.TotalRemove | backend/src/controllers/bank.controller.ts:40-43 | The total of all balances may be computed by taking out any one account first. |
| Bank.TotalUpdate | backend/src/controllers/bank.controller.ts:40-43 | Setting one balance changes the total by the difference. |
| Bank.ReplyOf | backend/src/controllers/bank.controller.ts:7-50 | The reply is a success with code 200 and the receipt exactly when the transfer succeeded. It is 403 exactly for a missing caller; every other failure is a 404 error. |
| Bank.NoCallerChangesNothing | backend/src/controllers/bank.controller.ts:7-11 | Without a caller, the reply is 403, no session is opened and no balance changes. |
| Bank.NoSenderAccountAborts | backend/src/controllers/bank.controller.ts:17-23 | A caller without an account aborts the transaction, and every balance stays. |
| Bank.InsufficientBalanceLeavesTxnOpen | backend/src/controllers/bank.controller.ts:25-29 | With too little money, the request fails whether or not the recipient exists. Balances stay, and the transaction is left open: neither aborted nor committed. |
| Bank.NoRecipientAborts | backend/src/controllers/bank.controller.ts:31-38 | An unknown recipient aborts the transaction, and the sender's balance is not debited. |
| Bank.TransferMovesAmount | backend/src/controllers/bank.controller.ts:40-43 | Between distinct accounts, the sender drops by `amount` and the recipient rises by `amount`. The pair's sum is kept, every other account is unchanged, and the transaction commits. |
| Bank.SelfTransferCancels | backend/src/controllers/bank.controller.ts:40-41 | Paying oneself succeeds and commits, and leaves every balance as it was. |
| Bank.NonNegativeAmountKeepsBalancesNonNegative | backend/src/controllers/bank.controller.ts:25-41 | With a non-negative amount, non-negative balances stay non-negative. |
| Bank.NegativeAmountDebitsRecipient | backend/src/controllers/bank.controller.ts:25-41 | The sign of the amount is never checked. A negative amount passes a solvent sender's balance check, raises the sender and lowers the recipient. |
| Bank.NegativeAmountHasNoFloor | backend/src/controllers/bank.controller.ts:25-41 | For any floor, some accepted amount drives the recipient below it. |
| Auth.Split | backend/src/middlewares/authenticate.ts:12 | `split` returns at least one piece. No piece contains the separator. There are two or more pieces exactly when the string contains the separator. |
| Auth.JoinSplit | backend/src/middlewares/authenticate.ts:12 | Joining the pieces gives back the string. |
| Auth.SplitCons | backend/src/middlewares/authenticate.ts:12 | A separator-free prefix followed by a separator splits off as the first piece. |
| Auth.SplitSingle | backend/src/middlewares/authenticate.ts:12 | A separator-free string is one piece. |
| Auth.SplitJoin | backend/src/middlewares/authenticate.ts:12 | Splitting the join of separator-free pieces gives back the pieces. |
| Auth.JoinFirstTwo | backend/src/middlewares/authenticate.ts:12 | A join is its first piece, a separator, its second piece, and then either nothing or a separator and the rest. |
| Auth.ExtractToken | backend/src/middlewares/authenticate.ts:11-12 | A token is extracted exactly when a header is present and contains a space. The token contains no space. |
| Auth.ExtractsBearerToken | backend/src/middlewares/authenticate.ts:11-12 | "scheme t" gives t, and so does "scheme t more". |
| Auth.ExtractedTokenIsSecondSegment | backend/src/middlewares/authenticate.ts:12 | Any extracted token is the second segment of the header: after a space-free scheme and one space, and followed by nothing or by a space. |
| Auth.Gate | backend/src/middlewares/authenticate.ts:11-27 | The gate refuses with 401 exactly when no non-empty token is extracted. It passes exactly when the token has a record whose expiry is now or later. On a pass it binds the token's owner when that user exists, and nobody otherwise. |
| Auth.GateRefusesMissingToken | backend/src/middlewares/authenticate.ts:13 | A missing header, a header without a second segment, or an empty second segment is refused with 401. |
| Auth.GateRefusesUnknownToken | backend/src/middlewares/authenticate.ts:20-25 | A token without a record is refused with 403. |
| Auth.GateExpiry | backend/src/middlewares/authenticate.ts:20 | A known token passes exactly when its expiry is now or later. A token expiring exactly now passes. |
| Auth.GateAcceptsBearer | backend/src/middlewares/authenticate.ts:12-28 | A live token sent as "Bearer t" binds the token's owner. |
| Auth.Authenticate | backend/src/middlewares/authenticate.ts:9-33 | It sends 401 or 403 as the gate decides, and then leaves the request untouched. Otherwise it sets `req.user` to the token's owner and calls `next` exactly once. |
| Accounts.Utf16Length | backend/src/controllers/user.controller.ts:10-27 | The length zod's `.min` measures, in UTF-16 code units as JavaScript counts them, is between the number of characters and twice it. |
| Accounts.BmpLength | backend/src/controllers/user.controller.ts:10-27 | Within the Basic Multilingual Plane, that length is the number of characters. |
| Accounts.UnitsBound | backend/src/controllers/user.controller.ts:10-27 | Each character counts as one or two code units. |
| Accounts.AstralCharactersCountTwice | backend/src/controllers/user.controller.ts:11 | Two characters outside the Basic Multilingual Plane are four code units, so they pass the three-unit username minimum. |
| Accounts.SchemaFieldsAreTruthy | backend/src/controllers/user.controller.ts:22-27 | An optional field that the update schema accepts is truthy exactly when it is supplied. |
| Accounts.PairingError | backend/src/controllers/user.controller.ts:216-222 | There is no error exactly when both password fields or neither are given. Each one-sided case gets its own message. |
| Accounts.FindOne | backend/src/controllers/user.controller.ts:36-37 | The `$or` query returns nothing exactly when no user has the username or the e-mail. Otherwise it returns some user that matches one of them. |
| Accounts.ReplaceUserKeepsInvariants | backend/src/models/user.model.ts:11-35 | Rewriting one user keeps the three invariants, provided their banks stay and nobody else has the new username or e-mail. |
| Accounts.AddUserKeepsUnique | backend/src/controllers/user.controller.ts:36-48 | Adding a user whose username and e-mail nobody has keeps both unique. |
| Accounts.AddUserKeepsLinks | backend/src/controllers/user.controller.ts:44-53 | A new user with a new bank of their own keeps users and banks linked. |
| Accounts.DeleteKeepsTokensOwned | backend/src/controllers/user.controller.ts:141-143 | After the user is deleted together with their tokens, every remaining token belongs to a remaining user, and each token removed was theirs. |
| Accounts.WithoutTokenList | backend/src/controllers/user.controller.ts:125 | `$unset` of the token list empties that one user's list, keeps the rest of their document, and leaves every other user and the set of users unchanged. |
| Accounts.WithoutTokenListKeepsInvariants | backend/src/controllers/user.controller.ts:125 | Clearing a user's token list keeps the three invariants. |
| Accounts.CollectReplacesGivenFields | backend/src/controllers/user.controller.ts:229-250 | Once the password fields are paired, the `updates` built field by field carry exactly the truthy fields. Writing them replaces exactly those fields of the user, the password by its new hash, and keeps the bank and token lists. |
| Accounts.BalancesByOwner | backend/src/controllers/bank.controller.ts:17-31 | The bank collection, keyed by owner as the transfer engine queries it, has one balance per user. Each bank's balance sits under its owner. |
| Accounts.TransferOnLinkedBanks | backend/src/controllers/bank.controller.ts:17-41 | On the balances of linked users and banks, a covered transfer succeeds. It debits the caller's own bank and credits the recipient's own bank. |
| Accounts.Store.RegisterUser | backend/src/controllers/user.controller.ts:29-64 | A schema failure gives one error, and a taken username or e-mail gives "User already exists". Registration succeeds exactly when the body is valid and neither is taken. A failure creates nothing. A success adds exactly one user and one bank linked to each other, with an opening balance between 1.00 and 1001.00, and leaves tokens alone. |
| Accounts.Store.CreateWithBank | backend/src/controllers/user.controller.ts:44-53 | It creates the user and the bank, and pushes the bank's id onto the new user's bank list. |
| Accounts.Store.CheckLogin | backend/src/controllers/user.controller.ts:67-87 | The refusals follow the handler's order. An invalid body gets the schema error. Neither username nor e-mail gets "Please provide username or email". No matching user gets "User does not exist". Once a matching user exists, the only refusal is "Invalid credentials", which means some matching user's password did not match. When every matching user's password matches, there is no refusal. |
| Accounts.Store.LoginUser | backend/src/controllers/user.controller.ts:66-104 | A failed login issues no token and changes nothing. An invalid body, a body with neither username nor e-mail, and an unknown user each get their own 400 reply. Once a user matches, the only failure is "Invalid credentials". When every matching user's password matches, login succeeds. A success returns a matching user whose password matched, a fresh token stored for that user that expires a day later, the user's banks and their balance. |
| Accounts.Store.GenerateToken | backend/src/utils/generateToken.ts:5-22 | It stores a token for the user that expires one day after now, and appends it to the user's token list. |
| Accounts.Store.ReplaceUser | backend/src/controllers/user.controller.ts:250 | The write replaces one user and keeps the invariants. |
| Accounts.Store.LogoutUser | backend/src/controllers/user.controller.ts:114-132 | No token gives 401 and an unknown token gives 404, both without change. Otherwise the token is deleted. Then either the caller's token list is cleared and the reply is 200, or, without a caller, the reply is 500. |
| Accounts.Store.DeleteUser | backend/src/controllers/user.controller.ts:134-146 | An unknown user gives 404 without change. Otherwise it removes the user, their first bank and every token they own. No remaining bank or token refers to them, and their profile is returned. |
| Accounts.Store.CheckUpdateForm | backend/src/controllers/user.controller.ts:185-199 | It refuses exactly unless there is a caller, the schema accepts the body and some field is given. The refusals come in the handler's order: 403, the schema, no field. |
| Accounts.Store.CheckUpdate | backend/src/controllers/user.controller.ts:185-236 | The refusals follow the handler's order: no caller 403, schema, no field, another user has the username or e-mail, password pairing, no such user, wrong current password. No refusal means every check passed. |
| Accounts.Store.UpdateUser | backend/src/controllers/user.controller.ts:184-259 | No caller gets 403; an invalid body and a body without fields get their own 400 replies. An escaping exception happens only when another user holds the supplied username or e-mail. It succeeds exactly when every check passes and no other user holds those values. A failure changes nothing. A success changes only the supplied fields, replacing the password by the new hash. The echo falls back to the stored values. |
| Accounts.RegisterThenLogin | backend/src/controllers/user.controller.ts:29-104 | On an empty store, registering with a valid body and then logging in with that username and password succeeds. The login hands out the given token for the new user and reports the opening balance. |

## Left out

- Concurrency and transaction isolation. Each transfer is one atomic step, and concurrent sessions are not modelled.
- Floating-point balances and `toFixed(2)`. Balances are integer cents.
- The coercion of `amount` from the request body. The amount is already an integer.
- Mongoose strict mode. The bank's owner field is read as the `userId` the controllers write and query; the bank model calls it `user`.
- Strings are sequences of Unicode scalar values. A lone UTF-16 surrogate, which a JSON body may carry, cannot be represented. Lengths are still counted in UTF-16 code units, as zod counts them.
- zod's e-mail syntax. It is an input flag `emailWellFormed`, and an accepted e-mail is taken to be non-empty.
- bcrypt's salting and hashing. Compare is the `matches` relation, and a hash is a parameter that it accepts.
- The random bytes of `generateToken` and its calendar arithmetic. The token is a parameter, and the expiry is exactly one day of milliseconds later, ignoring daylight-saving shifts.
- generateToken's catch-and-rethrow. Creating a token is taken to succeed.
- The tokens collection's TTL index, which removes expired token documents in the background.
- A token document without `expiresAt`. The token model writes `require` for `required`, but the model takes every token to have an expiry.
- A field missing from the body is sent in the `$or` filter as null, and no user matches null, since every user has both fields.
- `findOne`'s choice among several matching users. It is left to the database, and the contracts cover every choice.
- Accounts.Store.LoginUser: `Bank.findById` with the user's bank-id array finds the one bank the invariant guarantees, so the "Bank not found" reply cannot occur. The login reply reports the balance of that bank.
- Accounts.Store.DeleteUser: the reply's payload is the profile (id, username, e-mail). The user's bank and token lists and `deleteMany`'s count are not echoed.
- Accounts.Store.DeleteUser, Accounts.Store.UpdateUser: `if (!userId)` after `req.user._id` cannot be reached once there is a caller. Its 401 reply is not modelled.
- The framework's handling of an exception that escapes a handler is the single reply `Uncaught`. Examples are reading `_id` of a missing `req.user`, or a duplicate-key error from the unique indexes at updateUser's write.
- Auth.Authenticate: for a 403, the JSON body with its message is not modelled, only the status. The catch that turns a database error into a 403 is not modelled, because database lookups do not fail here.
- `searchUserViaFilter`: case-insensitive regular-expression search and `populate`. A thin read over the database.
- The frontend, the Express routing, the server start-up and the database connection.
