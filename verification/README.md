# bank-app ledger and authentication, modelled in Dafny

This project models the core of a NestJS banking back end: the account ledger
(`AccountService` and its copy `TransactionService`), the validation rules on the
account request bodies, the token bookkeeping of `AuthService`, and the request
guard `AuthGuard`. It then proves what these promise.

A user holds at most one CURRENT and one SAVINGS account. Each account lives in its
own table, `current_account` or `savings_account`. Money moves by deposit (to
SAVINGS), withdrawal (from CURRENT) and transfer (from the caller's SAVINGS to any
CURRENT account, found by its account number). Login issues a pair of an access
token and a refresh token. A refresh spends the refresh token for good. Every
account endpoint is behind the guard, which checks the access token against the
`x-client-id` header.

Layout:

- `results.dfy` (`Results`): `Option` and `Result`. They stand for `undefined`/`null`
  and for thrown exceptions.
- `ids.dfy` (`Ids`): primary-key order and the least key of a set.
- `ledger.dfy` (`Ledger`): accounts, the two tables, row filters, and every query
  and write of `AccountService` as a function from the tables before to a result
  and the tables after.
- `ledger_properties.dfy` (`LedgerProperties`): the ledger's guarantees, stated over
  the rows.
- `account_service.dfy` (`Accounts`): class `AccountService`. It holds the two
  tables as `map` fields. Its writes are methods, each proved to end in the state
  the `Ledger` function gives.
- `transaction_service.dfy` (`Transactions`): class `TransactionService` on top of
  an `AccountService`, and `CopiesAgree`, which shows the two copies give the same
  results and the same tables.
- `account_dto.dfy` (`AccountDto`): the class-validator rules of the request bodies,
  and how a valid body becomes a ledger request.
- `auth.dfy`, `auth_properties.dfy`, `auth_service.dfy` (`Auth`, `AuthProperties`,
  `AuthServices`): users, current token pairs, used refresh tokens, and class
  `AuthService`.
- `auth_guard.dfy` (`Guard`): `split(' ')`, header extraction and `canActivate`.

Modelling choices:

- **Which row `findOne` returns.** When several rows match, the database does not
  say which row `findOne` returns. The model takes the first one in primary-key
  order, which is the order a MySQL (InnoDB) table scan visits rows in. That order
  is the least id under character-code order (`Ids.LeastKey`). This makes every
  query a function, so the two service copies can be compared exactly.
- **The balance column.** `balance` is a MySQL `int`. An update to a value outside
  [-2^31, 2^31-1] fails (`ValueOutOfRange`) and changes nothing.
- **Rows affected.** An UPDATE reports the rows it matched. Writing an unchanged
  balance still reports 1.
- **External services.** `jwt.verify` and `bcrypt.compare` are functions given to
  the service classes. The tokens that login and refresh issue, the bcrypt hash,
  the generated account ids, the id register's `save` writes and the generated
  account number are parameters of the operations.
- **Transfer's table choice.** `transfer` looks the two accounts up in the tables
  its request names. It always writes the sender to SAVINGS and the receiver to
  CURRENT. `TransferMovesAmount` proves that the sum is conserved when ids are
  unique across the tables, or when the request has the types `TransferDto`
  admits. `ValidTransferConserves` ties this to a valid body.

Behaviour of the code worth knowing, each proved about the model:

- Balances are not kept non-negative. Amounts are only required to be present, so
  a deposit of -50 on an empty account leaves -50 (`NegativeDepositOverdraws`).
- The duplicate check of createAccount looks up the caller, but the saved row takes
  `userId` from the body. A second account of one type for the owner the body
  names is then refused by the unique index on `userId` (the `@OneToOne` join
  column), as a database error rather than the 400 of the check
  (`CreateForOwnerWithAccountRefused`). Either way nobody ends up with two rows in
  one table (`CreateKeepsOwnersUnique`).
- `ReceiverDto` does not declare `accountNumber`, so a valid transfer body may omit
  it. TypeORM then drops the condition and the receiver is the first CURRENT row
  (`ReceiverWithoutNumber`, `TransferWithoutNumberPaysFirstRow`).
- Account numbers are neither collision-checked nor unique in the schema.
- Header values are plain strings. Node joins a repeated custom header into one
  string with ", ", which the guard then compares like any other value.

## Model

| member | source | states |
|---|---|---|
| Ledger.Route | src/modules/account/account.service.ts:19-22 | the repository map: a type string names a table only when it is that table's name |
| LedgerProperties.RouteNamesExactlyTwoTables | src/modules/account/account.service.ts:19-22 | exactly "CURRENT" and "SAVINGS" name a table, and each table's name routes to it |
| Ledger.FirstMatch | src/modules/account/account.service.ts:24-32 | findOne finds nothing exactly when no row matches; otherwise it finds a matching row, the first in primary-key order |
| Ledger.FindOne | src/modules/account/account.service.ts:25-29 | findOne returns nothing exactly when no row matches the filter; otherwise a stored row that matches it |
| Ledger.GetAccountBy | src/modules/account/account.service.ts:24-32 | an unknown type fails (no repository); otherwise a stored matching row of the named table, or nothing exactly when no row of it matches |
| Ledger.GetSingleAccount | src/modules/account/account.service.ts:34-41 | a returned row matches the filter and belongs to the caller; for a known type every failure is Unauthorized |
| Ledger.GetAccountById | src/modules/account/account.service.ts:43-52 | a returned row is a stored row with that id; in a table keyed by id a row is found exactly when the id is present |
| Ledger.GetAllBy | src/modules/account/account.service.ts:60-69 | an unknown type fails; otherwise exactly the stored rows of the routed table that match the filter and carry its type, where a type the filter names itself wins over the routed one |
| LedgerProperties.GetAllByFilterTypeWins | src/modules/account/account.service.ts:60-69 | a filter naming SAVINGS, sent to the CURRENT table, finds nothing at all |
| Ledger.GetAllAccounts | src/modules/account/account.service.ts:71-84 | a result is never empty and holds only the user's stored rows; the only failures are an unknown type and 'No accounts found' |
| LedgerProperties.FindOneByKey | src/modules/account/account.service.ts:43-52 | a lookup by id finds the row with that id when it matches, and nothing otherwise |
| LedgerProperties.GetSingleAccountReturnsCallersRow | src/modules/account/account.service.ts:34-41 | getSingleAccount returns only a stored row of the caller that matches the filter; an unknown type fails before any lookup |
| LedgerProperties.GetSingleAccountOnlyOwnRow | src/modules/account/account.service.ts:34-41 | by id, it succeeds exactly when the caller owns the row; a missing row and another user's row are both Unauthorized |
| Ledger.ValidateAccountType | src/modules/account/account.service.ts:54-58 | passes exactly the two type names; anything else is 'Invalid account type' |
| Ledger.FindAll | src/modules/account/account.service.ts:60-69 | find returns exactly the rows that match the filter |
| LedgerProperties.GetAllAccountsOwnedRows | src/modules/account/account.service.ts:71-84 | getAllAccounts returns exactly the user's rows of the table; none at all is Unauthorized 'No accounts found' |
| Ledger.CreateAccount | src/modules/account/account.service.ts:86-111 | every refusal of createAccount, including the insert refused by a unique key, leaves both tables unchanged |
| LedgerProperties.CreateRefusesSecondAccount | src/modules/account/account.service.ts:93-102 | 'Can only have one account with this type' exactly when the caller owns a row of the table; nothing is inserted |
| LedgerProperties.CreateInsertsOneRow | src/modules/account/account.service.ts:104-110 | past the caller check, the save succeeds exactly when the key is free and the body's owner has no row in the table; it then adds exactly one row (new id and account number, owner and type of the body, balance 0); otherwise the unique index refuses it with nothing changed; the other table is untouched |
| LedgerProperties.CreateKeepsOwnersUnique | src/modules/account/account.service.ts:86-111 | whoever the body names, no user ends up with two rows in one account table |
| LedgerProperties.CreateForOwnerWithAccountRefused | src/modules/account/account.service.ts:93-108 | a caller without a CURRENT account naming a user who has one passes the check, and the insert is refused with nothing changed |
| LedgerProperties.CreatePreservesValid | src/modules/account/account.service.ts:104-108 | with a fresh id, rows stay keyed by id, balances fit the int column, row types match their table, owners stay unique per table, ids stay distinct across tables |
| Ledger.UpdateBalance | src/modules/account/account.service.ts:113-121 | the UPDATE matches at most one row: 0 exactly when the id is absent, refused exactly when the id is present and the value does not fit the int column, otherwise that row alone gets the new balance; the other table never changes |
| Ledger.AfterUpdate | src/modules/account/account.service.ts:146-152 | a refused update or zero matched rows fails (NotFound for zero rows, the refused tables restored); otherwise the re-read row has the updated id |
| Accounts.AccountService.AccountQuery | src/modules/account/account.service.ts:113-121 | the balance UPDATE by id: 0 rows when the id is absent, an out-of-range value refused, otherwise that one row rewritten |
| Accounts.AccountService.CreateAccount | src/modules/account/account.service.ts:86-111 | ends with the result and tables Ledger.CreateAccount gives, and keeps the tables valid for a fresh id |
| Ledger.Deposit | src/modules/account/account.service.ts:123-153 | every refusal of deposite leaves both tables unchanged |
| LedgerProperties.DepositNeedsOwnedAccount | src/modules/account/account.service.ts:125-135 | 'Account not found' exactly when the caller owns no row with that id |
| LedgerProperties.DepositAddsAmount | src/modules/account/account.service.ts:137-152 | the row's balance becomes balance + amount and the re-read row is returned; no other row changes; an out-of-range sum is refused |
| LedgerProperties.DepositPreservesValid | src/modules/account/account.service.ts:123-153 | deposite keeps the tables valid |
| Accounts.AccountService.Deposite | src/modules/account/account.service.ts:123-153 | ends with the result and tables Ledger.Deposit gives, and keeps the tables valid |
| Ledger.Withdraw | src/modules/account/account.service.ts:155-183 | every refusal of withdraw leaves both tables unchanged |
| LedgerProperties.WithdrawRefusals | src/modules/account/account.service.ts:157-167 | Unauthorized exactly when the caller owns no such row; then 'Insufficient funds' exactly when balance < amount |
| LedgerProperties.WithdrawSubtractsAmount | src/modules/account/account.service.ts:169-182 | with enough funds (the amount may equal the balance) the balance becomes balance - amount, never negative, and the re-read row is returned |
| LedgerProperties.WithdrawPreservesValid | src/modules/account/account.service.ts:155-183 | withdraw keeps the tables valid |
| Accounts.AccountService.Withdraw | src/modules/account/account.service.ts:155-183 | ends with the result and tables Ledger.Withdraw gives, and keeps the tables valid |
| Ledger.Transfer | src/modules/account/account.service.ts:185-234 | every failure of transfer is rolled back: both tables end as they began |
| LedgerProperties.TransferRefusalOrder | src/modules/account/account.service.ts:197-225 | Forbidden when the caller's savings id equals the receiver's id, then NotFound for a missing account, then 'Insufficient funds'; past those, a balance outside the int column is refused, an update that matched no row is NotFound, and otherwise the transfer commits; every failure leaves the tables unchanged |
| LedgerProperties.TransferSucceeds | src/modules/account/account.service.ts:197-227 | with the types TransferDto admits, a found receiver other than the caller's savings account, an owned sender row covering the amount and new balances that fit, the transfer succeeds |
| LedgerProperties.TransferOfHundred | src/modules/account/account.service.spec.ts:343-381 | 200 in savings and 100 in current, a transfer of 100 succeeds and leaves 100 and 200 |
| LedgerProperties.ReceiverWithoutNumber | src/modules/account/account.service.ts:193-198 | without an account number the receiver lookup finds a row exactly when the table has one, and it is the row with the least key |
| LedgerProperties.TransferGuardWithNoSavingsAccount | src/modules/account/account.service.ts:200-202 | a caller without a savings account naming an unknown account number is Forbidden, since both ids are absent and compare equal |
| LedgerProperties.TransferMovesAmount | src/modules/account/account.service.ts:211-227 | a successful transfer debits the caller's SAVINGS row and credits the CURRENT row by the same amount, changes no other row, and conserves the two balances' sum |
| LedgerProperties.TransferPreservesValid | src/modules/account/account.service.ts:185-234 | transfer keeps the tables valid |
| Accounts.AccountService.TransferSteps | src/modules/account/account.service.ts:190-227 | the try block reports the error or success Ledger.Transfer gives, and on success leaves its tables |
| Accounts.AccountService.RestoreTo | src/modules/account/account.service.ts:228-230 | rolling back restores the tables saved when the transaction started |
| Accounts.AccountService.Transfer | src/modules/account/account.service.ts:185-234 | ends with the result and tables Ledger.Transfer gives; any failure leaves the tables as they were; keeps them valid |
| Transactions.TransactionService.Deposite | src/modules/transaction/transaction.service.ts:14-44 | the copy of deposite ends with the result and tables Ledger.Deposit gives |
| Transactions.TransactionService.Withdraw | src/modules/transaction/transaction.service.ts:46-74 | the copy of withdraw ends with the result and tables Ledger.Withdraw gives |
| Transactions.TransactionService.TransferSteps | src/modules/transaction/transaction.service.ts:81-118 | the copy's try block reports what Ledger.Transfer reports |
| Transactions.TransactionService.Transfer | src/modules/transaction/transaction.service.ts:76-125 | the copy of transfer ends with the result and tables Ledger.Transfer gives |
| Transactions.CopiesAgree | src/modules/transaction/transaction.service.ts:14-125 | from equal tables, the two services' deposite, withdraw and transfer give equal results and leave equal tables |
| AccountDto.CreateAccountDtoAdmits | src/dto/account.dto.ts:4-11 | a valid CreateAccountDto has a non-empty userId and a type of SAVINGS or CURRENT |
| AccountDto.ToCreateRequest | src/dto/account.dto.ts:4-11 | a valid body always names a table, so createAccount never meets an unknown type |
| AccountDto.TransactionBodiesByType | src/dto/account.dto.ts:48-82 | DepositDto is TransactionDto limited to SAVINGS, WithdrawDto is it limited to CURRENT, and TransactionDto admits exactly their union |
| AccountDto.WrongTypeRefused | src/dto/account.dto.ts:48-70 | a CURRENT deposit body and a SAVINGS withdraw body are refused |
| AccountDto.ToTransactionRequest | src/dto/account.dto.ts:72-82 | a valid TransactionDto names a table and a non-empty account id |
| AccountDto.AmountSignUnchecked | src/dto/account.dto.ts:33-82 | amountMoney only has to be present: zero and negative amounts pass every body |
| AccountDto.ToTransferRequest | src/dto/account.dto.ts:13-46 | a valid TransferDto makes the transfer look in SAVINGS for the sender and CURRENT for the receiver, with the receiver's account number as sent or absent |
| AccountDto.ValidTransferConserves | src/dto/account.dto.ts:13-46 | for every valid TransferDto, with or without an account number, success moves the amount from the caller's savings row to the receiver's row, conserving their sum |
| AccountDto.TransferWithoutNumberPaysFirstRow | src/dto/account.dto.ts:24-31 | a valid transfer body without an account number pays the CURRENT row with the least key |
| AccountDto.NegativeTransferTakesFromReceiver | src/dto/account.dto.ts:44-45 | a valid transfer of -50 between 200 and 100 leaves 250 and 50 |
| AccountDto.NegativeDepositOverdraws | src/dto/account.dto.ts:52-53 | a valid deposit of -50 on a balance of 0 leaves -50 |
| Auth.UserByEmail | src/modules/user/user.service.ts:14-22 | getUserByEmail finds nothing exactly when no user has the email; otherwise a stored user with that email |
| Auth.GetUserByUserId | src/modules/user/user.service.ts:24-47 | NotFound exactly when no user has the id; otherwise that user without its password |
| Auth.VerifyTokenTryCatch | src/modules/auth/auth.service.ts:71-81 | a verified token yields its payload's userId; 'jwt expired' becomes 'Token is expired', any other error 'Invalid access token' |
| Auth.Register | src/modules/auth/auth.service.ts:163-179 | a refused register (taken email, falsy hash, or an insert without the NOT NULL `identification`) changes nothing; token pairs and used tokens are never touched |
| AuthProperties.RegisterRefusesTakenEmail | src/modules/auth/auth.service.ts:164-168 | 'User already exists' exactly when some user has the email, with nothing stored |
| AuthProperties.RegisterRefusesFailedHash | src/modules/auth/auth.service.ts:170-173 | with a free email, 'Bcrypt hash error' exactly when the hash is falsy, with nothing stored |
| AuthProperties.RegisterStoresUser | src/modules/auth/auth.service.ts:170-178 | with a free email and a truthy hash, the save is refused exactly when it inserts a new row without `identification`; otherwise the user with the hash is written under the saved id (a new row, or over the user the body's `id` names) and returned without its password |
| AuthProperties.RegisterDtoExactBodyRefused | src/modules/user/user.service.ts:49-52 | a body carrying only the fields RegisterUserDto declares inserts a row without `identification`, which is refused with nothing stored |
| AuthProperties.RegisterPreservesUsers | src/modules/auth/auth.service.ts:163-179 | register keeps users keyed by id and emails unique, also when the body's `id` overwrites an existing user |
| AuthServices.AuthService.Register | src/modules/auth/auth.service.ts:163-179 | ends with the result and state Auth.Register gives |
| Auth.Login | src/modules/auth/auth.service.ts:38-69 | a refused login changes nothing; users and used tokens are never touched |
| AuthProperties.LoginSucceedsForMatchingUser | src/modules/auth/auth.service.ts:40-68 | login succeeds exactly when the password matches the stored hash; it returns the user without password plus the issued pair, which replaces the user's previous pair; otherwise NotFound |
| AuthProperties.LoginUnknownEmail | src/modules/auth/auth.service.ts:40-43 | an email no user has is NotFound |
| AuthServices.AuthService.Login | src/modules/auth/auth.service.ts:38-69 | ends with the result and state Auth.Login gives |
| Auth.UsedBy | src/modules/auth/auth.service.ts:106-110 | the used tokens found for a user are exactly the recorded ones with that userId |
| AuthServices.AuthService.RejectIfUsed | src/modules/auth/auth.service.ts:111-115 | the loop refuses with 'Please relogin' exactly when some record holds the presented refresh token |
| Auth.Refresh | src/modules/auth/auth.service.ts:82-134 | a refused refresh changes nothing; users are never touched |
| AuthProperties.RefreshNeedsCurrentPair | src/modules/auth/auth.service.ts:92-102 | tokens other than the user's current pair are 'Forbidden' |
| AuthProperties.RefreshRejectsUsedToken | src/modules/auth/auth.service.ts:106-115 | a refresh token recorded as used always fails; past the earlier checks it is 'Please relogin' |
| AuthProperties.RefreshSpendsToken | src/modules/auth/auth.service.ts:117-128 | success appends the presented token to the used list and makes the issued pair current |
| AuthProperties.UsedOnlyGrows | src/modules/auth/auth.service.ts:117-120 | no sequence of registers, logins and refreshes removes a used token |
| AuthProperties.ReplayAlwaysRejected | src/modules/auth/auth.service.ts:82-134 | after a refresh by a user succeeds with a token, every later refresh by that user with that token fails, whatever happens in between |
| AuthServices.AuthService.RefreshToken | src/modules/auth/auth.service.ts:82-134 | ends with the result and state Auth.Refresh gives |
| AuthProperties.ValidateNeedsBothTokens | src/modules/auth/auth.service.ts:137-139 | a missing or empty token is Forbidden |
| AuthProperties.ValidateChecksUserBeforePair | src/modules/auth/auth.service.ts:151-157 | a missing user is NotFound even when the pair is missing too |
| AuthProperties.ValidateAcceptsCurrentPair | src/modules/auth/auth.service.ts:136-161 | validate succeeds exactly for a stored user whose current pair is the presented one, and returns it without its password |
| Auth.Validate | src/modules/auth/auth.service.ts:136-161 | a missing or empty token is Forbidden; a success means the access token verifies to a stored user whose current pair is the presented one, and returns that user without its password |
| AuthServices.AuthService.Validate | src/modules/auth/auth.service.ts:136-161 | returns what Auth.Validate gives and changes nothing |
| Guard.Split | src/modules/auth/auth.guard.ts:56 | split(' ') always yields at least one piece |
| Guard.JoinSplit | src/modules/auth/auth.guard.ts:56 | joining the pieces with single spaces gives back the header |
| Guard.SplitPiecesHaveNoSpace | src/modules/auth/auth.guard.ts:56 | no piece contains a space |
| Guard.SplitNoSpace | src/modules/auth/auth.guard.ts:56 | a string without spaces is a single piece |
| Guard.SplitAtSpace | src/modules/auth/auth.guard.ts:56 | a space-free prefix and a space split off as the first piece |
| Guard.ExtractTokenFromHeader | src/modules/auth/auth.guard.ts:47-62 | without an Authorization header both values are absent; otherwise the user id is the truthy x-client-id header, and a token has no spaces |
| Guard.BearerTokenExtracted | src/modules/auth/auth.guard.ts:56-61 | in 'scheme token' the token is the part after the space |
| Guard.HeaderWithoutSpaceHasNoToken | src/modules/auth/auth.guard.ts:56-61 | a header with no space gives no token |
| Guard.MissingHeaderRejected | src/modules/auth/auth.guard.ts:22-25 | without an Authorization header the request is Unauthorized |
| Guard.AdmitsOnlyTheNamedUser | src/modules/auth/auth.guard.ts:26-44 | the guard admits exactly a token verified for the x-client-id user who exists, and attaches that user without password |
| Guard.Decide | src/modules/auth/auth.guard.ts:20-45 | admits exactly when a token is present, verifies to the id the x-client-id header names, and that user exists; it yields that user without its password |
| Guard.AuthGuard.CanActivate | src/modules/auth/auth.guard.ts:20-45 | returns true and attaches the user when the decision admits; otherwise Unauthorized with the request untouched |

## Left out

- Controllers, Nest modules, bootstrap, cookies and response wrapping are not modelled. They route requests and format replies.
- HTTP status codes are not modelled. An exception is modelled by its kind and message.
- `transfer`'s catch rethrows as `HttpException(err.message, err.status)`. The model keeps the original error kind.
- Connecting and releasing the query runner are not modelled.
- Concurrency is not modelled: each operation runs alone and in one step. Deposit and withdraw read and then write outside a transaction, so under concurrent requests their updates can be lost; the model does not capture that.
- Amounts are integers. JavaScript numbers are floating point. Non-integer amounts, and amounts sent as strings (where `+` would concatenate), are not modelled.
- Ledger.CreateAccount: models only the declared `userId` and `type` of the body. The body is spread into the saved row and the validation pipe keeps undeclared properties, so a body carrying `id`, `accountNumber` or `balance` would also set those; that is not modelled.
- Ledger.GetAllAccounts: takes `userId` as given. The controller passes `req.user.userId`, but the guard's user has `id` and no `userId`, so the value is `undefined`, TypeORM drops it from the filter and every row of the table comes back. That route (`:typeAccount/:userId`) is also shadowed by the earlier `:typeAccount/:accountId` route (src/modules/account/account.controller.ts:13,31). Neither the controller nor that call is modelled.
- Auth.Refresh: takes the refresh token as a string. An absent `refreshToken` cookie reaches refreshToken as `undefined`: its findOne (src/modules/auth/auth.service.ts:92-98) drops that field and matches the current pair on userId and access token alone, and `verifyTokenTryCatch(undefined, …)` (:104) then fails with 'Invalid access token' (:78). The model does not represent that `undefined`. (validate, by contrast, refuses a missing token with Forbidden before any lookup, and Auth.Validate models that.)
- Other `id` lookups take their values from `@IsNotEmpty` fields, so they are present. The absent receiver account number is modelled.
- Ledger.Matches: compares strings exactly. The collation of the columns is not set in the code (src/app.module.ts configures none), so the server's default decides; under MySQL's default `_ci` collations a filter also matches rows that differ in letter case or accents, and under PAD SPACE collations (such as MySQL 5.7's `utf8mb4_general_ci`) in trailing spaces.
- Ledger.FirstMatch: finds matches by exact string equality; see Ledger.Matches for the collation it does not model.
- Ledger.FindOne: matches by exact string equality; case and accent variants a `_ci` collation would also match are not found.
- Ledger.FindAll: matches by exact string equality; case and accent variants a `_ci` collation would also return are left out.
- Ledger.OwnersUnique: distinguishes owner ids by exact equality; a unique index under a `_ci` collation also refuses an owner id that differs only in case or accents.
- LedgerProperties.CreateInsertsOneRow: the unique-index refusal is stated for exactly equal keys and owners; a `_ci` collation refuses case and accent variants too.
- Auth.UserByEmail: compares emails exactly; under a `_ci` collation `getUserByEmail` also finds an email that differs only in case or accents.
- Auth.EmailsUnique: stated with exact equality, so two emails differing only in case or accents count as different.
- AuthProperties.RegisterRefusesTakenEmail: 'User already exists' is stated for an exactly equal email; a case or accent variant would also be refused under a `_ci` collation.
- AuthProperties.LoginUnknownEmail: 'unknown' means no exactly equal email; under a `_ci` collation a case or accent variant of a stored email is found.
- Ledger.FindAll: returns a set, so the order of the rows `find` returns is not modelled.
- Ledger.CreateAccount: the `userId` foreign key to the user table is not modelled, because the ledger holds no user table. An insert naming an unknown user succeeds in the model, while the database refuses it.
- The caller's savings id (`user.savingsAccounts.id`) is an input to transfer. Loading that relation in `getUserByUserId` is not modelled, and the guard's attached `Profile` does not carry it.
- `ReceiverDto` declares `accountId`, while `transfer` reads `accountNumber`. The model carries `accountNumber` as an unvalidated, possibly absent extra field; that `accountId` goes unused has no consequence to model.
- JWT signing, token expiry and clocks are not modelled. Nor are bcrypt hashing with its salt, uuid generation and the ten-digit number generator. Each appears as a parameter or a given function.
- No uniqueness of account numbers is claimed. The generator is a parameter, and nothing in the code checks for collisions.
- Two branches cannot be reached and are not modelled. Login's `if (!currentTokenPair)` is one: `upsert` always returns a result. Refresh's `if (!currentUser)` is the other: `getUserByUserId` throws first.
- The uuid key of `used_refresh_tokens` rows is not modelled. A used token is its `(userId, refreshToken)` pair.
- User fields other than id, name, email and password are not stored. Register only checks whether the body carries `identification`, because a new row without it is refused. The `RegisterUserDto` rules are not modelled either.
- The `currentUser` check in `getUserByUserId` is not modelled. Only controllers pass that argument.
- The guard takes the user table as an argument instead of calling `UserService`.
