/**
 * The account ledger as values: the two account tables, the routing of a type
 * string to a table, the read-only queries of AccountService, and the outcome
 * (result and tables afterwards) of each operation that writes.
 *
 * The functions here follow the service's code step by step, in its order of
 * checks; the classes in account_service.dfy and transaction_service.dfy are
 * proved to produce exactly these outcomes, and ledger_properties.dfy proves
 * what the outcomes mean.
 */
module Ledger {
  import opened Results
  import opened Ids

  /** The balance column is a MySQL `int`; a write outside this range is refused. */
  const INT_MIN: int := -0x8000_0000
  const INT_MAX: int := 0x7FFF_FFFF

  predicate FitsInt(v: int) {
    INT_MIN <= v <= INT_MAX
  }

  /** The two account tables: `current_account` and `savings_account`. */
  datatype Kind = Current | Savings

  function KindName(k: Kind): string {
    match k
    case Current => "CURRENT"
    case Savings => "SAVINGS"
  }

  /** `currentType[type]`: the repository a type string selects, if any. */
  function Route(accountType: string): (r: Option<Kind>)
    ensures r.Some? ==> KindName(r.value) == accountType
    ensures r.None? ==> forall k: Kind :: KindName(k) != accountType
  {
    if accountType == "CURRENT" then Some(Current)
    else if accountType == "SAVINGS" then Some(Savings)
    else None
  }

  /** A row of either account table. */
  datatype Account = Account(id: string, userId: string, accountNumber: int, accountType: string, balance: int)

  /** A table, keyed by its primary key `id`. */
  type Table = map<string, Account>

  datatype Tables = Tables(current: Table, savings: Table) {
    function Of(k: Kind): Table {
      match k
      case Current => current
      case Savings => savings
    }

    function With(k: Kind, t: Table): (ts: Tables)
      ensures ts.Of(k) == t
      ensures forall j :: j != k ==> ts.Of(j) == Of(j)
    {
      match k
      case Current => this.(current := t)
      case Savings => this.(savings := t)
    }
  }

  /** The `where` object of a query: a conjunction of equalities on the columns it names. */
  datatype Filter = Filter(id: Option<string>, userId: Option<string>, accountNumber: Option<int>, accountType: Option<string>)

  predicate Matches(f: Filter, a: Account) {
    && (f.id.Some? ==> a.id == f.id.value)
    && (f.userId.Some? ==> a.userId == f.userId.value)
    && (f.accountNumber.Some? ==> a.accountNumber == f.accountNumber.value)
    && (f.accountType.Some? ==> a.accountType == f.accountType.value)
  }

  function ById(id: string): Filter {
    Filter(Some(id), None, None, None)
  }

  function ByOwner(userId: string): Filter {
    Filter(None, Some(userId), None, None)
  }

  function ByIdAndOwner(id: string, userId: string): Filter {
    Filter(Some(id), Some(userId), None, None)
  }

  /**
   * `{ accountNumber }`. TypeORM drops a property whose value is `undefined` from
   * the WHERE clause, so an absent number leaves a filter that every row matches.
   */
  function ByAccountNumber(accountNumber: Option<int>): Filter {
    Filter(None, None, accountNumber, None)
  }

  /** The key of the first row, in primary-key order, that satisfies `f`. */
  function FirstMatch(t: Table, f: Filter): (r: Option<string>)
    ensures r.None? <==> forall k :: k in t ==> !Matches(f, t[k])
    ensures r.Some? ==> r.value in t && Matches(f, t[r.value])
    ensures r.Some? ==> forall k :: k in t && Matches(f, t[k]) ==> LexLe(r.value, k)
  {
    var keys := set k | k in t && Matches(f, t[k]);
    if keys == {} then
      assert forall k :: k in t ==> !Matches(f, t[k]) by {
        forall k | k in t
          ensures !Matches(f, t[k])
        {
          assert Matches(f, t[k]) ==> k in keys;
        }
      }
      None
    else
      Some(LeastKey(keys))
  }

  /** `repository.findOne({ where: f })`. */
  function FindOne(t: Table, f: Filter): (r: Option<Account>)
    ensures r.None? <==> forall k :: k in t ==> !Matches(f, t[k])
    ensures r.Some? ==> r.value in t.Values && Matches(f, r.value)
  {
    match FirstMatch(t, f)
    case None => None
    case Some(k) => Some(t[k])
  }

  /** `repository.find({ where: f })`: every matching row (the order of the rows is not modelled). */
  function FindAll(t: Table, f: Filter): (rows: set<Account>)
    ensures forall a :: a in rows <==> a in t.Values && Matches(f, a)
  {
    set k | k in t && Matches(f, t[k]) :: t[k]
  }

  // ---------------------------------------------------------------- invariants of the stored tables

  /** Every row sits under its own primary key. */
  predicate KeyedById(t: Table) {
    forall k :: k in t ==> t[k].id == k
  }

  /** Every stored balance is a value of the int column. */
  predicate BalancesFit(t: Table) {
    forall k :: k in t ==> FitsInt(t[k].balance)
  }

  /** Every row of a table carries that table's type name. */
  predicate RowsTyped(t: Table, k: Kind) {
    forall key :: key in t ==> t[key].accountType == KindName(k)
  }

  /**
   * Nobody owns two rows of one table: the `@OneToOne` join column `userId` of both
   * account entities carries a unique index.
   */
  predicate OwnersUnique(t: Table) {
    forall a, b :: a in t && b in t && t[a].userId == t[b].userId ==> a == b
  }

  predicate TableValid(t: Table, k: Kind) {
    KeyedById(t) && BalancesFit(t) && RowsTyped(t, k) && OwnersUnique(t)
  }

  /** Account ids are UUIDs: no id is used in both tables. */
  predicate DisjointIds(ts: Tables) {
    forall key :: key in ts.current ==> key !in ts.savings
  }

  predicate Valid(ts: Tables) {
    TableValid(ts.current, Current) && TableValid(ts.savings, Savings) && DisjointIds(ts)
  }

  /** `userId` owns the row with primary key `id` of `t`. */
  predicate Owns(t: Table, id: string, userId: string) {
    id in t && t[id].userId == userId
  }

  /** The errors the ledger raises, one per exception the service throws. */
  datatype Error =
    | InvalidAccountType         // Error('Invalid account type')
    | UnknownTable               // currentType[type] is undefined: the TypeError of calling findOne on it
    | DuplicateAccountType       // 400 'Can only have one account with this type'
    | AccountNotFound            // 404 'Account not found'
    | Unauthorized(message: string)
    | Forbidden                  // 403 'You do not have permission to transfer from this account'
    | InsufficientFunds          // 400 'Insufficient funds'
    | NotFound                   // NotFoundException
    | ValueOutOfRange            // the database refuses a balance outside the int column
    | DuplicateEntry             // QueryFailedError: an insert that repeats a unique key (id, or userId)

  const UNAUTHORIZED := "Unauthorized"
  const NO_ACCOUNTS_FOUND := "No accounts found"
  const NO_WITHDRAW_PERMISSION := "You do not have permission to withdraw from this account"

  /** The caller, as the guard leaves it on the request: its id and the id of its savings account, if loaded. */
  datatype Caller = Caller(id: string, savingsId: Option<string>)

  /** A result together with the tables after the operation. */
  datatype Outcome<T> = Outcome(result: Result<T, Error>, after: Tables)

  // ---------------------------------------------------------------- queries

  function ValidateAccountType(accountType: string): (r: Result<(), Error>)
    ensures r.Success? <==> Route(accountType).Some?
    ensures r.Failure? ==> r.error == InvalidAccountType
  {
    if accountType != "CURRENT" && accountType != "SAVINGS" then Failure(InvalidAccountType) else Success(())
  }

  /** getAccountBy: findOne on the table the type names; an unknown type has no table to call. */
  function GetAccountBy(ts: Tables, accountType: string, f: Filter): (r: Result<Option<Account>, Error>)
    ensures r.Failure? <==> Route(accountType).None?
    ensures r.Failure? ==> r.error == UnknownTable
    ensures r.Success? && r.value.Some? ==> r.value.value in ts.Of(Route(accountType).value).Values && Matches(f, r.value.value)
    ensures r.Success? && r.value.None? ==>
      forall k :: k in ts.Of(Route(accountType).value) ==> !Matches(f, ts.Of(Route(accountType).value)[k])
  {
    match Route(accountType)
    case None => Failure(UnknownTable)
    case Some(k) => Success(FindOne(ts.Of(k), f))
  }

  /** getSingleAccount: the matching row, provided the caller owns it; no row at all is Unauthorized too. */
  function GetSingleAccount(ts: Tables, accountType: string, f: Filter, callerId: string): (r: Result<Account, Error>)
    ensures r.Success? ==> r.value.userId == callerId && Matches(f, r.value)
    ensures Route(accountType).Some? && r.Failure? ==> r.error == Unauthorized(UNAUTHORIZED)
  {
    match GetAccountBy(ts, accountType, f)
    case Failure(e) => Failure(e)
    case Success(res) =>
      if res.None? || res.value.userId != callerId then Failure(Unauthorized(UNAUTHORIZED))
      else Success(res.value)
  }

  /** getAccountById: the row of the table with that primary key, re-read after an update. */
  function GetAccountById(ts: Tables, k: Kind, id: string): (r: Option<Account>)
    ensures r.Some? ==> r.value in ts.Of(k).Values && r.value.id == id
    ensures KeyedById(ts.Of(k)) ==> (r.Some? <==> id in ts.Of(k))
  {
    FindOne(ts.Of(k), ById(id))
  }

  /** `{ type, ...options }`: the type condition, unless the options name a type of their own, which wins. */
  function WithType(f: Filter, accountType: string): Filter {
    if f.accountType.Some? then f else f.(accountType := Some(accountType))
  }

  /**
   * getAllBy: every row of the named table that matches the filter and carries the
   * type; a type in the filter replaces the routed one.
   */
  function GetAllBy(ts: Tables, accountType: string, f: Filter): (r: Result<set<Account>, Error>)
    ensures r.Failure? <==> Route(accountType).None?
    ensures r.Success? ==> forall a :: a in r.value <==>
      a in ts.Of(Route(accountType).value).Values && Matches(f, a)
      && a.accountType == (if f.accountType.Some? then f.accountType.value else accountType)
  {
    match Route(accountType)
    case None => Failure(UnknownTable)
    case Some(k) => Success(FindAll(ts.Of(k), WithType(f, accountType)))
  }

  /** getAllAccounts: the user's rows of the table, never an empty collection. */
  function GetAllAccounts(ts: Tables, accountType: string, userId: string): (r: Result<set<Account>, Error>)
    ensures r.Success? ==> Route(accountType).Some? && r.value != {}
    ensures r.Success? && Route(accountType).Some? ==>
      forall a :: a in r.value ==> a.userId == userId && a in ts.Of(Route(accountType).value).Values
    ensures r.Failure? ==> r.error == UnknownTable || r.error == Unauthorized(NO_ACCOUNTS_FOUND)
  {
    match GetAllBy(ts, accountType, ByOwner(userId))
    case Failure(e) => Failure(e)
    case Success(rows) => if rows == {} then Failure(Unauthorized(NO_ACCOUNTS_FOUND)) else Success(rows)
  }

  // ---------------------------------------------------------------- writes

  /** `UPDATE <table> SET balance = :balance WHERE id = :id`: the number of rows matched, and the tables after. */
  function UpdateBalance(ts: Tables, k: Kind, id: string, balance: int): (o: (Result<nat, Error>, Tables))
    ensures o.0.Success? ==> o.0.value <= 1
    ensures o.0 == Success(0) <==> id !in ts.Of(k)
    ensures o.0.Failure? <==> id in ts.Of(k) && !FitsInt(balance)
    ensures o.0 != Success(1) ==> o.1 == ts
    ensures o.0 == Success(1) ==> o.1.Of(k) == ts.Of(k)[id := ts.Of(k)[id].(balance := balance)]
    ensures forall j :: j != k ==> o.1.Of(j) == ts.Of(j)
  {
    var t := ts.Of(k);
    if id !in t then (Success(0), ts)
    else if !FitsInt(balance) then (Failure(ValueOutOfRange), ts)
    else (Success(1), ts.With(k, t[id := t[id].(balance := balance)]))
  }

  datatype CreateRequest = CreateRequest(userId: string, accountType: string)

  /**
   * createAccount. `accountNumber` is what the number generator returned and `newId`
   * the primary key the insert generates. The duplicate check looks for a row of the
   * caller; the inserted row takes its owner and type from the request, and the
   * insert itself fails when that owner already has a row in the table (the unique
   * `userId` index) or the key is taken.
   */
  function CreateAccount(ts: Tables, req: CreateRequest, callerId: string, accountNumber: int, newId: string): (o: Outcome<Account>)
    ensures o.result.Failure? ==> o.after == ts
  {
    match Route(req.accountType)
    case None => Outcome(Failure(UnknownTable), ts)
    case Some(k) =>
      if FindOne(ts.Of(k), ByOwner(callerId)).Some? then Outcome(Failure(DuplicateAccountType), ts)
      else if newId in ts.Of(k) || FindOne(ts.Of(k), ByOwner(req.userId)).Some? then Outcome(Failure(DuplicateEntry), ts)
      else
        var row := Account(newId, req.userId, accountNumber, req.accountType, 0);
        Outcome(Success(row), ts.With(k, ts.Of(k)[newId := row]))
  }

  /** The fields deposite and withdraw read from their TransactionDto. */
  datatype TransactionRequest = TransactionRequest(accountType: string, accountId: string, amount: int)

  /** After a balance update: zero rows matched is NotFound, otherwise the re-read row. */
  function AfterUpdate(upd: (Result<nat, Error>, Tables), before: Tables, k: Kind, id: string): (o: Outcome<Option<Account>>)
    ensures o.result.Failure? <==> upd.0.Failure? || upd.0 == Success(0)
    ensures upd.0.Failure? ==> o.after == before && o.result.error == upd.0.error
    ensures upd.0 == Success(0) ==> o.result.error == NotFound
    ensures upd.0.Success? ==> o.after == upd.1
    ensures o.result.Success? && o.result.value.Some? ==> o.result.value.value.id == id && o.result.value.value in upd.1.Of(k).Values
  {
    match upd.0
    case Failure(e) => Outcome(Failure(e), before)
    case Success(affected) =>
      if affected == 0 then Outcome(Failure(NotFound), upd.1)
      else Outcome(Success(GetAccountById(upd.1, k, id)), upd.1)
  }

  function Deposit(ts: Tables, req: TransactionRequest, callerId: string): (o: Outcome<Option<Account>>)
    ensures o.result.Failure? ==> o.after == ts
  {
    match Route(req.accountType)
    case None => Outcome(Failure(UnknownTable), ts)
    case Some(k) =>
      match FindOne(ts.Of(k), ByIdAndOwner(req.accountId, callerId))
      case None => Outcome(Failure(AccountNotFound), ts)
      case Some(found) =>
        AfterUpdate(UpdateBalance(ts, k, req.accountId, found.balance + req.amount), ts, k, req.accountId)
  }

  function Withdraw(ts: Tables, req: TransactionRequest, callerId: string): (o: Outcome<Option<Account>>)
    ensures o.result.Failure? ==> o.after == ts
  {
    match Route(req.accountType)
    case None => Outcome(Failure(UnknownTable), ts)
    case Some(k) =>
      match FindOne(ts.Of(k), ByIdAndOwner(req.accountId, callerId))
      case None => Outcome(Failure(Unauthorized(NO_WITHDRAW_PERMISSION)), ts)
      case Some(found) =>
        if found.balance < req.amount then Outcome(Failure(InsufficientFunds), ts)
        else AfterUpdate(UpdateBalance(ts, k, req.accountId, found.balance - req.amount), ts, k, req.accountId)
  }

  /**
   * The fields transfer reads from its TransferDto: the sender's id and type, and the
   * receiver's account number (absent when the body leaves it out) and type.
   */
  datatype TransferRequest = TransferRequest(
    senderId: string, senderType: string, receiverAccountNumber: Option<int>, receiverType: string, amount: int)

  function IdOf(a: Option<Account>): Option<string> {
    match a
    case None => None
    case Some(row) => Some(row.id)
  }

  /**
   * transfer, inside one database transaction. The lookups use the request's type
   * strings; the two updates always write the SAVINGS table (sender) and the CURRENT
   * table (receiver). Every failure rolls back, so it leaves `ts` as it was.
   */
  function Transfer(ts: Tables, req: TransferRequest, caller: Caller): (o: Outcome<()>)
    ensures o.result.Failure? ==> o.after == ts
  {
    match GetAccountBy(ts, req.senderType, ByIdAndOwner(req.senderId, caller.id))
    case Failure(e) => Outcome(Failure(e), ts)
    case Success(sender) =>
      match GetAccountBy(ts, req.receiverType, ByAccountNumber(req.receiverAccountNumber))
      case Failure(e) => Outcome(Failure(e), ts)
      case Success(receiver) =>
        if caller.savingsId == IdOf(receiver) then Outcome(Failure(Forbidden), ts)
        else if receiver.None? || sender.None? then Outcome(Failure(NotFound), ts)
        else if sender.value.balance < req.amount then Outcome(Failure(InsufficientFunds), ts)
        else
          var (u1, ts1) := UpdateBalance(ts, Savings, req.senderId, sender.value.balance - req.amount);
          var (u2, ts2) := UpdateBalance(ts1, Current, receiver.value.id, receiver.value.balance + req.amount);
          if u1.Failure? then Outcome(Failure(u1.error), ts)
          else if u2.Failure? then Outcome(Failure(u2.error), ts)
          else if u1.value == 0 || u2.value == 0 then Outcome(Failure(NotFound), ts)
          else Outcome(Success(()), ts2)
  }
}
