/**
 * What the ledger's outcomes mean, stated over the rows of the tables rather than
 * over the queries the service issues.
 */
module LedgerProperties {
  import opened Results
  import opened Ids
  import opened Ledger

  // ---------------------------------------------------------------- lookups

  /** A lookup that names the primary key finds that row or nothing. */
  lemma FindOneByKey(t: Table, f: Filter, id: string)
    requires KeyedById(t) && f.id == Some(id)
    ensures FindOne(t, f) == if id in t && Matches(f, t[id]) then Some(t[id]) else None
  {
    match FirstMatch(t, f)
    case None =>
    case Some(k) =>
      assert t[k].id == id;
  }

  /** Routing and the type names are inverse: exactly "CURRENT" and "SAVINGS" name a table. */
  lemma {:induction false} RouteNamesExactlyTwoTables(accountType: string)
    ensures Route(accountType).Some? <==> accountType == "CURRENT" || accountType == "SAVINGS"
    ensures forall k: Kind :: Route(KindName(k)) == Some(k)
  {
    forall k: Kind
      ensures Route(KindName(k)) == Some(k)
    {
      match k
      case Current =>
      case Savings =>
        assert KindName(Savings) != "CURRENT";
    }
  }

  /**
   * getSingleAccount by id succeeds exactly on a row of the caller, and a missing
   * row is refused as Unauthorized, the same as a row of someone else.
   */
  lemma GetSingleAccountOnlyOwnRow(ts: Tables, accountType: string, id: string, callerId: string)
    requires Route(accountType).Some? && KeyedById(ts.Of(Route(accountType).value))
    ensures var t := ts.Of(Route(accountType).value);
      GetSingleAccount(ts, accountType, ById(id), callerId)
        == if Owns(t, id, callerId) then Success(t[id]) else Failure(Unauthorized(UNAUTHORIZED))
  {
    FindOneByKey(ts.Of(Route(accountType).value), ById(id), id);
  }

  /** Whatever the filter, getSingleAccount only ever returns a matching row of the caller. */
  lemma GetSingleAccountReturnsCallersRow(ts: Tables, accountType: string, f: Filter, callerId: string)
    ensures var r := GetSingleAccount(ts, accountType, f, callerId);
      r.Success? ==> r.value.userId == callerId && Matches(f, r.value) && r.value in ts.Of(Route(accountType).value).Values
    ensures Route(accountType).None? ==> GetSingleAccount(ts, accountType, f, callerId) == Failure(UnknownTable)
  {
    match Route(accountType)
    case None =>
    case Some(k) =>
      match FirstMatch(ts.Of(k), f)
      case None =>
      case Some(key) =>
        assert ts.Of(k)[key] in ts.Of(k).Values;
  }

  /**
   * getAllAccounts returns exactly the caller's rows of the table, and refuses with
   * Unauthorized 'No accounts found' instead of returning an empty collection.
   */
  lemma GetAllAccountsOwnedRows(ts: Tables, accountType: string, userId: string)
    requires Route(accountType).Some? && RowsTyped(ts.Of(Route(accountType).value), Route(accountType).value)
    ensures var t := ts.Of(Route(accountType).value);
      var owned := set key | key in t && t[key].userId == userId :: t[key];
      GetAllAccounts(ts, accountType, userId)
        == if owned == {} then Failure(Unauthorized(NO_ACCOUNTS_FOUND)) else Success(owned)
  {
    var k := Route(accountType).value;
    var t := ts.Of(k);
    var f := ByOwner(userId).(accountType := Some(accountType));
    forall key | key in t
      ensures Matches(f, t[key]) <==> t[key].userId == userId
    {
      assert t[key].accountType == KindName(k) == accountType;
    }
    var owned := set key | key in t && t[key].userId == userId :: t[key];
    assert FindAll(t, f) == owned;
  }

  /**
   * In `{ type, ...options }` the options come last, so a type in the filter wins
   * over the routed one: asking the CURRENT table for SAVINGS rows finds none.
   */
  lemma GetAllByFilterTypeWins(ts: Tables, f: Filter)
    requires RowsTyped(ts.current, Current) && f.accountType == Some("SAVINGS")
    ensures GetAllBy(ts, "CURRENT", f) == Success({})
  {
    var rows := GetAllBy(ts, "CURRENT", f).value;
    assert forall a :: a in rows ==> a.accountType == "SAVINGS" && a in ts.current.Values;
    assert rows == {};
  }

  // ---------------------------------------------------------------- createAccount

  /** One account per type: a caller who owns a row of the table is refused, and nothing is inserted. */
  lemma CreateRefusesSecondAccount(ts: Tables, req: CreateRequest, callerId: string, accountNumber: int, newId: string)
    requires Route(req.accountType).Some?
    ensures var t := ts.Of(Route(req.accountType).value);
      var o := CreateAccount(ts, req, callerId, accountNumber, newId);
      (o.result == Failure(DuplicateAccountType) <==> exists key :: key in t && t[key].userId == callerId)
      && (o.result.Failure? ==> o.after == ts)
  {
    var t := ts.Of(Route(req.accountType).value);
    match FirstMatch(t, ByOwner(callerId))
    case None =>
    case Some(key) =>
      assert Matches(ByOwner(callerId), t[key]);
  }

  /**
   * Past the caller check the save inserts exactly one row into the chosen table
   * (the generated id and account number, balance 0, the owner and type of the
   * request), unless the request's owner already has a row there or the key is
   * taken: then the unique index refuses the insert and nothing changes. The other
   * table never changes.
   */
  lemma CreateInsertsOneRow(ts: Tables, req: CreateRequest, callerId: string, accountNumber: int, newId: string)
    requires Route(req.accountType).Some?
    requires var t := ts.Of(Route(req.accountType).value);
      forall key :: key in t ==> t[key].userId != callerId
    ensures var k := Route(req.accountType).value;
      var t := ts.Of(k);
      var o := CreateAccount(ts, req, callerId, accountNumber, newId);
      var row := Account(newId, req.userId, accountNumber, req.accountType, 0);
      && (o.result.Success? <==> newId !in t && forall key :: key in t ==> t[key].userId != req.userId)
      && (o.result.Success? ==> o.result.value == row && o.after.Of(k) == t[newId := row] && |o.after.Of(k)| == |t| + 1)
      && (o.result.Failure? ==> o.result.error == DuplicateEntry && o.after == ts)
      && (forall j :: j != k ==> o.after.Of(j) == ts.Of(j))
  {
    var t := ts.Of(Route(req.accountType).value);
    assert FindOne(t, ByOwner(callerId)).None?;
  }

  /**
   * createAccount keeps one account per table per owner, whoever the request names:
   * the caller check covers the caller and the unique index covers the named owner.
   */
  lemma {:induction false} CreateKeepsOwnersUnique(ts: Tables, req: CreateRequest, callerId: string, accountNumber: int,
                                                   newId: string)
    requires OwnersUnique(ts.current) && OwnersUnique(ts.savings)
    ensures var after := CreateAccount(ts, req, callerId, accountNumber, newId).after;
      OwnersUnique(after.current) && OwnersUnique(after.savings)
  {
    var o := CreateAccount(ts, req, callerId, accountNumber, newId);
    if o.result.Success? {
      var k := Route(req.accountType).value;
      var t := ts.Of(k);
      assert OwnersUnique(t) by {
        assert ts.Of(Current) == ts.current && ts.Of(Savings) == ts.savings;
      }
      assert forall key :: key in t ==> t[key].userId != req.userId by {
        forall key | key in t
          ensures t[key].userId != req.userId
        {
          assert Matches(ByOwner(req.userId), t[key]) <==> t[key].userId == req.userId;
        }
      }
      var t2 := o.after.Of(k);
      assert t2 == t[newId := o.result.value];
      forall a, b | a in t2 && b in t2 && t2[a].userId == t2[b].userId
        ensures a == b
      {
        if a != newId && b != newId {
          assert t2[a] == t[a] && t2[b] == t[b];
        }
      }
      assert o.after.Of(Current) == o.after.current && o.after.Of(Savings) == o.after.savings;
    }
  }

  /**
   * The duplicate check looks at the caller, not at the owner the body names: a
   * caller without a CURRENT account who names a user holding one passes the check,
   * and the unique `userId` index then refuses the insert.
   */
  lemma CreateForOwnerWithAccountRefused()
    ensures var ts := Tables(map["c1" := Account("c1", "bob", 1111111111, "CURRENT", 0)], map[]);
      CreateAccount(ts, CreateRequest("bob", "CURRENT"), "alice", 2222222222, "c2") == Outcome(Failure(DuplicateEntry), ts)
  {
    var ts := Tables(map["c1" := Account("c1", "bob", 1111111111, "CURRENT", 0)], map[]);
    assert !Matches(ByOwner("alice"), ts.current["c1"]);
    assert Matches(ByOwner("bob"), ts.current["c1"]);
  }

  /** createAccount keeps the stored tables valid when the generated id is new. */
  lemma CreatePreservesValid(ts: Tables, req: CreateRequest, callerId: string, accountNumber: int, newId: string)
    requires Valid(ts)
    requires forall k: Kind :: newId !in ts.Of(k)
    ensures Valid(CreateAccount(ts, req, callerId, accountNumber, newId).after)
  {
    match Route(req.accountType)
    case None =>
    case Some(k) =>
      assert KindName(k) == req.accountType;
      assert newId !in ts.current && newId !in ts.savings by {
        assert ts.Of(Current) == ts.current && ts.Of(Savings) == ts.savings;
      }
      CreateKeepsOwnersUnique(ts, req, callerId, accountNumber, newId);
  }

  // ---------------------------------------------------------------- deposite

  /** deposite refuses with 'Account not found' exactly when the caller owns no row with that id. */
  lemma DepositNeedsOwnedAccount(ts: Tables, req: TransactionRequest, callerId: string)
    requires Route(req.accountType).Some? && KeyedById(ts.Of(Route(req.accountType).value))
    ensures var t := ts.Of(Route(req.accountType).value);
      Deposit(ts, req, callerId).result == Failure(AccountNotFound) <==> !Owns(t, req.accountId, callerId)
  {
    FindOneByKey(ts.Of(Route(req.accountType).value), ByIdAndOwner(req.accountId, callerId), req.accountId);
  }

  /**
   * On a row of the caller, deposite adds the amount to the balance and returns the
   * updated row; no other row changes. A sum outside the int column is refused.
   */
  lemma DepositAddsAmount(ts: Tables, req: TransactionRequest, callerId: string)
    requires Route(req.accountType).Some? && KeyedById(ts.Of(Route(req.accountType).value))
    requires Owns(ts.Of(Route(req.accountType).value), req.accountId, callerId)
    ensures var k := Route(req.accountType).value;
      var t := ts.Of(k);
      var id := req.accountId;
      var o := Deposit(ts, req, callerId);
      var row := t[id].(balance := t[id].balance + req.amount);
      && (FitsInt(row.balance) ==> o.result == Success(Some(row)) && o.after == ts.With(k, t[id := row]))
      && (!FitsInt(row.balance) ==> o.result == Failure(ValueOutOfRange) && o.after == ts)
  {
    var k := Route(req.accountType).value;
    var t := ts.Of(k);
    var id := req.accountId;
    FindOneByKey(t, ByIdAndOwner(id, callerId), id);
    var row := t[id].(balance := t[id].balance + req.amount);
    if FitsInt(row.balance) {
      FindOneByKey(t[id := row], ById(id), id);
    }
  }

  /** deposite keeps the stored tables valid. */
  lemma DepositPreservesValid(ts: Tables, req: TransactionRequest, callerId: string)
    requires Valid(ts)
    ensures Valid(Deposit(ts, req, callerId).after)
  {
    if Route(req.accountType).Some? && Owns(ts.Of(Route(req.accountType).value), req.accountId, callerId) {
      DepositAddsAmount(ts, req, callerId);
    } else if Route(req.accountType).Some? {
      DepositNeedsOwnedAccount(ts, req, callerId);
    }
  }

  // ---------------------------------------------------------------- withdraw

  /**
   * withdraw refuses with Unauthorized when the caller owns no row with that id, and
   * then with 'Insufficient funds' when the balance is below the amount; both leave
   * the tables unchanged.
   */
  lemma WithdrawRefusals(ts: Tables, req: TransactionRequest, callerId: string)
    requires Route(req.accountType).Some? && KeyedById(ts.Of(Route(req.accountType).value))
    ensures var t := ts.Of(Route(req.accountType).value);
      var o := Withdraw(ts, req, callerId);
      && (o.result == Failure(Unauthorized(NO_WITHDRAW_PERMISSION)) <==> !Owns(t, req.accountId, callerId))
      && (Owns(t, req.accountId, callerId) ==>
            (o.result == Failure(InsufficientFunds) <==> t[req.accountId].balance < req.amount))
  {
    FindOneByKey(ts.Of(Route(req.accountType).value), ByIdAndOwner(req.accountId, callerId), req.accountId);
  }

  /**
   * With enough funds withdraw subtracts the amount and returns the updated row; the
   * amount may equal the balance, and the balance left is never negative.
   */
  lemma WithdrawSubtractsAmount(ts: Tables, req: TransactionRequest, callerId: string)
    requires Route(req.accountType).Some? && KeyedById(ts.Of(Route(req.accountType).value))
    requires var t := ts.Of(Route(req.accountType).value);
      Owns(t, req.accountId, callerId) && req.amount <= t[req.accountId].balance
    ensures var k := Route(req.accountType).value;
      var t := ts.Of(k);
      var id := req.accountId;
      var o := Withdraw(ts, req, callerId);
      var row := t[id].(balance := t[id].balance - req.amount);
      && row.balance >= 0
      && (FitsInt(row.balance) ==> o.result == Success(Some(row)) && o.after == ts.With(k, t[id := row]))
      && (!FitsInt(row.balance) ==> o.result == Failure(ValueOutOfRange) && o.after == ts)
  {
    var k := Route(req.accountType).value;
    var t := ts.Of(k);
    var id := req.accountId;
    FindOneByKey(t, ByIdAndOwner(id, callerId), id);
    var row := t[id].(balance := t[id].balance - req.amount);
    if FitsInt(row.balance) {
      FindOneByKey(t[id := row], ById(id), id);
    }
  }

  /** withdraw keeps the stored tables valid. */
  lemma WithdrawPreservesValid(ts: Tables, req: TransactionRequest, callerId: string)
    requires Valid(ts)
    ensures Valid(Withdraw(ts, req, callerId).after)
  {
    if Route(req.accountType).Some? {
      var t := ts.Of(Route(req.accountType).value);
      WithdrawRefusals(ts, req, callerId);
      if Owns(t, req.accountId, callerId) && req.amount <= t[req.accountId].balance {
        WithdrawSubtractsAmount(ts, req, callerId);
      }
    }
  }

  // ---------------------------------------------------------------- transfer

  /** The receiver row the transfer looks up: the first row with the account number, in the table the receiver type names. */
  function ReceiverLookup(ts: Tables, req: TransferRequest): Option<Account>
    requires Route(req.receiverType).Some?
  {
    FindOne(ts.Of(Route(req.receiverType).value), ByAccountNumber(req.receiverAccountNumber))
  }

  /**
   * The refusals of transfer, in the order the service checks them: Forbidden when the
   * caller's savings id equals the receiver's id (both absent counts as equal), then
   * NotFound for a missing account, then 'Insufficient funds'. Past those checks the
   * two updates decide: a new balance outside the int column is refused, an update
   * that matched no row is NotFound, and otherwise the transfer commits.
   */
  lemma TransferRefusalOrder(ts: Tables, req: TransferRequest, caller: Caller)
    requires Route(req.senderType).Some? && Route(req.receiverType).Some?
    requires KeyedById(ts.Of(Route(req.senderType).value))
    ensures var o := Transfer(ts, req, caller);
      var receiver := ReceiverLookup(ts, req);
      var t := ts.Of(Route(req.senderType).value);
      && (caller.savingsId == IdOf(receiver) ==> o.result == Failure(Forbidden))
      && ((caller.savingsId != IdOf(receiver) && (receiver.None? || !Owns(t, req.senderId, caller.id)))
            ==> o.result == Failure(NotFound))
      && ((caller.savingsId != IdOf(receiver) && receiver.Some? && Owns(t, req.senderId, caller.id)
            && t[req.senderId].balance < req.amount) ==> o.result == Failure(InsufficientFunds))
      && (o.result.Failure? ==> o.after == ts)
    ensures var o := Transfer(ts, req, caller);
      var receiver := ReceiverLookup(ts, req);
      var t := ts.Of(Route(req.senderType).value);
      (caller.savingsId != IdOf(receiver) && receiver.Some? && Owns(t, req.senderId, caller.id)
       && req.amount <= t[req.senderId].balance) ==>
        var outOfRange := (req.senderId in ts.savings && !FitsInt(t[req.senderId].balance - req.amount))
          || (receiver.value.id in ts.current && !FitsInt(receiver.value.balance + req.amount));
        var unmatched := req.senderId !in ts.savings || receiver.value.id !in ts.current;
        && (o.result == Failure(ValueOutOfRange) <==> outOfRange)
        && (o.result == Failure(NotFound) <==> !outOfRange && unmatched)
        && (o.result.Success? <==> !outOfRange && !unmatched)
  {
    FindOneByKey(ts.Of(Route(req.senderType).value), ByIdAndOwner(req.senderId, caller.id), req.senderId);
  }

  /**
   * With the types TransferDto admits, transfer succeeds whenever every check passes:
   * the receiver is found and is not the caller's savings account, the caller owns
   * the sender row, its balance covers the amount and both new balances fit the int
   * column.
   */
  lemma TransferSucceeds(ts: Tables, req: TransferRequest, caller: Caller)
    requires req.senderType == "SAVINGS" && req.receiverType == "CURRENT"
    requires KeyedById(ts.savings) && KeyedById(ts.current)
    requires Owns(ts.savings, req.senderId, caller.id) && req.amount <= ts.savings[req.senderId].balance
    requires FindOne(ts.current, ByAccountNumber(req.receiverAccountNumber)).Some?
    requires var r := FindOne(ts.current, ByAccountNumber(req.receiverAccountNumber)).value;
      && caller.savingsId != Some(r.id)
      && FitsInt(ts.savings[req.senderId].balance - req.amount)
      && FitsInt(r.balance + req.amount)
    ensures Transfer(ts, req, caller).result.Success?
  {
    var r := FindOne(ts.current, ByAccountNumber(req.receiverAccountNumber)).value;
    var key :| key in ts.current && ts.current[key] == r;
    assert r.id in ts.current;
    TransferRefusalOrder(ts, req, caller);
  }

  /** The service's own example: 200 in savings and 100 in current, a transfer of 100 leaves 100 and 200. */
  lemma TransferOfHundred()
    ensures var ts := Tables(map["c1" := Account("c1", "bob", 123, "CURRENT", 100)],
                             map["s1" := Account("s1", "alice", 1111111111, "SAVINGS", 200)]);
      var o := Transfer(ts, TransferRequest("s1", "SAVINGS", Some(123), "CURRENT", 100), Caller("alice", Some("s1")));
      && o.result.Success?
      && o.after.savings["s1"].balance == 100 && o.after.current["c1"].balance == 200
  {
    var ts := Tables(map["c1" := Account("c1", "bob", 123, "CURRENT", 100)],
                     map["s1" := Account("s1", "alice", 1111111111, "SAVINGS", 200)]);
    var req := TransferRequest("s1", "SAVINGS", Some(123), "CURRENT", 100);
    var caller := Caller("alice", Some("s1"));
    assert Matches(ByAccountNumber(Some(123)), ts.current["c1"]);
    assert FirstMatch(ts.current, ByAccountNumber(Some(123))) == Some("c1");
    TransferSucceeds(ts, req, caller);
    TransferMovesAmount(ts, req, caller);
  }

  /**
   * A transfer without the receiver's account number looks the receiver up with an
   * empty filter: it finds a row whenever the table has one, namely the row with the
   * least primary key, and the money goes there.
   */
  lemma ReceiverWithoutNumber(ts: Tables, req: TransferRequest)
    requires Route(req.receiverType).Some? && req.receiverAccountNumber.None?
    requires KeyedById(ts.Of(Route(req.receiverType).value))
    ensures var t := ts.Of(Route(req.receiverType).value);
      var r := ReceiverLookup(ts, req);
      && (r.Some? <==> t != map[])
      && (r.Some? ==> r.value.id in t && t[r.value.id] == r.value && forall k :: k in t ==> LexLe(r.value.id, k))
  {
    var t := ts.Of(Route(req.receiverType).value);
    var f := ByAccountNumber(req.receiverAccountNumber);
    assert forall k :: k in t ==> Matches(f, t[k]);
    if t != map[] {
      var k0 :| k0 in t;
      assert Matches(f, t[k0]);
    }
  }

  /**
   * The self-transfer guard compares against the caller's savings id even when both
   * sides are absent: a caller with no savings account who names an unknown account
   * number is refused with Forbidden, not NotFound.
   */
  lemma TransferGuardWithNoSavingsAccount(ts: Tables, req: TransferRequest, caller: Caller)
    requires Route(req.senderType).Some? && Route(req.receiverType).Some?
    requires caller.savingsId.None?
    requires forall key :: key in ts.Of(Route(req.receiverType).value) ==>
      !Matches(ByAccountNumber(req.receiverAccountNumber), ts.Of(Route(req.receiverType).value)[key])
    ensures Transfer(ts, req, caller) == Outcome(Failure(Forbidden), ts)
  {
  }

  /**
   * A successful transfer debits the caller's SAVINGS row by the amount and credits
   * the first CURRENT row with the account number by the amount, in one step: the sum
   * of the two balances is unchanged and no other row changes. This holds when ids
   * are unique across the two tables, or when the request has the types the
   * TransferDto admits (sender SAVINGS, receiver CURRENT).
   */
  lemma TransferMovesAmount(ts: Tables, req: TransferRequest, caller: Caller)
    requires KeyedById(ts.current) && KeyedById(ts.savings)
    requires DisjointIds(ts) || (req.senderType == "SAVINGS" && req.receiverType == "CURRENT")
    requires Transfer(ts, req, caller).result.Success?
    ensures Route(req.senderType) == Some(Savings) && Route(req.receiverType) == Some(Current)
    ensures Owns(ts.savings, req.senderId, caller.id)
    ensures FindOne(ts.current, ByAccountNumber(req.receiverAccountNumber)).Some?
    ensures var s := ts.savings[req.senderId];
      var r := FindOne(ts.current, ByAccountNumber(req.receiverAccountNumber)).value;
      var after := Transfer(ts, req, caller).after;
      && r.id in ts.current && ts.current[r.id] == r
      && s.balance >= req.amount
      && after.savings == ts.savings[req.senderId := s.(balance := s.balance - req.amount)]
      && after.current == ts.current[r.id := r.(balance := r.balance + req.amount)]
      && after.savings[req.senderId].balance + after.current[r.id].balance == s.balance + r.balance
  {
    var ks := Route(req.senderType).value;
    var kr := Route(req.receiverType).value;
    var sender := FindOne(ts.Of(ks), ByIdAndOwner(req.senderId, caller.id));
    var receiver := FindOne(ts.Of(kr), ByAccountNumber(req.receiverAccountNumber));
    FindOneByKey(ts.Of(ks), ByIdAndOwner(req.senderId, caller.id), req.senderId);
    assert sender.Some? && receiver.Some?;
    var rid := FirstMatch(ts.Of(kr), ByAccountNumber(req.receiverAccountNumber)).value;
    assert receiver.value == ts.Of(kr)[rid] && receiver.value.id == rid;
    var ts1 := UpdateBalance(ts, Savings, req.senderId, sender.value.balance - req.amount).1;
    assert req.senderId in ts.savings;
    assert rid in ts1.current;
  }

  /** transfer keeps the stored tables valid. */
  lemma TransferPreservesValid(ts: Tables, req: TransferRequest, caller: Caller)
    requires Valid(ts)
    ensures Valid(Transfer(ts, req, caller).after)
  {
    if Transfer(ts, req, caller).result.Success? {
      TransferMovesAmount(ts, req, caller);
    }
  }
}
