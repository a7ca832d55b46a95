/**
 * AccountService as an object over its two repositories. The queries are the
 * functions of `Ledger` applied to the current tables; the operations that write
 * are methods that change the tables step by step, each proved to end in the state
 * and with the result the matching `Ledger` function describes.
 */
module Accounts {
  import opened Results
  import opened Ledger
  import LedgerProperties

  class AccountService {
    /** The current-account repository: rows by primary key. */
    var current: Table
    /** The savings-account repository: rows by primary key. */
    var savings: Table

    constructor (current: Table, savings: Table)
      ensures State() == Tables(current, savings)
    {
      this.current := current;
      this.savings := savings;
    }

    /** Both repositories as one value. */
    function State(): Tables
      reads this
    {
      Tables(current, savings)
    }

    /** Replaces both repositories, as a rollback to the state saved when the transaction started. */
    method RestoreTo(saved: Tables)
      modifies this
      ensures State() == saved
    {
      current := saved.current;
      savings := saved.savings;
    }

    /** accountQuery: `UPDATE ... SET balance = :balance WHERE id = :id` on the table of kind `k`. */
    method AccountQuery(k: Kind, id: string, balance: int) returns (affected: Result<nat, Error>)
      modifies this
      ensures (affected, State()) == UpdateBalance(old(State()), k, id, balance)
    {
      var t := if k == Current then current else savings;
      if id !in t {
        return Success(0);
      }
      if !FitsInt(balance) {
        return Failure(ValueOutOfRange);
      }
      var row := t[id].(balance := balance);
      if k == Current {
        current := current[id := row];
      } else {
        savings := savings[id := row];
      }
      return Success(1);
    }

    /**
     * createAccount: refuses a second account of the type for the caller, otherwise
     * saves a new row whose owner and type come from the request; the save fails on
     * the unique `userId` index when that owner already has a row in the table.
     */
    method CreateAccount(req: CreateRequest, callerId: string, accountNumber: int, newId: string)
      returns (r: Result<Account, Error>)
      modifies this
      ensures Outcome(r, State()) == Ledger.CreateAccount(old(State()), req, callerId, accountNumber, newId)
      ensures old(Valid(State())) && newId !in old(current) && newId !in old(savings) ==> Valid(State())
    {
      var before := State();
      var existing :- GetAccountBy(State(), req.accountType, ByOwner(callerId));
      if existing.Some? {
        return Failure(DuplicateAccountType);
      }
      var table := if Route(req.accountType) == Some(Current) then current else savings;
      if newId in table || FindOne(table, ByOwner(req.userId)).Some? {
        return Failure(DuplicateEntry);
      }
      var row := Account(newId, req.userId, accountNumber, req.accountType, 0);
      if Route(req.accountType) == Some(Current) {
        current := current[newId := row];
      } else {
        savings := savings[newId := row];
      }
      r := Success(row);
      if Valid(before) && newId !in before.current && newId !in before.savings {
        LedgerProperties.CreatePreservesValid(before, req, callerId, accountNumber, newId);
      }
    }

    /** deposite: adds the amount to the caller's row and returns the re-read row. */
    method Deposite(req: TransactionRequest, callerId: string) returns (r: Result<Option<Account>, Error>)
      modifies this
      ensures Outcome(r, State()) == Deposit(old(State()), req, callerId)
      ensures old(Valid(State())) ==> Valid(State())
    {
      var before := State();
      if Valid(before) {
        LedgerProperties.DepositPreservesValid(before, req, callerId);
      }
      var found :- GetAccountBy(State(), req.accountType, ByIdAndOwner(req.accountId, callerId));
      if found.None? {
        return Failure(AccountNotFound);
      }
      var k := Route(req.accountType).value;
      var affected :- AccountQuery(k, req.accountId, found.value.balance + req.amount);
      if affected == 0 {
        return Failure(NotFound);
      }
      return Success(GetAccountById(State(), k, req.accountId));
    }

    /** withdraw: subtracts the amount from the caller's row when the balance covers it. */
    method Withdraw(req: TransactionRequest, callerId: string) returns (r: Result<Option<Account>, Error>)
      modifies this
      ensures Outcome(r, State()) == Ledger.Withdraw(old(State()), req, callerId)
      ensures old(Valid(State())) ==> Valid(State())
    {
      var before := State();
      if Valid(before) {
        LedgerProperties.WithdrawPreservesValid(before, req, callerId);
      }
      var found :- GetAccountBy(State(), req.accountType, ByIdAndOwner(req.accountId, callerId));
      if found.None? {
        return Failure(Unauthorized(NO_WITHDRAW_PERMISSION));
      }
      if found.value.balance < req.amount {
        return Failure(InsufficientFunds);
      }
      var k := Route(req.accountType).value;
      var affected :- AccountQuery(k, req.accountId, found.value.balance - req.amount);
      if affected == 0 {
        return Failure(NotFound);
      }
      return Success(GetAccountById(State(), k, req.accountId));
    }

    /**
     * The try block of transfer: the two lookups, the checks, then the SAVINGS update
     * of the sender and the CURRENT update of the receiver. On success the tables
     * are those `Ledger.Transfer` commits; on failure the error is the one it reports
     * (the tables may then hold the first update, which the caller rolls back).
     */
    method TransferSteps(req: TransferRequest, caller: Caller) returns (r: Result<(), Error>)
      modifies this
      ensures r == Ledger.Transfer(old(State()), req, caller).result
      ensures r.Success? ==> State() == Ledger.Transfer(old(State()), req, caller).after
    {
      var sender :- GetAccountBy(State(), req.senderType, ByIdAndOwner(req.senderId, caller.id));
      var receiver :- GetAccountBy(State(), req.receiverType, ByAccountNumber(req.receiverAccountNumber));
      if caller.savingsId == IdOf(receiver) {
        return Failure(Forbidden);
      }
      if receiver.None? || sender.None? {
        return Failure(NotFound);
      }
      if sender.value.balance < req.amount {
        return Failure(InsufficientFunds);
      }
      var senderAffected :- AccountQuery(Savings, req.senderId, sender.value.balance - req.amount);
      var receiverAffected :- AccountQuery(Current, receiver.value.id, receiver.value.balance + req.amount);
      if senderAffected == 0 || receiverAffected == 0 {
        return Failure(NotFound);
      }
      return Success(());
    }

    /**
     * transfer: runs the steps inside a database transaction, committing on success
     * and rolling back both tables on any failure.
     */
    method Transfer(req: TransferRequest, caller: Caller) returns (r: Result<(), Error>)
      modifies this
      ensures Outcome(r, State()) == Ledger.Transfer(old(State()), req, caller)
      ensures r.Failure? ==> State() == old(State())
      ensures old(Valid(State())) ==> Valid(State())
    {
      var saved := State();
      if Valid(saved) {
        LedgerProperties.TransferPreservesValid(saved, req, caller);
      }
      r := TransferSteps(req, caller);
      if r.Failure? {
        RestoreTo(saved);
      }
    }
  }
}
