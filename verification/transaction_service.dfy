/**
 * TransactionService: the same deposite, withdraw and transfer as AccountService,
 * written again on top of it. Lookups are AccountService's queries, balance writes
 * go through its `AccountQuery`, and the transfer's rollback restores its tables.
 */
module Transactions {
  import opened Results
  import opened Ledger
  import opened Accounts

  class TransactionService {
    /** The injected AccountService whose repositories this service reads and writes. */
    const accounts: AccountService

    constructor (accounts: AccountService)
      ensures this.accounts == accounts
    {
      this.accounts := accounts;
    }

    /** deposite: adds the amount to the caller's row and returns the re-read row. */
    method Deposite(req: TransactionRequest, callerId: string) returns (r: Result<Option<Account>, Error>)
      modifies accounts
      ensures Outcome(r, accounts.State()) == Deposit(old(accounts.State()), req, callerId)
    {
      var found :- GetAccountBy(accounts.State(), req.accountType, ByIdAndOwner(req.accountId, callerId));
      if found.None? {
        return Failure(AccountNotFound);
      }
      var k := Route(req.accountType).value;
      var affected :- accounts.AccountQuery(k, req.accountId, found.value.balance + req.amount);
      if affected == 0 {
        return Failure(NotFound);
      }
      return Success(GetAccountById(accounts.State(), k, req.accountId));
    }

    /** withdraw: subtracts the amount from the caller's row when the balance covers it. */
    method Withdraw(req: TransactionRequest, callerId: string) returns (r: Result<Option<Account>, Error>)
      modifies accounts
      ensures Outcome(r, accounts.State()) == Ledger.Withdraw(old(accounts.State()), req, callerId)
    {
      var found :- GetAccountBy(accounts.State(), req.accountType, ByIdAndOwner(req.accountId, callerId));
      if found.None? {
        return Failure(Unauthorized(NO_WITHDRAW_PERMISSION));
      }
      if found.value.balance < req.amount {
        return Failure(InsufficientFunds);
      }
      var k := Route(req.accountType).value;
      var affected :- accounts.AccountQuery(k, req.accountId, found.value.balance - req.amount);
      if affected == 0 {
        return Failure(NotFound);
      }
      return Success(GetAccountById(accounts.State(), k, req.accountId));
    }

    /** transfer: the checks and the two updates inside a transaction of its own, rolled back on failure. */
    method Transfer(req: TransferRequest, caller: Caller) returns (r: Result<(), Error>)
      modifies accounts
      ensures Outcome(r, accounts.State()) == Ledger.Transfer(old(accounts.State()), req, caller)
    {
      var saved := accounts.State();
      r := TransferSteps(req, caller);
      if r.Failure? {
        accounts.RestoreTo(saved);
      }
    }

    /** The try block of transfer; on failure the first update may still be in place. */
    method TransferSteps(req: TransferRequest, caller: Caller) returns (r: Result<(), Error>)
      modifies accounts
      ensures r == Ledger.Transfer(old(accounts.State()), req, caller).result
      ensures r.Success? ==> accounts.State() == Ledger.Transfer(old(accounts.State()), req, caller).after
    {
      var sender :- GetAccountBy(accounts.State(), req.senderType, ByIdAndOwner(req.senderId, caller.id));
      var receiver :- GetAccountBy(accounts.State(), req.receiverType, ByAccountNumber(req.receiverAccountNumber));
      if caller.savingsId == IdOf(receiver) {
        return Failure(Forbidden);
      }
      if receiver.None? || sender.None? {
        return Failure(NotFound);
      }
      if sender.value.balance < req.amount {
        return Failure(InsufficientFunds);
      }
      var senderAffected :- accounts.AccountQuery(Savings, req.senderId, sender.value.balance - req.amount);
      var receiverAffected :- accounts.AccountQuery(Current, receiver.value.id, receiver.value.balance + req.amount);
      if senderAffected == 0 || receiverAffected == 0 {
        return Failure(NotFound);
      }
      return Success(());
    }
  }

  /**
   * The two copies agree: from equal tables, the same deposite, withdraw and
   * transfer requests give equal results and leave equal tables.
   */
  method CopiesAgree(a: AccountService, t: TransactionService, dep: TransactionRequest, wd: TransactionRequest,
                     tr: TransferRequest, caller: Caller)
    returns (same: bool)
    requires a != t.accounts && a.State() == t.accounts.State()
    modifies a, t.accounts
    ensures same && a.State() == t.accounts.State()
  {
    var d1 := a.Deposite(dep, caller.id);
    var d2 := t.Deposite(dep, caller.id);
    var w1 := a.Withdraw(wd, caller.id);
    var w2 := t.Withdraw(wd, caller.id);
    var x1 := a.Transfer(tr, caller);
    var x2 := t.Transfer(tr, caller);
    same := d1 == d2 && w1 == w2 && x1 == x2;
  }
}
