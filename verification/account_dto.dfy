/**
 * The request bodies of the account endpoints and the class-validator rules on
 * their fields. A field the client leaves out is `None`; `amountMoney` is a JSON
 * number, modelled as an integer.
 */
module AccountDto {
  import opened Results
  import Ids
  import opened Ledger
  import LedgerProperties

  /** `@IsNotEmpty()` on a string: present and not "". */
  predicate NotEmptyString(v: Option<string>) {
    v.Some? && v.value != ""
  }

  /** `@IsNotEmpty()` on a number: present (no number equals "", null or undefined). */
  predicate NotEmptyNumber(v: Option<int>) {
    v.Some?
  }

  /** `@IsIn(allowed)`: present and one of the listed values. */
  predicate IsIn(v: Option<string>, allowed: set<string>) {
    v.Some? && v.value in allowed
  }

  datatype CreateAccountDto = CreateAccountDto(userId: Option<string>, accountType: Option<string>)

  predicate ValidCreateAccount(d: CreateAccountDto) {
    NotEmptyString(d.userId) && NotEmptyString(d.accountType) && IsIn(d.accountType, {"SAVINGS", "CURRENT"})
  }

  /** SenderDto: the id and type of the account the money leaves. */
  datatype SenderDto = SenderDto(accountId: Option<string>, accountType: Option<string>)

  /**
   * ReceiverDto declares an `accountId` and a type; the service reads an
   * `accountNumber`, which the class does not declare and so does not validate but
   * lets through (the validation pipe keeps undeclared properties).
   */
  datatype ReceiverDto = ReceiverDto(accountId: Option<string>, accountType: Option<string>, accountNumber: Option<int>)

  datatype TransferDto = TransferDto(sender: Option<SenderDto>, receiver: Option<ReceiverDto>, amountMoney: Option<int>)

  /** DepositDto, WithdrawDto and TransactionDto share their fields and differ in the types they admit. */
  datatype TransactionBody = TransactionBody(accountId: Option<string>, amountMoney: Option<int>, accountType: Option<string>)

  predicate ValidSender(s: SenderDto) {
    NotEmptyString(s.accountId) && NotEmptyString(s.accountType) && IsIn(s.accountType, {"SAVINGS"})
  }

  predicate ValidReceiver(r: ReceiverDto) {
    NotEmptyString(r.accountId) && NotEmptyString(r.accountType) && IsIn(r.accountType, {"CURRENT"})
  }

  /** `@IsObject() @ValidateNested()` on both parties, and a present amount. */
  predicate ValidTransfer(d: TransferDto) {
    && d.sender.Some? && ValidSender(d.sender.value)
    && d.receiver.Some? && ValidReceiver(d.receiver.value)
    && NotEmptyNumber(d.amountMoney)
  }

  /** The fields every transaction body needs, whatever types it admits. */
  predicate ValidBody(b: TransactionBody, allowed: set<string>) {
    NotEmptyString(b.accountId) && NotEmptyNumber(b.amountMoney) && NotEmptyString(b.accountType)
    && IsIn(b.accountType, allowed)
  }

  predicate ValidDeposit(b: TransactionBody) {
    ValidBody(b, {"SAVINGS"})
  }

  predicate ValidWithdraw(b: TransactionBody) {
    ValidBody(b, {"CURRENT"})
  }

  predicate ValidTransaction(b: TransactionBody) {
    ValidBody(b, {"SAVINGS", "CURRENT"})
  }

  // ---------------------------------------------------------------- from bodies to requests

  function ToCreateRequest(d: CreateAccountDto): (req: CreateRequest)
    requires ValidCreateAccount(d)
    ensures Route(req.accountType).Some? && req.userId != ""
  {
    CreateRequest(d.userId.value, d.accountType.value)
  }

  function ToTransactionRequest(b: TransactionBody): (req: TransactionRequest)
    requires ValidTransaction(b)
    ensures Route(req.accountType).Some? && req.accountId != ""
  {
    TransactionRequest(b.accountType.value, b.accountId.value, b.amountMoney.value)
  }

  /** The request transfer reads; the receiver's account number is whatever the client sent, or absent. */
  function ToTransferRequest(d: TransferDto): (req: TransferRequest)
    requires ValidTransfer(d)
    ensures req.receiverAccountNumber == d.receiver.value.accountNumber
    ensures Route(req.senderType) == Some(Savings) && Route(req.receiverType) == Some(Current)
  {
    TransferRequest(d.sender.value.accountId.value, d.sender.value.accountType.value,
                    d.receiver.value.accountNumber, d.receiver.value.accountType.value,
                    d.amountMoney.value)
  }

  // ---------------------------------------------------------------- what the rules admit

  /** A valid CreateAccountDto has a non-empty owner and names one of the two tables. */
  lemma CreateAccountDtoAdmits(d: CreateAccountDto)
    ensures ValidCreateAccount(d) <==>
      d.userId.Some? && d.userId.value != "" && (d.accountType == Some("SAVINGS") || d.accountType == Some("CURRENT"))
  {
  }

  /**
   * DepositDto is TransactionDto restricted to SAVINGS, WithdrawDto is TransactionDto
   * restricted to CURRENT, and TransactionDto admits exactly what either admits.
   */
  lemma TransactionBodiesByType(b: TransactionBody)
    ensures ValidDeposit(b) <==> ValidTransaction(b) && b.accountType == Some("SAVINGS")
    ensures ValidWithdraw(b) <==> ValidTransaction(b) && b.accountType == Some("CURRENT")
    ensures ValidTransaction(b) <==> ValidDeposit(b) || ValidWithdraw(b)
  {
  }

  /** A deposit body naming CURRENT and a withdraw body naming SAVINGS are refused. */
  lemma WrongTypeRefused(id: string, amount: int)
    ensures !ValidDeposit(TransactionBody(Some(id), Some(amount), Some("CURRENT")))
    ensures !ValidWithdraw(TransactionBody(Some(id), Some(amount), Some("SAVINGS")))
  {
  }

  /** No rule constrains the sign of `amountMoney`: zero and negative amounts pass. */
  lemma AmountSignUnchecked(id: string, amount: int, s: SenderDto, r: ReceiverDto)
    requires id != "" && ValidSender(s) && ValidReceiver(r)
    ensures ValidTransaction(TransactionBody(Some(id), Some(amount), Some("CURRENT")))
    ensures ValidTransaction(TransactionBody(Some(id), Some(amount), Some("SAVINGS")))
    ensures ValidTransfer(TransferDto(Some(s), Some(r), Some(amount)))
  {
  }

  /**
   * With a valid TransferDto the transfer's lookups are the SAVINGS and the CURRENT
   * table, so a successful transfer moves the amount between the two rows it looked
   * up and conserves their sum, whether or not ids are unique across the tables.
   */
  lemma ValidTransferConserves(ts: Tables, d: TransferDto, caller: Caller)
    requires ValidTransfer(d)
    requires KeyedById(ts.current) && KeyedById(ts.savings)
    requires Ledger.Transfer(ts, ToTransferRequest(d), caller).result.Success?
    ensures var req := ToTransferRequest(d);
      var s := ts.savings[req.senderId];
      var r := FindOne(ts.current, ByAccountNumber(req.receiverAccountNumber)).value;
      var after := Ledger.Transfer(ts, req, caller).after;
      && s.userId == caller.id
      && after.savings[req.senderId].balance == s.balance - req.amount
      && after.current[r.id].balance == r.balance + req.amount
      && after.savings[req.senderId].balance + after.current[r.id].balance == s.balance + r.balance
  {
    LedgerProperties.TransferMovesAmount(ts, ToTransferRequest(d), caller);
  }

  /**
   * ReceiverDto does not declare `accountNumber`, so a valid TransferDto may leave it
   * out; the receiver lookup then has no condition and the money goes to the CURRENT
   * row with the least key, here carol's rather than anyone the client meant.
   */
  lemma TransferWithoutNumberPaysFirstRow()
    ensures var ts := Tables(map["c1" := Account("c1", "carol", 3333333333, "CURRENT", 0),
                                 "c2" := Account("c2", "bob", 2222222222, "CURRENT", 0)],
                             map["s1" := Account("s1", "alice", 1111111111, "SAVINGS", 200)]);
      var d := TransferDto(Some(SenderDto(Some("s1"), Some("SAVINGS"))),
                           Some(ReceiverDto(Some("c2"), Some("CURRENT"), None)), Some(50));
      var o := Ledger.Transfer(ts, ToTransferRequest(d), Caller("alice", Some("s1")));
      && ValidTransfer(d)
      && o.result.Success?
      && o.after.savings["s1"].balance == 150 && o.after.current["c1"].balance == 50
      && o.after.current["c2"] == ts.current["c2"]
  {
    var ts := Tables(map["c1" := Account("c1", "carol", 3333333333, "CURRENT", 0),
                         "c2" := Account("c2", "bob", 2222222222, "CURRENT", 0)],
                     map["s1" := Account("s1", "alice", 1111111111, "SAVINGS", 200)]);
    var d := TransferDto(Some(SenderDto(Some("s1"), Some("SAVINGS"))),
                         Some(ReceiverDto(Some("c2"), Some("CURRENT"), None)), Some(50));
    var req := ToTransferRequest(d);
    LedgerProperties.ReceiverWithoutNumber(ts, req);
    assert Ids.LexLe("c1", "c2") && !Ids.LexLe("c2", "c1");
    assert FindOne(ts.current, ByAccountNumber(None)) == Some(ts.current["c1"]);
    LedgerProperties.TransferSucceeds(ts, req, Caller("alice", Some("s1")));
    LedgerProperties.TransferMovesAmount(ts, req, Caller("alice", Some("s1")));
  }

  /**
   * Because the amount may be negative, a valid TransferDto can take money from the
   * receiver: 200/100 with amount -50 ends at 250/50.
   */
  lemma NegativeTransferTakesFromReceiver()
    ensures var ts := Tables(map["c1" := Account("c1", "bob", 2222222222, "CURRENT", 100)],
                             map["s1" := Account("s1", "alice", 1111111111, "SAVINGS", 200)]);
      var d := TransferDto(Some(SenderDto(Some("s1"), Some("SAVINGS"))),
                           Some(ReceiverDto(Some("c1"), Some("CURRENT"), Some(2222222222))), Some(-50));
      var o := Ledger.Transfer(ts, ToTransferRequest(d), Caller("alice", Some("s1")));
      && ValidTransfer(d)
      && o.result.Success?
      && o.after.savings["s1"].balance == 250 && o.after.current["c1"].balance == 50
  {
    var ts := Tables(map["c1" := Account("c1", "bob", 2222222222, "CURRENT", 100)],
                     map["s1" := Account("s1", "alice", 1111111111, "SAVINGS", 200)]);
    LedgerProperties.FindOneByKey(ts.savings, ByIdAndOwner("s1", "alice"), "s1");
    var f := ByAccountNumber(Some(2222222222));
    assert Matches(f, ts.current["c1"]);
    assert FirstMatch(ts.current, f) == Some("c1");
  }

  /**
   * Nor is the resulting balance kept non-negative: a valid DepositDto of -50 on a
   * SAVINGS row holding 0 leaves -50.
   */
  lemma NegativeDepositOverdraws()
    ensures var ts := Tables(map[], map["s1" := Account("s1", "alice", 1111111111, "SAVINGS", 0)]);
      var b := TransactionBody(Some("s1"), Some(-50), Some("SAVINGS"));
      var o := Deposit(ts, ToTransactionRequest(b), "alice");
      && ValidDeposit(b)
      && o.result == Success(Some(Account("s1", "alice", 1111111111, "SAVINGS", -50)))
      && o.after.savings["s1"].balance == -50
  {
    var ts := Tables(map[], map["s1" := Account("s1", "alice", 1111111111, "SAVINGS", 0)]);
    var req := ToTransactionRequest(TransactionBody(Some("s1"), Some(-50), Some("SAVINGS")));
    LedgerProperties.DepositAddsAmount(ts, req, "alice");
  }
}
