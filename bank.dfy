/** The balance-transfer engine of the bank controller (transferBalance).

    The account store is a map from the owning user's id to the balance in
    cents, because the controller looks both accounts up by `userId`. One
    request is one atomic step; the session opened for it is tracked as a
    transaction state so that every exit path can say whether it aborted,
    committed or left the transaction open. */
module Bank {
  import opened Common

  /** State of the database session a request opened. */
  datatype TxnState = NoSession | Open | Aborted | Committed

  /** The four early exits of transferBalance, in the order they are tested. */
  datatype Failure = NotLoggedIn | NoSenderAccount | InsufficientBalance | NoRecipientAccount

  /** The payload of the success reply: who paid, who was paid, how much. */
  datatype Receipt = Receipt(fromUser: UserId, toUser: UserId, amount: int)

  datatype Result = Done(receipt: Receipt) | Failed(failure: Failure)

  /** What one request does: its result, the balances afterwards and the state
      its session was left in. */
  datatype Outcome = Outcome(result: Result, accounts: map<UserId, int>, txn: TxnState)

  /** Sum of all balances. */
  ghost function Total(accounts: map<UserId, int>): int
    decreases |accounts|
  {
    if accounts == map[] then 0
    else
      var k :| k in accounts;
      assert (accounts - {k}).Keys == accounts.Keys - {k};
      accounts[k] + Total(accounts - {k})
  }

  /** Total may be computed by taking out any one account first. */
  lemma {:induction false} TotalRemove(accounts: map<UserId, int>, k: UserId)
    requires k in accounts
    ensures Total(accounts) == accounts[k] + Total(accounts - {k})
    decreases |accounts|
  {
    var j :| j in accounts && Total(accounts) == accounts[j] + Total(accounts - {j});
    if j != k {
      assert (accounts - {j}).Keys == accounts.Keys - {j};
      assert (accounts - {k}).Keys == accounts.Keys - {k};
      TotalRemove(accounts - {j}, k);
      TotalRemove(accounts - {k}, j);
      assert accounts - {j} - {k} == accounts - {k} - {j};
    }
  }

  /** Changing one balance changes the total by exactly the difference. */
  lemma TotalUpdate(accounts: map<UserId, int>, k: UserId, v: int)
    requires k in accounts
    ensures Total(accounts[k := v]) == Total(accounts) - accounts[k] + v
  {
    TotalRemove(accounts, k);
    TotalRemove(accounts[k := v], k);
    assert accounts[k := v] - {k} == accounts - {k};
  }

  /** The $inc pair of bank.controller.ts, applied in its order: first the
      sender's balance drops by amount, then the recipient's rises by amount. */
  function DebitCredit(accounts: map<UserId, int>, from: UserId, to: UserId, amount: int): (r: map<UserId, int>)
    requires from in accounts && to in accounts
    ensures r.Keys == accounts.Keys
    ensures Total(r) == Total(accounts)
    ensures from != to ==> r[from] == accounts[from] - amount && r[to] == accounts[to] + amount
    ensures from == to ==> r == accounts
    ensures forall k :: k in accounts && k != from && k != to ==> r[k] == accounts[k]
  {
    var debited := accounts[from := accounts[from] - amount];
    TotalUpdate(accounts, from, accounts[from] - amount);
    TotalUpdate(debited, to, debited[to] + amount);
    debited[to := debited[to] + amount]
  }

  /** transferBalance as one atomic step over the balances. `caller` is the
      user bound by the authentication gate, `to` the recipient's user id. */
  function Transfer(accounts: map<UserId, int>, caller: Option<UserId>, to: UserId, amount: int): (o: Outcome)
    ensures o.result.Done? <==>
              caller.Some? && caller.value in accounts && amount <= accounts[caller.value] && to in accounts
    ensures o.result.Failed? ==> o.accounts == accounts
    ensures o.txn == Committed <==> o.result.Done?
    ensures o.result.Done? ==> o.result.receipt == Receipt(caller.value, to, amount)
    ensures o.accounts.Keys == accounts.Keys
    ensures Total(o.accounts) == Total(accounts)
  {
    if caller.None? then Outcome(Failed(NotLoggedIn), accounts, NoSession)
    else
      var from := caller.value;
      if from !in accounts then Outcome(Failed(NoSenderAccount), accounts, Aborted)
      else if accounts[from] < amount then Outcome(Failed(InsufficientBalance), accounts, Open)
      else if to !in accounts then Outcome(Failed(NoRecipientAccount), accounts, Aborted)
      else Outcome(Done(Receipt(from, to, amount)), DebitCredit(accounts, from, to, amount), Committed)
  }

  /** The HTTP reply transferBalance sends for a result. */
  function ReplyOf(result: Result): (r: Reply<Receipt>)
    ensures r.Json?
    ensures r.Succeeded() <==> result.Done?
    ensures r.code == 200 <==> result.Done?
    ensures r.code == 403 <==> result == Failed(NotLoggedIn)
    ensures result.Failed? && result.failure != NotLoggedIn ==> r.code == 404
    ensures result.Done? ==> r.body.data == Some(result.receipt)
  {
    match result
    case Done(receipt) => Ok(200, "Transaction successfull", receipt)
    case Failed(NotLoggedIn) => Fail(403, "Login for transaction")
    case Failed(NoSenderAccount) => Fail(404, "Bank account not found")
    case Failed(InsufficientBalance) => Fail(404, "Insufficient Balence")
    case Failed(NoRecipientAccount) => Fail(404, "Please provide valid account details")
  }

  // ---------------------------------------------------------------------------
  // The exit paths, one lemma each.

  /** Without a caller nothing is looked up, no session is opened and no
      balance changes. */
  lemma NoCallerChangesNothing(accounts: map<UserId, int>, to: UserId, amount: int)
    ensures var o := Transfer(accounts, None, to, amount);
      o == Outcome(Failed(NotLoggedIn), accounts, NoSession) && ReplyOf(o.result).code == 403
  {
  }

  /** A caller without a bank account aborts the transaction; balances stay. */
  lemma NoSenderAccountAborts(accounts: map<UserId, int>, caller: UserId, to: UserId, amount: int)
    requires caller !in accounts
    ensures Transfer(accounts, Some(caller), to, amount) == Outcome(Failed(NoSenderAccount), accounts, Aborted)
  {
  }

  /** Insufficient funds are reported whether or not the recipient exists (the
      check precedes the recipient lookup), balances stay, and the transaction
      is left open: this path neither aborts nor commits. */
  lemma InsufficientBalanceLeavesTxnOpen(accounts: map<UserId, int>, caller: UserId, to: UserId, amount: int)
    requires caller in accounts && accounts[caller] < amount
    ensures Transfer(accounts, Some(caller), to, amount) == Outcome(Failed(InsufficientBalance), accounts, Open)
  {
  }

  /** An unknown recipient aborts the transaction and no debit leaks. */
  lemma NoRecipientAborts(accounts: map<UserId, int>, caller: UserId, to: UserId, amount: int)
    requires caller in accounts && amount <= accounts[caller] && to !in accounts
    ensures var o := Transfer(accounts, Some(caller), to, amount);
      o == Outcome(Failed(NoRecipientAccount), accounts, Aborted) && o.accounts[caller] == accounts[caller]
  {
  }

  /** A transfer between two distinct accounts moves exactly amount, keeps the
      sum of the two balances and touches no other account. */
  lemma TransferMovesAmount(accounts: map<UserId, int>, from: UserId, to: UserId, amount: int)
    requires from in accounts && to in accounts && from != to && amount <= accounts[from]
    ensures var o := Transfer(accounts, Some(from), to, amount);
      && o.result == Done(Receipt(from, to, amount))
      && o.txn == Committed
      && o.accounts[from] == accounts[from] - amount
      && o.accounts[to] == accounts[to] + amount
      && o.accounts[from] + o.accounts[to] == accounts[from] + accounts[to]
      && (forall k :: k in accounts && k != from && k != to ==> o.accounts[k] == accounts[k])
  {
  }

  /** Sending money to oneself succeeds, commits, and the two increments
      cancel: every balance is as before. */
  lemma SelfTransferCancels(accounts: map<UserId, int>, from: UserId, amount: int)
    requires from in accounts && amount <= accounts[from]
    ensures var o := Transfer(accounts, Some(from), from, amount);
      o.result.Done? && o.txn == Committed && o.accounts == accounts
  {
  }

  predicate NonNegative(accounts: map<UserId, int>)
  {
    forall k :: k in accounts ==> accounts[k] >= 0
  }

  /** With a non-negative amount every balance stays non-negative. */
  lemma NonNegativeAmountKeepsBalancesNonNegative(accounts: map<UserId, int>, caller: Option<UserId>, to: UserId, amount: int)
    requires NonNegative(accounts) && amount >= 0
    ensures NonNegative(Transfer(accounts, caller, to, amount).accounts)
  {
  }

  /** The amount is never checked for sign: a negative amount always passes
      the balance check of a solvent sender, and it lowers the recipient's
      balance. */
  lemma NegativeAmountDebitsRecipient(accounts: map<UserId, int>, from: UserId, to: UserId, amount: int)
    requires from in accounts && to in accounts && from != to
    requires accounts[from] >= 0 && amount < 0
    ensures var o := Transfer(accounts, Some(from), to, amount);
      o.result.Done? && o.accounts[to] < accounts[to] && o.accounts[from] > accounts[from]
  {
  }

  /** ... and there is no lower bound: for any floor, some amount accepted for
      a solvent sender drives the recipient's balance below it. */
  lemma NegativeAmountHasNoFloor(accounts: map<UserId, int>, from: UserId, to: UserId, floor: int)
    requires from in accounts && to in accounts && from != to && accounts[from] >= 0
    ensures exists amount: int :: Transfer(accounts, Some(from), to, amount).result.Done? &&
                                  Transfer(accounts, Some(from), to, amount).accounts[to] < floor
  {
    var amount := if floor - accounts[to] - 1 < 0 then floor - accounts[to] - 1 else -1;
    assert Transfer(accounts, Some(from), to, amount).accounts[to] == accounts[to] + amount;
  }

  // ---------------------------------------------------------------------------

  /** The bank collection as the controller updates it, with the session of
      the latest request. */
  class Ledger {
    var accounts: map<UserId, int>
    ghost var txn: TxnState

    constructor (initial: map<UserId, int>)
      ensures accounts == initial && txn == NoSession
    {
      accounts := initial;
      txn := NoSession;
    }

    /** transferBalance: the early-exit chain, then the debit/credit pair and
        the commit. */
    method TransferBalance(caller: Option<UserId>, to: UserId, amount: int) returns (reply: Reply<Receipt>)
      modifies this
      ensures var o := Transfer(old(accounts), caller, to, amount);
        reply == ReplyOf(o.result) && accounts == o.accounts && txn == o.txn
      ensures Total(accounts) == Total(old(accounts))
      ensures !reply.Succeeded() ==> accounts == old(accounts)
    {
      if caller.None? {
        txn := NoSession;
        return Fail(403, "Login for transaction");
      }
      txn := Open;
      var from := caller.value;
      if from !in accounts {
        txn := Aborted;
        return Fail(404, "Bank account not found");
      }
      if accounts[from] < amount {
        return Fail(404, "Insufficient Balence");
      }
      if to !in accounts {
        txn := Aborted;
        return Fail(404, "Please provide valid account details");
      }
      ghost var before := accounts;
      accounts := accounts[from := accounts[from] - amount];
      accounts := accounts[to := accounts[to] + amount];
      assert accounts == DebitCredit(before, from, to, amount);
      txn := Committed;
      reply := Ok(200, "Transaction successfull", Receipt(from, to, amount));
    }
  }
}
