/**
 * The new-transaction form of src/components/NewTransactionForm.tsx: the
 * component's state, the loading of the account and category lists on mount,
 * and `handleSubmit` split at its `await` into a begin step and the two ways
 * the `create_txn_cmd` invocation can complete.  JavaScript's `Number()` and
 * `parseInt()` are opaque partial parses given to the component; `None`
 * stands for NaN.
 */
module EntryForm {
  import opened Wrappers

  datatype Account = Account(id: int, name: string)

  datatype Category = Category(id: int, name: string)

  /** The argument object of `invoke('create_txn_cmd', …)`; `None` is JSON null or a missing key. */
  datatype CreateArgs = CreateArgs(
    accountName: Option<string>,
    date: string,
    payeeName: string,
    category: Option<int>,
    memo: Option<string>,
    amountCents: real,
    cleared: int)

  /** What one submit does: nothing, the inline amount error, or one issued command. */
  datatype SubmitStep = Ignored | InvalidAmount | Issued(args: CreateArgs)

  const InvalidAmountMessage: string := "Invalid amount"

  /** `accounts.find(a => a.id === id)?.name`: the name of the first account with that id. */
  function FindAccountName(accounts: seq<Account>, id: Option<int>): (r: Option<string>)
    ensures r.None? <==> id.None? || forall i :: 0 <= i < |accounts| ==> accounts[i].id != id.value
    ensures r.Some? ==> exists i :: 0 <= i < |accounts| && accounts[i].id == id.value && accounts[i].name == r.value
                          && forall j :: 0 <= j < i ==> accounts[j].id != id.value
  {
    if id.None? || accounts == [] then None
    else if accounts[0].id == id.value then Some(accounts[0].name)
    else
      var r := FindAccountName(accounts[1..], id);
      assert forall i :: 1 <= i < |accounts| ==> accounts[i] == accounts[1..][i - 1];
      r
  }

  /**
   * The argument object built from the form state: the account travels by name,
   * an empty category or memo becomes null (so does a category that parses to
   * NaN, which JSON writes as null), `cleared` travels as 1 or 0, and the
   * amount is the parsed number as it stands, not scaled to cents.
   */
  function BuildCreateArgs(accounts: seq<Account>, accountId: string, date: string, payeeName: string,
                           categoryId: string, memo: string, amountCents: real, cleared: bool,
                           parseInt: string -> Option<int>): (r: CreateArgs)
    ensures r.accountName.Some? <==>
              parseInt(accountId).Some? && exists i :: 0 <= i < |accounts| && accounts[i].id == parseInt(accountId).value
    ensures r.accountName == FindAccountName(accounts, parseInt(accountId))
    ensures r.date == date && r.payeeName == payeeName && r.amountCents == amountCents
    ensures r.category.None? <==> categoryId == "" || parseInt(categoryId).None?
    ensures r.category.Some? ==> r.category == parseInt(categoryId)
    ensures r.memo.None? <==> memo == ""
    ensures r.memo.Some? ==> r.memo.value == memo
    ensures (r.cleared == 1 <==> cleared) && (r.cleared == 0 <==> !cleared)
  {
    CreateArgs(
      FindAccountName(accounts, parseInt(accountId)),
      date,
      payeeName,
      if categoryId != "" then parseInt(categoryId) else None,
      if memo != "" then Some(memo) else None,
      amountCents,
      if cleared then 1 else 0)
  }

  class NewTransactionForm {
    var accounts: seq<Account>
    var accountId: string
    var payeeName: string
    var amount: string
    var date: string
    var categories: seq<Category>
    var categoryId: string
    var memo: string
    var cleared: bool
    var error: Option<string>
    var isSubmitting: bool
    /** The `create_txn_cmd` invocations issued so far, oldest first. */
    var issued: seq<CreateArgs>
    /** How many of those invocations have completed. */
    var settled: nat
    /** How many times `onNewTransaction` has been called. */
    var refreshes: nat
    /** JavaScript's `Number(s)`; `None` is NaN. */
    const toNumber: string -> Option<real>
    /** JavaScript's `parseInt(s)`; `None` is NaN. */
    const parseInt: string -> Option<int>

    /** At most one invocation is outstanding, and only while `isSubmitting` is set. */
    ghost predicate Valid()
      reads this
    {
      |issued| == settled + (if isSubmitting then 1 else 0)
    }

    /** The component as first rendered: empty fields and lists, the date set to today. */
    constructor (today: string, toNumber: string -> Option<real>, parseInt: string -> Option<int>)
      ensures Valid()
      ensures accounts == [] && categories == []
      ensures accountId == "" && payeeName == "" && amount == "" && categoryId == "" && memo == ""
      ensures date == today && !cleared && error == None && !isSubmitting
      ensures issued == [] && refreshes == 0
      ensures this.toNumber == toNumber && this.parseInt == parseInt
    {
      accounts, categories := [], [];
      accountId, payeeName, amount, categoryId, memo := "", "", "", "", "";
      date, cleared, error, isSubmitting := today, false, None, false;
      issued, settled, refreshes := [], 0, 0;
      this.toNumber, this.parseInt := toNumber, parseInt;
    }

    /** Completion of `list_accounts_cmd`, issued on mount. */
    method AccountsLoaded(outcome: Result<seq<Account>, string>)
      modifies this`accounts, this`error
      ensures outcome.Success? ==> accounts == outcome.value && error == old(error)
      ensures outcome.Failure? ==> accounts == old(accounts) && error == Some(outcome.error)
    {
      match outcome
      case Success(list) => accounts := list;
      case Failure(message) => error := Some(message);
    }

    /** Completion of `list_categories_cmd`, issued on mount. */
    method CategoriesLoaded(outcome: Result<seq<Category>, string>)
      modifies this`categories, this`error
      ensures outcome.Success? ==> categories == outcome.value && error == old(error)
      ensures outcome.Failure? ==> categories == old(categories) && error == Some(outcome.error)
    {
      match outcome
      case Success(list) => categories := list;
      case Failure(message) => error := Some(message);
    }

    /**
     * `handleSubmit` up to its `await`.  A missing account, payee or amount, or a
     * submission in flight, leaves everything as it is; an amount that is NaN
     * sets the inline error and issues nothing; otherwise the form turns busy,
     * clears its error and issues one `create_txn_cmd`.
     */
    method BeginSubmit() returns (step: SubmitStep)
      requires Valid()
      modifies this`error, this`isSubmitting, this`issued
      ensures Valid()
      ensures accountId == "" || payeeName == "" || amount == "" || old(isSubmitting) ==>
        step == Ignored && error == old(error) && isSubmitting == old(isSubmitting) && issued == old(issued)
      ensures accountId != "" && payeeName != "" && amount != "" && !old(isSubmitting) && toNumber(amount).None? ==>
        step == InvalidAmount && error == Some(InvalidAmountMessage) && !isSubmitting && issued == old(issued)
      ensures accountId != "" && payeeName != "" && amount != "" && !old(isSubmitting) && toNumber(amount).Some? ==>
        && step == Issued(BuildCreateArgs(accounts, accountId, date, payeeName, categoryId, memo,
                                          toNumber(amount).value, cleared, parseInt))
        && isSubmitting && error == None && issued == old(issued) + [step.args]
    {
      if accountId == "" || payeeName == "" || amount == "" || isSubmitting {
        return Ignored;
      }
      var amountCents := toNumber(amount);
      if amountCents.None? {
        error := Some(InvalidAmountMessage);
        return InvalidAmount;
      }
      isSubmitting := true;
      error := None;
      var args := BuildCreateArgs(accounts, accountId, date, payeeName, categoryId, memo,
                                  amountCents.value, cleared, parseInt);
      issued := issued + [args];
      step := Issued(args);
    }

    /**
     * The command resolved: payee, amount, category, memo and cleared are reset,
     * account and date are kept, `onNewTransaction` is called once, and the
     * form is no longer busy.
     */
    method CompleteOk()
      requires Valid() && isSubmitting
      modifies this`payeeName, this`amount, this`categoryId, this`memo, this`cleared
      modifies this`isSubmitting, this`settled, this`refreshes
      ensures Valid()
      ensures payeeName == "" && amount == "" && categoryId == "" && memo == "" && !cleared
      ensures accountId == old(accountId) && date == old(date) && error == old(error)
      ensures refreshes == old(refreshes) + 1 && !isSubmitting && issued == old(issued)
    {
      payeeName, amount, categoryId, memo, cleared := "", "", "", "", false;
      refreshes := refreshes + 1;
      settled := settled + 1;
      isSubmitting := false;
    }

    /**
     * The command rejected: the stringified error is shown, every field keeps
     * its value so the user can retry, no callback runs, and the form is no
     * longer busy.
     */
    method CompleteErr(message: string)
      requires Valid() && isSubmitting
      modifies this`error, this`isSubmitting, this`settled
      ensures Valid()
      ensures error == Some(message) && !isSubmitting
      ensures payeeName == old(payeeName) && amount == old(amount) && categoryId == old(categoryId)
      ensures memo == old(memo) && cleared == old(cleared) && refreshes == old(refreshes) && issued == old(issued)
    {
      error := Some(message);
      settled := settled + 1;
      isSubmitting := false;
    }
  }

  /** Two submits before the first completes issue at most one command. */
  method SubmitTwice(form: NewTransactionForm) returns (first: SubmitStep, second: SubmitStep)
    requires form.Valid()
    modifies form
    ensures form.Valid()
    ensures |form.issued| <= |old(form.issued)| + 1
    ensures first.Issued? ==> second == Ignored
  {
    first := form.BeginSubmit();
    second := form.BeginSubmit();
  }
}
