/**
 * The transaction table of src/components/TransactionsTable.tsx: the fetch of
 * a month's rows and its two completions (with no guard against stale
 * results), the choice of what to render, the colour of an amount, and the
 * inner entry form whose checks only alert.  JavaScript's `parseFloat` is an
 * opaque partial parse given to the component; `None` stands for NaN.
 */
module TransactionsView {
  import opened Wrappers

  /** A row as the component's `Txn` type declares it. */
  datatype Txn = Txn(id: int, account: string, date: string, payee: string, amountCents: int)

  /** The arguments of `get_txns_by_month_cmd`: year and month, and no account. */
  datatype FetchRequest = FetchRequest(year: int, month: int)

  /** The props of one render, as the closures created in that render see them. */
  datatype Props = Props(account: Option<string>, year: int, month: int)

  /** The arguments of the inner form's `create_txn_cmd`, and the props its completion refetches with. */
  datatype InnerCreate = InnerCreate(account: string, date: string, payee: string, amountCents: Option<int>, captured: Props)

  /** What the component renders. */
  datatype View = SelectAccount | ErrorView(message: string) | Loading | Table(rows: seq<Txn>)

  datatype Colour = Green | Red

  const AllFieldsRequired: string := "All fields are required"
  const InvalidAmountAlert: string := "Invalid amount"

  /** JavaScript truthiness of a `string | null`: null and "" are false. */
  predicate Truthy(s: Option<string>)
  {
    s.Some? && s.value != ""
  }

  /**
   * The render choice, in priority order: no account, then an error, then rows
   * not yet loaded, then the table.  An empty table shows the
   * "No transactions this month" row, which is neither the error nor the
   * loading view.
   */
  function Render(account: Option<string>, error: Option<string>, rows: Option<seq<Txn>>): (v: View)
    ensures v == SelectAccount <==> !Truthy(account)
    ensures v.ErrorView? <==> Truthy(account) && Truthy(error)
    ensures v.ErrorView? ==> v.message == error.value
    ensures v == Loading <==> Truthy(account) && !Truthy(error) && rows.None?
    ensures v.Table? <==> Truthy(account) && !Truthy(error) && rows.Some?
    ensures v.Table? ==> v.rows == rows.value
    ensures ShowsEmptyPlaceholder(v) <==> Truthy(account) && !Truthy(error) && rows == Some([])
  {
    if !Truthy(account) then SelectAccount
    else if Truthy(error) then ErrorView(error.value)
    else if rows.None? then Loading
    else Table(rows.value)
  }

  /** The table body holds the "No transactions this month" row. */
  predicate ShowsEmptyPlaceholder(v: View)
  {
    v.Table? && |v.rows| == 0
  }

  /** The colour of an amount cell: green for zero and above, red below. */
  function AmountColour(amountCents: int): (c: Colour)
    ensures c == Green <==> amountCents >= 0
    ensures c == Red <==> amountCents < 0
  {
    if amountCents >= 0 then Green else Red
  }

  /** `s.indexOf(',')`: the position of the first comma, -1 when there is none. */
  function CommaIndex(s: string): (k: int)
    ensures -1 <= k < |s|
    ensures k == -1 <==> forall i :: 0 <= i < |s| ==> s[i] != ','
    ensures k >= 0 ==> s[k] == ',' && forall i :: 0 <= i < k ==> s[i] != ','
  {
    if s == [] then -1
    else if s[0] == ',' then 0
    else
      var k := CommaIndex(s[1..]);
      assert forall i :: 1 <= i < |s| ==> s[i] == s[1..][i - 1];
      if k == -1 then -1 else k + 1
  }

  /** `s.replace(',', '.')`: with a string pattern only the first ',' is replaced. */
  function ReplaceFirstComma(s: string): (r: string)
    ensures |r| == |s|
    ensures forall i :: 0 <= i < |s| && s[i] != ',' ==> r[i] == s[i]
    ensures (forall i :: 0 <= i < |s| ==> s[i] != ',') ==> r == s
    ensures CommaIndex(s) >= 0 ==> r[CommaIndex(s)] == '.'
    ensures CommaIndex(s) >= 0 ==> forall i :: 0 <= i < |s| && i != CommaIndex(s) ==> r[i] == s[i]
  {
    var k := CommaIndex(s);
    if k == -1 then s else s[..k] + "." + s[k + 1..]
  }

  /** Exactly one comma becomes a point; later commas stay. */
  lemma ReplaceFirstCommaCounts(s: string)
    requires ',' in s
    ensures multiset(ReplaceFirstComma(s))[','] == multiset(s)[','] - 1
    ensures multiset(ReplaceFirstComma(s))['.'] == multiset(s)['.'] + 1
  {
    var k := CommaIndex(s);
    assert s == s[..k] + "," + s[k + 1..];
    assert ReplaceFirstComma(s) == s[..k] + "." + s[k + 1..];
  }

  /** JavaScript's `Math.round`: the nearest integer, halves rounded up. */
  function JsRound(x: real): (n: int)
    ensures n as real - 0.5 <= x < n as real + 0.5
  {
    (x + 0.5).Floor
  }

  /** `Math.round(parseFloat(amount.replace(',', '.')) * 100)`; `None` is NaN. */
  function InnerAmountCents(amount: string, parseFloat: string -> Option<real>): (r: Option<int>)
    ensures r.None? <==> parseFloat(ReplaceFirstComma(amount)).None?
    ensures r.Some? ==>
      var x := parseFloat(ReplaceFirstComma(amount)).value;
      r.value as real - 0.5 <= x * 100.0 < r.value as real + 0.5
  {
    match parseFloat(ReplaceFirstComma(amount))
    case None => None
    case Some(x) => Some(JsRound(x * 100.0))
  }

  class TransactionsTable {
    var account: Option<string>
    var year: int
    var month: int
    var rows: Option<seq<Txn>>
    var error: Option<string>
    /** The `get_txns_by_month_cmd` invocations issued so far, oldest first. */
    var fetches: seq<FetchRequest>
    /** The indices in `fetches` of the invocations that have completed. */
    var settledFetches: set<nat>
    /** The inner form's `create_txn_cmd` invocations issued so far, oldest first. */
    var creates: seq<InnerCreate>
    /** The indices in `creates` of the invocations that have completed. */
    var settledCreates: set<nat>
    /** The `alert` messages shown so far. */
    var alerts: seq<string>
    /** JavaScript's `parseFloat(s)`; `None` is NaN. */
    const parseFloat: string -> Option<real>

    function CurrentView(): View
      reads this
    {
      Render(account, error, rows)
    }

    /** Mounting: state starts null and the effect runs one fetch. */
    constructor (account: Option<string>, year: int, month: int, parseFloat: string -> Option<real>)
      ensures this.account == account && this.year == year && this.month == month
      ensures rows == None && error == None
      ensures fetches == if Truthy(account) then [FetchRequest(year, month)] else []
      ensures settledFetches == {} && creates == [] && settledCreates == {} && alerts == []
      ensures this.parseFloat == parseFloat
    {
      this.account, this.year, this.month := account, year, month;
      rows, error := None, None;
      fetches, settledFetches := [], {};
      creates, settledCreates, alerts := [], {}, [];
      this.parseFloat := parseFloat;
      new;
      FetchWith(Props(account, year, month));
    }

    /**
     * `fetchTransactions` as created in a render with props `p`: without an
     * account it does nothing; otherwise it clears rows and error and issues
     * one fetch for the year and month alone.
     */
    method FetchWith(p: Props)
      modifies this`rows, this`error, this`fetches
      ensures !Truthy(p.account) ==> rows == old(rows) && error == old(error) && fetches == old(fetches)
      ensures Truthy(p.account) ==>
        rows == None && error == None && fetches == old(fetches) + [FetchRequest(p.year, p.month)]
    {
      if !Truthy(p.account) {
        return;
      }
      rows := None;
      error := None;
      fetches := fetches + [FetchRequest(p.year, p.month)];
    }

    /**
     * A re-render with new props.  The effect depends on year and month only,
     * so a new account alone issues no fetch.
     */
    method Rerender(newAccount: Option<string>, newYear: int, newMonth: int)
      modifies this`account, this`year, this`month, this`rows, this`error, this`fetches
      ensures account == newAccount && year == newYear && month == newMonth
      ensures old(year) == newYear && old(month) == newMonth ==>
        rows == old(rows) && error == old(error) && fetches == old(fetches)
      ensures (old(year) != newYear || old(month) != newMonth) && !Truthy(newAccount) ==>
        rows == old(rows) && error == old(error) && fetches == old(fetches)
      ensures (old(year) != newYear || old(month) != newMonth) && Truthy(newAccount) ==>
        rows == None && error == None && fetches == old(fetches) + [FetchRequest(newYear, newMonth)]
    {
      var changed := year != newYear || month != newMonth;
      account, year, month := newAccount, newYear, newMonth;
      if changed {
        FetchWith(Props(newAccount, newYear, newMonth));
      }
    }

    /** Fetch `k` resolved: its rows replace whatever is shown, whichever fetch is the latest. */
    method ResolveFetch(k: nat, result: seq<Txn>)
      requires k < |fetches| && k !in settledFetches
      modifies this`rows, this`settledFetches
      ensures rows == Some(result) && settledFetches == old(settledFetches) + {k}
    {
      rows := Some(result);
      settledFetches := settledFetches + {k};
    }

    /** Fetch `k` rejected: its message becomes the error; rows keep their value. */
    method RejectFetch(k: nat, message: string)
      requires k < |fetches| && k !in settledFetches
      modifies this`error, this`settledFetches
      ensures error == Some(message) && settledFetches == old(settledFetches) + {k}
    {
      error := Some(message);
      settledFetches := settledFetches + {k};
    }

    /**
     * The inner form's `handleSubmit`, which exists only while the table is
     * shown.  A missing field and a NaN amount each raise an alert, but neither
     * stops the `create_txn_cmd` invocation.
     */
    method SubmitInner(payee: string, amount: string, date: string) returns (req: InnerCreate)
      requires CurrentView().Table?
      modifies this`alerts, this`creates
      ensures req == InnerCreate(account.value, date, payee, InnerAmountCents(amount, parseFloat), Props(account, year, month))
      ensures creates == old(creates) + [req]
      ensures alerts == old(alerts)
        + (if payee == "" || amount == "" || date == "" then [AllFieldsRequired] else [])
        + (if req.amountCents.None? then [InvalidAmountAlert] else [])
    {
      if payee == "" || amount == "" || date == "" {
        alerts := alerts + [AllFieldsRequired];
      }
      var cents := InnerAmountCents(amount, parseFloat);
      if cents.None? {
        alerts := alerts + [InvalidAmountAlert];
      }
      req := InnerCreate(account.value, date, payee, cents, Props(account, year, month));
      creates := creates + [req];
    }

    /**
     * Inner create `k` completed: on success the parent's `fetchTransactions`
     * of the submitting render runs, with that render's props; a failure is
     * only logged.
     */
    method CompleteInnerCreate(k: nat, ok: bool)
      requires k < |creates| && k !in settledCreates
      modifies this`rows, this`error, this`fetches, this`settledCreates
      ensures settledCreates == old(settledCreates) + {k}
      ensures !ok || !Truthy(creates[k].captured.account) ==>
        rows == old(rows) && error == old(error) && fetches == old(fetches)
      ensures ok && Truthy(creates[k].captured.account) ==>
        rows == None && error == None &&
        fetches == old(fetches) + [FetchRequest(creates[k].captured.year, creates[k].captured.month)]
    {
      settledCreates := settledCreates + {k};
      if ok {
        FetchWith(creates[k].captured);
      }
    }
  }

  /**
   * With no staleness guard, the fetch that completes last decides the rows:
   * after a switch to another month, the earlier month's late result is what
   * the table shows.
   */
  method LateResultWins(table: TransactionsTable, newYear: int, newMonth: int, earlier: seq<Txn>, later: seq<Txn>)
    requires Truthy(table.account) && table.fetches == [FetchRequest(table.year, table.month)]
    requires table.settledFetches == {} && (newYear != table.year || newMonth != table.month)
    modifies table
    ensures table.fetches == [FetchRequest(old(table.year), old(table.month)), FetchRequest(newYear, newMonth)]
    ensures table.year == newYear && table.month == newMonth
    ensures table.error == None && table.CurrentView() == Table(earlier)
  {
    table.Rerender(table.account, newYear, newMonth);
    table.ResolveFetch(1, later);
    table.ResolveFetch(0, earlier);
  }

  /**
   * A resolution does not clear an earlier rejection's error, and the error
   * view outranks the table: a rejected fetch followed by a resolved one still
   * shows the error.
   */
  method ErrorOutlivesLaterRows(table: TransactionsTable, message: string, result: seq<Txn>)
    requires Truthy(table.account) && |table.fetches| == 2 && table.settledFetches == {}
    requires message != ""
    modifies table
    ensures table.CurrentView() == ErrorView(message)
  {
    table.RejectFetch(0, message);
    table.ResolveFetch(1, result);
  }
}
