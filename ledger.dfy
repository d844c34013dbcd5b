/**
 * The ledger tables of src-tauri/src/schema.rs and the commands of
 * src-tauri/src/lib.rs that read and extend them: the full month query
 * (inner join with accounts, left joins with payees and categories, filter by
 * account and month window, order by date then id), the month query without
 * an account filter, the unfiltered listing, and the insertion of one
 * transaction.  A failing connection or Diesel call is one opaque `fault`.
 */
module Ledger {
  import opened Wrappers
  import opened MonthWindow

  /** A row of the accounts table. */
  datatype Account = Account(
    id: int,
    name: string,
    kind: string,
    currency: string,
    balanceCents: int,
    createdAt: string,
    isClosed: int)

  /** A row of the payees table or of the categories table: both are (id, name). */
  datatype NamedRow = NamedRow(id: int, name: string)

  /** A row of the transactions table; NULL columns are `None`. */
  datatype Transaction = Transaction(
    id: int,
    account: int,
    date: string,
    payee: Option<int>,
    category: Option<int>,
    memo: Option<string>,
    amountCents: int,
    cleared: int)

  datatype Tables = Tables(
    accounts: seq<Account>,
    payees: seq<NamedRow>,
    categories: seq<NamedRow>,
    transactions: seq<Transaction>)

  /** One row of the full month query: a transaction with its joined names. */
  datatype TxnFull = TxnFull(
    id: int,
    date: string,
    accountName: string,
    payeeName: Option<string>,
    categoryName: Option<string>,
    memo: Option<string>,
    amountCents: int)

  /** The value SQLite gives the `cleared` column when an insert leaves it out. */
  const DefaultCleared: int := 0

  // ---------------------------------------------------------------------------
  // Keys and joins
  // ---------------------------------------------------------------------------

  /** The primary key of each table. */
  function AccountKey(a: Account): int { a.id }

  function RowKey(r: NamedRow): int { r.id }

  function TxnKey(t: Transaction): int { t.id }

  /** Every key of `s` is held by one row only, as a primary key requires. */
  predicate UniqueKeys<T>(s: seq<T>, key: T -> int)
  {
    forall i, j :: 0 <= i < j < |s| ==> key(s[i]) != key(s[j])
  }

  /** The `name` column of accounts, payees and categories. */
  function AccountLabel(a: Account): string { a.name }

  function RowLabel(r: NamedRow): string { r.name }

  /**
   * The name of the first row whose key is `id`, as an equi-join on that key
   * finds it: present exactly when some row has the key, and then that row's name.
   */
  function NameByKey<T>(rows: seq<T>, id: int, key: T -> int, name: T -> string): (r: Option<string>)
    ensures r.None? <==> forall i :: 0 <= i < |rows| ==> key(rows[i]) != id
    ensures r.Some? ==> exists i :: 0 <= i < |rows| && key(rows[i]) == id && name(rows[i]) == r.value
  {
    if rows == [] then None
    else if key(rows[0]) == id then Some(name(rows[0]))
    else
      var r := NameByKey(rows[1..], id, key, name);
      assert forall i :: 1 <= i < |rows| ==> rows[i] == rows[1..][i - 1];
      r
  }

  /** A left join on a nullable key: NULL when the key is NULL or matches no row. */
  function LeftJoinName(rows: seq<NamedRow>, key: Option<int>): (r: Option<string>)
    ensures r.None? <==> key.None? || forall i :: 0 <= i < |rows| ==> rows[i].id != key.value
    ensures r.Some? ==> exists i :: 0 <= i < |rows| && Some(rows[i].id) == key && rows[i].name == r.value
  {
    if key.None? then None else NameByKey(rows, key.value, RowKey, RowLabel)
  }

  /** The transaction survives the inner join with accounts. */
  predicate HasAccount(db: Tables, t: Transaction)
  {
    NameByKey(db.accounts, t.account, AccountKey, AccountLabel).Some?
  }

  /** The selected columns of one joined row. */
  function ToFull(db: Tables, t: Transaction): (r: TxnFull)
    requires HasAccount(db, t)
    ensures r.id == t.id && r.date == t.date && r.memo == t.memo && r.amountCents == t.amountCents
    ensures exists i :: 0 <= i < |db.accounts| && db.accounts[i].id == t.account && db.accounts[i].name == r.accountName
    ensures r.payeeName.None? <==> t.payee.None? || forall i :: 0 <= i < |db.payees| ==> db.payees[i].id != t.payee.value
    ensures r.categoryName.None? <==> t.category.None? || forall i :: 0 <= i < |db.categories| ==> db.categories[i].id != t.category.value
    ensures r.payeeName == LeftJoinName(db.payees, t.payee) && r.categoryName == LeftJoinName(db.categories, t.category)
  {
    TxnFull(t.id, t.date, NameByKey(db.accounts, t.account, AccountKey, AccountLabel).value,
            LeftJoinName(db.payees, t.payee), LeftJoinName(db.categories, t.category),
            t.memo, t.amountCents)
  }

  function ToFullAll(db: Tables, s: seq<Transaction>): (r: seq<TxnFull>)
    requires forall t :: t in s ==> HasAccount(db, t)
    ensures |r| == |s| && forall i :: 0 <= i < |s| ==> r[i] == ToFull(db, s[i])
  {
    if s == [] then [] else [ToFull(db, s[0])] + ToFullAll(db, s[1..])
  }

  // ---------------------------------------------------------------------------
  // Filter and order
  // ---------------------------------------------------------------------------

  /** The rows of `s` that satisfy `keep`, in their original order. */
  function Filter(s: seq<Transaction>, keep: Transaction -> bool): (r: seq<Transaction>)
    ensures forall t :: t in r <==> t in s && keep(t)
    ensures multiset(r) <= multiset(s)
  {
    if s == [] then []
    else
      var rest := Filter(s[1..], keep);
      assert s == [s[0]] + s[1..];
      if keep(s[0]) then [s[0]] + rest else rest
  }

  /** The ORDER BY clauses of the queries. */
  datatype Order = ByDate | ByDateThenId

  /** `a` may be listed before `b`. */
  predicate Precedes(a: Transaction, b: Transaction, order: Order)
    ensures Precedes(a, b, order) ==> !TextLess(b.date, a.date)
    ensures Precedes(a, b, order) && order == ByDateThenId && a.date == b.date ==> a.id <= b.id
  {
    TextLessIrreflexive(a.date);
    TextLessAsymmetric(a.date, b.date);
    TextLess(a.date, b.date) || (a.date == b.date && (order == ByDate || a.id <= b.id))
  }

  predicate SortedBy(s: seq<Transaction>, order: Order)
  {
    forall i, j :: 0 <= i < j < |s| ==> Precedes(s[i], s[j], order)
  }

  lemma PrecedesTotal(a: Transaction, b: Transaction, order: Order)
    ensures Precedes(a, b, order) || Precedes(b, a, order)
  {
    TextLessTotal(a.date, b.date);
  }

  lemma PrecedesTransitive(a: Transaction, b: Transaction, c: Transaction, order: Order)
    requires Precedes(a, b, order) && Precedes(b, c, order)
    ensures Precedes(a, c, order)
  {
    if TextLess(a.date, b.date) && TextLess(b.date, c.date) {
      TextLessTransitive(a.date, b.date, c.date);
    }
  }

  function Insert(t: Transaction, s: seq<Transaction>, order: Order): (r: seq<Transaction>)
    requires SortedBy(s, order)
    ensures SortedBy(r, order)
    ensures multiset(r) == multiset(s) + multiset{t}
  {
    if s == [] then [t]
    else if Precedes(t, s[0], order) then
      assert forall j :: 0 <= j < |s| ==> Precedes(s[0], s[j], order);
      forall j | 0 <= j < |s| ensures Precedes(t, s[j], order) {
        if j > 0 { PrecedesTransitive(t, s[0], s[j], order); }
      }
      [t] + s
    else
      PrecedesTotal(t, s[0], order);
      var rest := Insert(t, s[1..], order);
      assert s == [s[0]] + s[1..];
      forall x | x in rest ensures Precedes(s[0], x, order) {
        assert x in multiset(rest);
      }
      [s[0]] + rest
  }

  lemma SameMembers(a: seq<Transaction>, b: seq<Transaction>)
    requires multiset(a) == multiset(b)
    ensures forall t :: t in a <==> t in b
  {
    forall t ensures t in a <==> t in b {
      assert t in a <==> t in multiset(a);
      assert t in b <==> t in multiset(b);
    }
  }

  /** Insertion sort: a sorted permutation of `s`. */
  function Sort(s: seq<Transaction>, order: Order): (r: seq<Transaction>)
    ensures SortedBy(r, order)
    ensures multiset(r) == multiset(s)
  {
    if s == [] then []
    else
      assert s == [s[0]] + s[1..];
      Insert(s[0], Sort(s[1..], order), order)
  }

  // ---------------------------------------------------------------------------
  // The commands
  // ---------------------------------------------------------------------------

  /** The rows `list_txns_by_month_full` keeps before it orders them. */
  predicate InAccountMonth(db: Tables, t: Transaction, accountId: int, year: int, month: int)
    ensures InAccountMonth(db, t, accountId, year, month) ==>
      && (exists i :: 0 <= i < |db.accounts| && db.accounts[i].id == accountId)
      && TextLess(FirstOfMonth(year, month), WindowEnd(year, month))
  {
    HasAccount(db, t) && t.account == accountId && InWindow(t.date, year, month)
  }

  /** `list_txns_by_month_full(account_id, year, month)`. */
  function ListTxnsByMonthFull(db: Tables, accountId: int, year: int, month: int, fault: Option<string>)
    : (r: Result<seq<TxnFull>, string>)
    ensures r.Failure? <==> fault.Some?
  {
    if fault.Some? then Failure(fault.value)
    else
      var kept := Filter(db.transactions, (t: Transaction) => InAccountMonth(db, t, accountId, year, month));
      var sorted := Sort(kept, ByDateThenId);
      SameMembers(sorted, kept);
      Success(ToFullAll(db, sorted))
  }

  /** `get_txns_by_month_cmd(year, month)`: the window only, no account filter and no join. */
  function GetTxnsByMonth(db: Tables, year: int, month: int, fault: Option<string>)
    : (r: Result<seq<Transaction>, string>)
    ensures r.Failure? <==> fault.Some?
  {
    if fault.Some? then Failure(fault.value)
    else Success(Sort(Filter(db.transactions, (t: Transaction) => InWindow(t.date, year, month)), ByDate))
  }

  /** `get_txns_cmd()`: every transaction, by date. */
  function GetTxns(db: Tables, fault: Option<string>): (r: Result<seq<Transaction>, string>)
    ensures r.Failure? <==> fault.Some?
  {
    if fault.Some? then Failure(fault.value) else Success(Sort(db.transactions, ByDate))
  }

  // ---------------------------------------------------------------------------
  // What the commands return
  // ---------------------------------------------------------------------------

  /** The full month query orders its rows by date, then by id. */
  lemma {:induction false} ListFullOrdered(db: Tables, accountId: int, year: int, month: int)
    ensures var rows := ListTxnsByMonthFull(db, accountId, year, month, None).value;
      forall i, j :: 0 <= i < j < |rows| ==>
        TextLess(rows[i].date, rows[j].date) || (rows[i].date == rows[j].date && rows[i].id <= rows[j].id)
  {
    var kept := Filter(db.transactions, (t: Transaction) => InAccountMonth(db, t, accountId, year, month));
    var sorted := Sort(kept, ByDateThenId);
    SameMembers(sorted, kept);
    var rows := ListTxnsByMonthFull(db, accountId, year, month, None).value;
    assert rows == ToFullAll(db, sorted);
    forall i, j | 0 <= i < j < |rows|
      ensures TextLess(rows[i].date, rows[j].date) || (rows[i].date == rows[j].date && rows[i].id <= rows[j].id)
    {
      assert Precedes(sorted[i], sorted[j], ByDateThenId);
    }
  }

  /**
   * The full month query returns exactly the joined rows of the transactions of
   * the account whose date lies in the window and whose account row exists.
   */
  lemma ListFullSelects(db: Tables, accountId: int, year: int, month: int)
    ensures var rows := ListTxnsByMonthFull(db, accountId, year, month, None).value;
      && (forall row :: row in rows ==>
            exists t :: t in db.transactions && InAccountMonth(db, t, accountId, year, month) && row == ToFull(db, t))
      && (forall t :: t in db.transactions && InAccountMonth(db, t, accountId, year, month) ==> ToFull(db, t) in rows)
  {
    var kept := Filter(db.transactions, (t: Transaction) => InAccountMonth(db, t, accountId, year, month));
    var sorted := Sort(kept, ByDateThenId);
    SameMembers(sorted, kept);
    var rows := ListTxnsByMonthFull(db, accountId, year, month, None).value;
    assert rows == ToFullAll(db, sorted);
    forall row | row in rows
      ensures exists t :: t in db.transactions && InAccountMonth(db, t, accountId, year, month) && row == ToFull(db, t)
    {
      var i :| 0 <= i < |rows| && rows[i] == row;
      assert sorted[i] in kept;
    }
    forall t | t in db.transactions && InAccountMonth(db, t, accountId, year, month)
      ensures ToFull(db, t) in rows
    {
      assert t in sorted;
      var i :| 0 <= i < |sorted| && sorted[i] == t;
      assert rows[i] == ToFull(db, t);
    }
  }

  /**
   * For a validated month, the full month query returns a transaction of the
   * table that has a well-formed date exactly when it belongs to the account
   * and its date falls in that year and month.  Rows with other dates may sit
   * in the same table.
   */
  lemma ListFullSelectsCalendarMonth(db: Tables, accountId: int, year: int, month: int)
    requires UniqueKeys(db.transactions, TxnKey)
    requires 0 <= year <= 9999 && 1 <= month <= 12 && (month == 12 ==> year <= 9998)
    ensures var rows := ListTxnsByMonthFull(db, accountId, year, month, None).value;
      forall t :: t in db.transactions && WellFormedDate(t.date) && HasAccount(db, t) ==>
        (ToFull(db, t) in rows <==> t.account == accountId && InCalendarMonth(t.date, year, month))
  {
    ListFullSelects(db, accountId, year, month);
    var rows := ListTxnsByMonthFull(db, accountId, year, month, None).value;
    forall t | t in db.transactions && WellFormedDate(t.date) && HasAccount(db, t)
      ensures ToFull(db, t) in rows <==> t.account == accountId && InCalendarMonth(t.date, year, month)
    {
      WindowSelectsMonth(t.date, year, month);
      if ToFull(db, t) in rows {
        var t' :| t' in db.transactions && InAccountMonth(db, t', accountId, year, month) && ToFull(db, t) == ToFull(db, t');
        SameIdSameRow(db.transactions, t, t');
      }
    }
  }

  /** Under a primary key, a key identifies its row. */
  lemma SameIdSameRow(s: seq<Transaction>, t: Transaction, t': Transaction)
    requires UniqueKeys(s, TxnKey) && t in s && t' in s
    ensures t.id == t'.id ==> t == t'
  {
    var i :| 0 <= i < |s| && s[i] == t;
    var j :| 0 <= j < |s| && s[j] == t';
    assert i < j || j < i ==> TxnKey(s[i]) != TxnKey(s[j]);
  }

  /** Under a primary key, no transaction occurs twice. */
  lemma {:induction false} UniqueKeysOnce(s: seq<Transaction>)
    requires UniqueKeys(s, TxnKey)
    ensures forall t :: multiset(s)[t] <= 1
  {
    if s != [] {
      var rest := s[1..];
      assert s == [s[0]] + rest;
      assert UniqueKeys(rest, TxnKey) by {
        forall i, j | 0 <= i < j < |rest| ensures TxnKey(rest[i]) != TxnKey(rest[j]) {
          assert rest[i] == s[i + 1] && rest[j] == s[j + 1];
        }
      }
      UniqueKeysOnce(rest);
      forall k | 0 <= k < |rest| ensures rest[k] != s[0] {
        assert TxnKey(s[0]) != TxnKey(s[k + 1]);
      }
      assert multiset(rest)[s[0]] == 0;
    }
  }

  /** Two positions holding one transaction make it occur at least twice. */
  lemma TwoPositions(a: seq<Transaction>, i: int, j: int)
    requires 0 <= i < j < |a|
    ensures a[i] == a[j] ==> multiset(a)[a[i]] >= 2
  {
    assert a == a[..j] + a[j..];
    assert a[i] in a[..j] && a[j..][0] == a[j];
  }

  /** What is drawn from a table with a primary key, no row more often than stored, keeps unique keys. */
  lemma UniqueKeysSurvive(a: seq<Transaction>, b: seq<Transaction>)
    requires UniqueKeys(b, TxnKey) && multiset(a) <= multiset(b)
    ensures UniqueKeys(a, TxnKey)
  {
    UniqueKeysOnce(b);
    forall i, j | 0 <= i < j < |a| ensures TxnKey(a[i]) != TxnKey(a[j]) {
      assert a[i] in multiset(a) && a[j] in multiset(a);
      TwoPositions(a, i, j);
      SameIdSameRow(b, a[i], a[j]);
    }
  }

  /** Under the primary key, the full month query lists each transaction once: no id repeats. */
  lemma ListFullEachOnce(db: Tables, accountId: int, year: int, month: int)
    requires UniqueKeys(db.transactions, TxnKey)
    ensures var rows := ListTxnsByMonthFull(db, accountId, year, month, None).value;
      forall i, j :: 0 <= i < j < |rows| ==> rows[i].id != rows[j].id
  {
    var kept := Filter(db.transactions, (t: Transaction) => InAccountMonth(db, t, accountId, year, month));
    var sorted := Sort(kept, ByDateThenId);
    SameMembers(sorted, kept);
    var rows := ListTxnsByMonthFull(db, accountId, year, month, None).value;
    assert rows == ToFullAll(db, sorted);
    UniqueKeysSurvive(sorted, db.transactions);
    forall i, j | 0 <= i < j < |rows| ensures rows[i].id != rows[j].id {
      assert TxnKey(sorted[i]) != TxnKey(sorted[j]);
    }
  }

  /**
   * The month query without an account filter returns, ordered by date, a
   * permutation of the transactions whose date lies in the window, whatever
   * their account.
   */
  lemma GetByMonthSelects(db: Tables, year: int, month: int)
    ensures var rows := GetTxnsByMonth(db, year, month, None).value;
      && SortedBy(rows, ByDate)
      && (forall t :: t in rows <==> t in db.transactions && InWindow(t.date, year, month))
      && multiset(rows) <= multiset(db.transactions)
  {
    var kept := Filter(db.transactions, (t: Transaction) => InWindow(t.date, year, month));
    SameMembers(Sort(kept, ByDate), kept);
  }

  /**
   * Under the primary key, the month listing holds every in-window transaction
   * exactly once and nothing else: a permutation of the in-window rows.
   */
  lemma GetByMonthEachOnce(db: Tables, year: int, month: int)
    requires UniqueKeys(db.transactions, TxnKey)
    ensures var rows := GetTxnsByMonth(db, year, month, None).value;
      forall t :: multiset(rows)[t] == if t in db.transactions && InWindow(t.date, year, month) then 1 else 0
  {
    GetByMonthSelects(db, year, month);
    UniqueKeysOnce(db.transactions);
    var rows := GetTxnsByMonth(db, year, month, None).value;
    forall t ensures multiset(rows)[t] == if t in db.transactions && InWindow(t.date, year, month) then 1 else 0 {
      assert t in rows <==> t in multiset(rows);
    }
  }

  /**
   * For a validated month, that window is the calendar month on every
   * transaction with a well-formed date, whatever else the table holds.
   */
  lemma GetByMonthSelectsCalendarMonth(db: Tables, year: int, month: int)
    requires 0 <= year <= 9999 && 1 <= month <= 12 && (month == 12 ==> year <= 9998)
    ensures var rows := GetTxnsByMonth(db, year, month, None).value;
      forall t :: t in db.transactions && WellFormedDate(t.date) ==>
        (t in rows <==> InCalendarMonth(t.date, year, month))
  {
    GetByMonthSelects(db, year, month);
    forall t | t in db.transactions && WellFormedDate(t.date) {
      WindowSelectsMonth(t.date, year, month);
    }
  }

  /** The unfiltered listing is every transaction, each as often as in the table, by date. */
  lemma GetAllListsEverything(db: Tables)
    ensures var rows := GetTxns(db, None).value;
      SortedBy(rows, ByDate) && multiset(rows) == multiset(db.transactions)
  {
  }

  // ---------------------------------------------------------------------------
  // Insertion
  // ---------------------------------------------------------------------------

  /** The largest id of a non-empty table. */
  function MaxTxnId(s: seq<Transaction>): (m: int)
    requires s != []
    ensures exists t :: t in s && t.id == m
    ensures forall t :: t in s ==> t.id <= m
  {
    if |s| == 1 then s[0].id
    else
      var rest := MaxTxnId(s[1..]);
      assert forall t :: t in s ==> t == s[0] || t in s[1..];
      if s[0].id > rest then s[0].id else rest
  }

  /**
   * The rowid SQLite gives a row inserted without one into a table without
   * AUTOINCREMENT: 1 in an empty table, otherwise one more than the largest.
   */
  function NextTxnId(s: seq<Transaction>): (id: int)
    ensures forall t :: t in s ==> t.id < id
    ensures s == [] ==> id == 1
    ensures s != [] ==> exists t :: t in s && t.id == id - 1
  {
    if s == [] then 1 else MaxTxnId(s) + 1
  }

  /**
   * A well-formed date whose month has a window that ends in a four-digit year:
   * every month except December 9999.
   */
  predicate Listable(d: string)
    requires WellFormedDate(d)
  {
    DateYear(d) <= 9999 && (DateMonth(d) == 12 ==> DateYear(d) <= 9998)
  }

  /**
   * After one row is appended, the unfiltered listing holds exactly one more
   * row, that one, and a well-formed date's month listing holds it.
   */
  lemma CreatedRowListed(db: Tables, row: Transaction)
    ensures var after := db.(transactions := db.transactions + [row]);
      multiset(GetTxns(after, None).value) == multiset(db.transactions) + multiset{row}
    ensures var after := db.(transactions := db.transactions + [row]);
      WellFormedDate(row.date) && Listable(row.date) ==>
        row in GetTxnsByMonth(after, DateYear(row.date), DateMonth(row.date), None).value
  {
    var after := db.(transactions := db.transactions + [row]);
    GetAllListsEverything(after);
    if WellFormedDate(row.date) && Listable(row.date) {
      WindowSelectsMonth(row.date, DateYear(row.date), DateMonth(row.date));
      GetByMonthSelects(after, DateYear(row.date), DateMonth(row.date));
    }
  }

  /** The database file: four tables that the commands read and `create_txn_cmd` extends. */
  class Database {
    var accounts: seq<Account>
    var payees: seq<NamedRow>
    var categories: seq<NamedRow>
    var transactions: seq<Transaction>

    /** Primary keys are unique in every table. */
    ghost predicate Valid()
      reads this
    {
      && UniqueKeys(accounts, AccountKey)
      && UniqueKeys(payees, RowKey)
      && UniqueKeys(categories, RowKey)
      && UniqueKeys(transactions, TxnKey)
    }

    /** The tables as the query functions read them. */
    function Snapshot(): (db: Tables)
      reads this
      ensures db.transactions == transactions && db.accounts == accounts
      ensures db.payees == payees && db.categories == categories
      ensures Valid() ==> UniqueKeys(db.transactions, TxnKey)
    {
      Tables(accounts, payees, categories, transactions)
    }

    constructor (accounts: seq<Account>, payees: seq<NamedRow>, categories: seq<NamedRow>, transactions: seq<Transaction>)
      requires UniqueKeys(accounts, AccountKey) && UniqueKeys(payees, RowKey) && UniqueKeys(categories, RowKey)
      requires UniqueKeys(transactions, TxnKey)
      ensures Valid()
      ensures this.accounts == accounts && this.payees == payees
      ensures this.categories == categories && this.transactions == transactions
    {
      this.accounts := accounts;
      this.payees := payees;
      this.categories := categories;
      this.transactions := transactions;
    }

    /**
     * `create_txn_cmd(account, date, payee, amount_cents)`: inserts one row with
     * those four columns; category and memo stay NULL and `cleared` takes its
     * default.  On a fault nothing changes.  No other table is touched.
     */
    method CreateTxn(account: int, date: string, payee: int, amountCents: int, fault: Option<string>)
      returns (r: Result<(), string>)
      requires Valid()
      modifies this`transactions
      ensures Valid()
      ensures r.Failure? <==> fault.Some?
      ensures fault.Some? ==> r.error == fault.value && transactions == old(transactions)
      ensures fault.None? ==>
        transactions == old(transactions) +
          [Transaction(NextTxnId(old(transactions)), account, date, Some(payee), None, None, amountCents, DefaultCleared)]
      ensures fault.None? ==>
        multiset(GetTxns(Snapshot(), None).value) == multiset(old(transactions)) +
          multiset{Transaction(NextTxnId(old(transactions)), account, date, Some(payee), None, None, amountCents, DefaultCleared)}
      ensures fault.None? && WellFormedDate(date) && Listable(date) ==>
        Transaction(NextTxnId(old(transactions)), account, date, Some(payee), None, None, amountCents, DefaultCleared)
          in GetTxnsByMonth(Snapshot(), DateYear(date), DateMonth(date), None).value
    {
      if fault.Some? {
        return Failure(fault.value);
      }
      var row := Transaction(NextTxnId(transactions), account, date, Some(payee), None, None, amountCents, DefaultCleared);
      assert forall i :: 0 <= i < |transactions| ==> transactions[i].id < row.id by {
        assert forall i :: 0 <= i < |transactions| ==> transactions[i] in transactions;
      }
      transactions := transactions + [row];
      r := Success(());
      CreatedRowListed(Tables(accounts, payees, categories, old(transactions)), row);
    }

    /** Under the class invariant, the full month query lists no transaction twice. */
    lemma MonthListingEachOnce(accountId: int, year: int, month: int)
      requires Valid()
      ensures var rows := ListTxnsByMonthFull(Snapshot(), accountId, year, month, None).value;
        forall i, j :: 0 <= i < j < |rows| ==> rows[i].id != rows[j].id
    {
      ListFullEachOnce(Snapshot(), accountId, year, month);
    }
  }
}
