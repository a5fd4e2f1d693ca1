/** The transaction listing: a user's rows projected to seven columns, the
    distinct values offered as filters, and the conjunctive filter itself. */
module TransactionService {
  import opened Sequences
  import Storage

  type Value = Storage.Value

  /** One row of the listing. */
  datatype TransactionRow = TransactionRow(
    id: nat, account: string, postDate: Value, category: Value,
    merchantName: Value, description: Value, amount: Value)

  function Project(d: Storage.Detail): TransactionRow
  {
    TransactionRow(d.id, d.account, d.postDate, d.category, d.merchantName, d.description, d.amount)
  }

  /** `get_user_transactions`: the user's Detail rows, projected, in table order. */
  function UserTransactions(details: seq<Storage.Detail>, username: string): (rows: seq<TransactionRow>)
    ensures |rows| == |Storage.UserRows(details, username)|
  {
    var own := Storage.UserRows(details, username);
    seq(|own|, i requires 0 <= i < |own| => Project(own[i]))
  }

  /** The listing holds exactly the projections of the user's rows. */
  lemma UserTransactionsMembers(details: seq<Storage.Detail>, username: string)
    ensures forall r :: r in UserTransactions(details, username) <==>
      exists d :: d in details && d.username == username && Project(d) == r
  {
    var own := Storage.UserRows(details, username);
    var rows := UserTransactions(details, username);
    Storage.UserRowsMembers(details, username);
    forall d | d in details && d.username == username
      ensures Project(d) in rows
    {
      var i :| 0 <= i < |own| && own[i] == d;
      assert rows[i] == Project(d);
    }
  }

  // ---------------------------------------------------------------------------
  // get_filter_options
  // ---------------------------------------------------------------------------

  /** The four option lists of `get_filter_options`. */
  datatype FilterOptions = FilterOptions(
    accounts: seq<string>, postDates: seq<Value>, categories: seq<Value>, merchants: seq<Value>)

  function Accounts(rows: seq<TransactionRow>): seq<string>
  {
    seq(|rows|, i requires 0 <= i < |rows| => rows[i].account)
  }

  function PostDates(rows: seq<TransactionRow>): seq<Value>
  {
    seq(|rows|, i requires 0 <= i < |rows| => rows[i].postDate)
  }

  function Merchants(rows: seq<TransactionRow>): seq<Value>
  {
    seq(|rows|, i requires 0 <= i < |rows| => rows[i].merchantName)
  }

  /** `dropna()` on the category column. */
  function NonNullCategories(rows: seq<TransactionRow>): (categories: seq<Value>)
    ensures forall c :: c in categories <==> c != Storage.Null && exists i :: 0 <= i < |rows| && rows[i].category == c
  {
    if rows == [] then []
    else
      var rest := NonNullCategories(rows[1..]);
      assert forall i :: 1 <= i < |rows| ==> rows[i] == rows[1..][i - 1];
      if rows[0].category != Storage.Null then [rows[0].category] + rest else rest
  }

  /** `get_filter_options`: each column's distinct values in order of first
      appearance; missing values are dropped from the categories only. */
  function GetFilterOptions(rows: seq<TransactionRow>): (options: FilterOptions)
    ensures NoDups(options.accounts) && NoDups(options.postDates)
    ensures NoDups(options.categories) && NoDups(options.merchants)
    ensures forall a :: a in options.accounts <==> exists i :: 0 <= i < |rows| && rows[i].account == a
    ensures forall p :: p in options.postDates <==> exists i :: 0 <= i < |rows| && rows[i].postDate == p
    ensures forall c :: c in options.categories <==>
      c != Storage.Null && exists i :: 0 <= i < |rows| && rows[i].category == c
    ensures forall m :: m in options.merchants <==> exists i :: 0 <= i < |rows| && rows[i].merchantName == m
  {
    assert forall i :: 0 <= i < |rows| ==>
      Accounts(rows)[i] == rows[i].account && PostDates(rows)[i] == rows[i].postDate
      && Merchants(rows)[i] == rows[i].merchantName;
    FilterOptions(Distinct(Accounts(rows)), Distinct(PostDates(rows)),
                  Distinct(NonNullCategories(rows)), Distinct(Merchants(rows)))
  }

  // ---------------------------------------------------------------------------
  // apply_filters
  // ---------------------------------------------------------------------------

  /** The four selections handed to `apply_filters`. */
  datatype Selection = Selection(
    accounts: seq<string>, postDates: seq<Value>, categories: seq<Value>, merchants: seq<Value>)

  /** The mask of `apply_filters` for one row: all four `isin` tests hold. */
  predicate Selected(r: TransactionRow, sel: Selection)
  {
    r.account in sel.accounts && r.postDate in sel.postDates
      && r.category in sel.categories && r.merchantName in sel.merchants
  }

  /** `apply_filters`: the rows the mask keeps, in their order. */
  function ApplyFilters(rows: seq<TransactionRow>, sel: Selection): (shown: seq<TransactionRow>)
    ensures |shown| <= |rows|
  {
    if rows == [] then []
    else if Selected(rows[0], sel) then [rows[0]] + ApplyFilters(rows[1..], sel)
    else ApplyFilters(rows[1..], sel)
  }

  /** A row is in the result exactly when it is an input row the mask keeps. */
  lemma {:induction false} ApplyFiltersMembers(rows: seq<TransactionRow>, sel: Selection)
    ensures forall r :: r in ApplyFilters(rows, sel) <==> r in rows && Selected(r, sel)
  {
    if rows != [] {
      ApplyFiltersMembers(rows[1..], sel);
      assert forall r :: r in rows <==> r == rows[0] || r in rows[1..];
    }
  }

  /** The result keeps the input order: it is a subsequence of the input. */
  lemma {:induction false} ApplyFiltersSubsequence(rows: seq<TransactionRow>, sel: Selection)
    ensures IsSubsequence(ApplyFilters(rows, sel), rows)
  {
    if rows != [] {
      ApplyFiltersSubsequence(rows[1..], sel);
      var rest := ApplyFilters(rows[1..], sel);
      if Selected(rows[0], sel) {
        assert ([rows[0]] + rest)[1..] == rest;
      } else {
        SubsequencePrepend(rest, rows[1..], rows[0]);
        assert [rows[0]] + rows[1..] == rows;
      }
    }
  }

  /** Filtering twice with the same selections is filtering once. */
  lemma {:induction false} ApplyFiltersIdempotent(rows: seq<TransactionRow>, sel: Selection)
    ensures ApplyFilters(ApplyFilters(rows, sel), sel) == ApplyFilters(rows, sel)
  {
    if rows != [] {
      ApplyFiltersIdempotent(rows[1..], sel);
      var rest := ApplyFilters(rows[1..], sel);
      if Selected(rows[0], sel) {
        assert ([rows[0]] + rest)[1..] == rest;
      }
    }
  }

  /** Every value of `narrow` is also offered by `wide`, column by column. */
  predicate Wider(narrow: Selection, wide: Selection)
  {
    && (forall a :: a in narrow.accounts ==> a in wide.accounts)
    && (forall p :: p in narrow.postDates ==> p in wide.postDates)
    && (forall c :: c in narrow.categories ==> c in wide.categories)
    && (forall m :: m in narrow.merchants ==> m in wide.merchants)
  }

  /** Enlarging selections never drops a row: the narrower result is a
      subsequence of the wider one. */
  lemma {:induction false} ApplyFiltersMonotone(rows: seq<TransactionRow>, narrow: Selection, wide: Selection)
    requires Wider(narrow, wide)
    ensures IsSubsequence(ApplyFilters(rows, narrow), ApplyFilters(rows, wide))
  {
    if rows != [] {
      ApplyFiltersMonotone(rows[1..], narrow, wide);
      var n := ApplyFilters(rows[1..], narrow);
      var w := ApplyFilters(rows[1..], wide);
      if Selected(rows[0], narrow) {
        assert ([rows[0]] + n)[1..] == n && ([rows[0]] + w)[1..] == w;
      } else if Selected(rows[0], wide) {
        SubsequencePrepend(n, w, rows[0]);
      }
    }
  }

  /** Selections that cover every row's values keep every row. */
  lemma {:induction false} ApplyFiltersKeepsAll(rows: seq<TransactionRow>, sel: Selection)
    requires forall i :: 0 <= i < |rows| ==> Selected(rows[i], sel)
    ensures ApplyFilters(rows, sel) == rows
  {
    if rows != [] {
      ApplyFiltersKeepsAll(rows[1..], sel);
      assert [rows[0]] + rows[1..] == rows;
    }
  }
}
