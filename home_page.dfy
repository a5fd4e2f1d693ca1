/** The transaction overview without its widgets: the "All" choice of each
    filter, the filtered listing with its count, and the guarded duplicate
    removal. */
module HomePage {
  import Storage
  import opened TransactionService

  /** One entry of a filter's multiselect: the "All" entry or an offered value. */
  datatype Pick<T> = AllOption | Choose(item: T)

  /** The offered values picked, in pick order. */
  function Chosen<T(==,!new)>(raw: seq<Pick<T>>): (values: seq<T>)
    ensures forall x :: x in values <==> Choose(x) in raw
  {
    if raw == [] then []
    else
      var rest := Chosen(raw[1..]);
      assert forall p :: p in raw <==> p == raw[0] || p in raw[1..];
      if raw[0].Choose? then [raw[0].item] + rest else rest
  }

  /** A filter's effective selection: every offered value plus the empty string
      when "All" is picked, otherwise the values picked. */
  function ExpandSelection<T(==,!new)>(options: seq<T>, raw: seq<Pick<T>>, empty: T): (selection: seq<T>)
    ensures AllOption in raw ==> forall x :: x in selection <==> x in options || x == empty
    ensures AllOption !in raw ==> forall x :: x in selection <==> Choose(x) in raw
  {
    if AllOption in raw then options + [empty] else Chosen(raw)
  }

  /** The four multiselects of the sidebar. */
  datatype Picks = Picks(
    accounts: seq<Pick<string>>, postDates: seq<Pick<Value>>,
    categories: seq<Pick<Value>>, merchants: seq<Pick<Value>>)

  const AllPicks: Picks := Picks([AllOption], [AllOption], [AllOption], [AllOption])

  function EffectiveSelection(options: FilterOptions, picks: Picks): Selection
  {
    Selection(
      ExpandSelection(options.accounts, picks.accounts, ""),
      ExpandSelection(options.postDates, picks.postDates, Storage.Text("")),
      ExpandSelection(options.categories, picks.categories, Storage.Text("")),
      ExpandSelection(options.merchants, picks.merchants, Storage.Text("")))
  }

  /** With "All" in every filter, a row is shown exactly when its category is
      not NULL: the category options come from non-missing values only. */
  lemma AllShowsAllButNullCategories(rows: seq<TransactionRow>)
    ensures var shown := ApplyFilters(rows, EffectiveSelection(GetFilterOptions(rows), AllPicks));
      forall r :: r in shown <==> r in rows && r.category != Storage.Null
  {
    var sel := EffectiveSelection(GetFilterOptions(rows), AllPicks);
    ApplyFiltersMembers(rows, sel);
    forall r | r in rows
      ensures Selected(r, sel) <==> r.category != Storage.Null
    {
      var i :| 0 <= i < |rows| && rows[i] == r;
      assert rows[i].account == r.account && rows[i].postDate == r.postDate;
      assert rows[i].category == r.category && rows[i].merchantName == r.merchantName;
    }
  }

  /** What the page shows. */
  datatype HomeView =
    | NoTransactions
    | Listing(rows: seq<TransactionRow>, count: nat, offerDeduplication: bool)

  /** The page for a user and the sidebar picks: nothing when the user has no
      rows; otherwise the filtered rows, their count, and the removal button
      only when some row is shown. */
  function Home(details: seq<Storage.Detail>, username: string, picks: Picks): (view: HomeView)
    ensures view.NoTransactions? <==> Storage.UserRows(details, username) == []
    ensures view.Listing? ==>
      && view.count == |view.rows|
      && (view.offerDeduplication <==> view.rows != [])
      && IsSubsequenceOfListing(view.rows, details, username)
    ensures view.Listing? ==>
      var rows := UserTransactions(details, username);
      forall r :: r in view.rows <==> r in rows && Selected(r, EffectiveSelection(GetFilterOptions(rows), picks))
  {
    var rows := UserTransactions(details, username);
    if rows == [] then NoTransactions
    else
      var shown := ApplyFilters(rows, EffectiveSelection(GetFilterOptions(rows), picks));
      ApplyFiltersSubsequence(rows, EffectiveSelection(GetFilterOptions(rows), picks));
      ApplyFiltersMembers(rows, EffectiveSelection(GetFilterOptions(rows), picks));
      Listing(shown, |shown|, shown != [])
  }

  /** The rows shown keep the listing's order. */
  predicate IsSubsequenceOfListing(shown: seq<TransactionRow>, details: seq<Storage.Detail>, username: string)
  {
    Sequences.IsSubsequence(shown, UserTransactions(details, username))
  }

  /** `main` of the overview: render the view and, when the button was shown
      and clicked, remove the user's duplicates. */
  method HomePage(db: Storage.Database, username: string, picks: Picks, removeClicked: bool)
    returns (view: HomeView)
    requires db.Valid()
    modifies db
    ensures db.Valid()
    ensures view == Home(old(db.details), username, picks)
    ensures db.details == if view.Listing? && view.offerDeduplication && removeClicked
      then Storage.RemoveIds(old(db.details), Storage.DuplicateIds(Storage.UserRows(old(db.details), username)))
      else old(db.details)
    ensures db.users == old(db.users) && db.inputMappings == old(db.inputMappings)
    ensures db.categoryMappings == old(db.categoryMappings)
  {
    view := Home(db.details, username, picks);
    if view.Listing? && view.offerDeduplication && removeClicked {
      var removed := db.RemoveDuplicates(username);
    }
  }
}
