/** Categorisation: the user's uncategorised rows, the categories already in
    use, and saving a rule for a row's triple. */
module CategoryService {
  import opened Sequences
  import opened Strings
  import Storage

  type Value = Storage.Value

  /** One row of the uncategorised listing. */
  datatype UnmappedRow = UnmappedRow(id: nat, originalCategory: Value, merchantName: Value, description: Value)

  function ProjectUnmapped(d: Storage.Detail): UnmappedRow
  {
    UnmappedRow(d.id, d.originalCategory, d.merchantName, d.description)
  }

  /** The query's filter: the user's row with category exactly `''` (a NULL
      category does not qualify). */
  predicate Unmapped(d: Storage.Detail, username: string)
  {
    d.username == username && d.category == Storage.Text("")
  }

  /** `get_unmapped_transactions`, in table order. */
  function UnmappedTransactions(details: seq<Storage.Detail>, username: string): (listed: seq<UnmappedRow>)
    ensures |listed| <= |details|
  {
    if details == [] then []
    else
      var rest := UnmappedTransactions(details[1..], username);
      if Unmapped(details[0], username) then [ProjectUnmapped(details[0])] + rest else rest
  }

  /** The listing holds exactly the projections of the user's rows whose category is `''`. */
  lemma {:induction false} UnmappedTransactionsMembers(details: seq<Storage.Detail>, username: string)
    ensures forall u :: u in UnmappedTransactions(details, username) <==>
      exists d :: d in details && Unmapped(d, username) && ProjectUnmapped(d) == u
  {
    if details != [] {
      UnmappedTransactionsMembers(details[1..], username);
      assert forall d :: d in details <==> d == details[0] || d in details[1..];
    }
  }

  /** A row with a NULL category is never listed. */
  lemma NullCategoryNotListed(details: seq<Storage.Detail>, username: string, d: Storage.Detail)
    requires Storage.UniqueIds(details)
    requires d in details && d.category == Storage.Null
    ensures ProjectUnmapped(d) !in UnmappedTransactions(details, username)
  {
    UnmappedTransactionsMembers(details, username);
    forall e | e in details && Unmapped(e, username)
      ensures ProjectUnmapped(e) != ProjectUnmapped(d)
    {
      var i :| 0 <= i < |details| && details[i] == d;
      var j :| 0 <= j < |details| && details[j] == e;
      assert i != j;
    }
  }

  /** The non-empty targets of the rule table, in table order. */
  function NonEmptyTargets(rules: seq<Storage.CategoryMapping>): (targets: seq<string>)
    ensures forall t :: t in targets <==> t != "" && exists i :: 0 <= i < |rules| && rules[i].targetCategory == t
  {
    if rules == [] then []
    else
      var rest := NonEmptyTargets(rules[1..]);
      assert forall i :: 1 <= i < |rules| ==> rules[i] == rules[1..][i - 1];
      if rules[0].targetCategory != "" then [rules[0].targetCategory] + rest else rest
  }

  /** `get_existing_categories`: the distinct non-empty targets, sorted ascending. */
  function ExistingCategories(rules: seq<Storage.CategoryMapping>): (categories: seq<string>)
    ensures StrictlySorted(categories)
    ensures forall c :: c in categories <==>
      c != "" && exists i :: 0 <= i < |rules| && rules[i].targetCategory == c
  {
    SortDistinct(Distinct(NonEmptyTargets(rules)))
  }

  /** A sorted list without repeats has no repeats. */
  lemma ExistingCategoriesDistinct(rules: seq<Storage.CategoryMapping>)
    ensures NoDups(ExistingCategories(rules))
  {
    var c := ExistingCategories(rules);
    forall i, j | 0 <= i < j < |c|
      ensures c[i] != c[j]
    {
      if c[i] == c[j] {
        LessIrreflexive(c[i]);
      }
    }
  }

  /** `save_transaction_category`: forwards its four arguments to `save_category_mapping`. */
  method SaveTransactionCategory(db: Storage.Database, originalCategory: Value, merchantName: Value,
                                 description: Value, targetCategory: string)
    requires db.Valid()
    modifies db
    ensures db.Valid()
    ensures db.categoryMappings == old(db.categoryMappings)
      + [Storage.CategoryMapping(originalCategory, merchantName, description, targetCategory)]
    ensures db.details == Storage.Backfill(old(db.details), originalCategory, merchantName, description, targetCategory)
    ensures db.users == old(db.users) && db.inputMappings == old(db.inputMappings)
  {
    db.SaveCategoryMapping(originalCategory, merchantName, description, targetCategory);
  }

  /** After a non-empty category is saved for a triple, the listing loses
      exactly the rows with that triple; every other listed row stays. */
  lemma {:induction false} SavedTripleLeavesListing(details: seq<Storage.Detail>, username: string,
                                                    originalCategory: Value, merchantName: Value,
                                                    description: Value, target: string)
    requires target != ""
    ensures var after := Storage.Backfill(details, originalCategory, merchantName, description, target);
      forall u :: u in UnmappedTransactions(after, username) <==>
        u in UnmappedTransactions(details, username)
        && (u.originalCategory, u.merchantName, u.description) != (originalCategory, merchantName, description)
  {
    if details != [] {
      var after := Storage.Backfill(details, originalCategory, merchantName, description, target);
      SavedTripleLeavesListing(details[1..], username, originalCategory, merchantName, description, target);
      assert after[1..] == Storage.Backfill(details[1..], originalCategory, merchantName, description, target);
    }
  }
}
