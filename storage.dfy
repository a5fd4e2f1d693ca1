/** The SQLite store behind the tracker: four tables (Detail, User, InputMapping,
    CategoryMapping) and the queries and mutators over them. Each table is a
    sequence of records in row order; a `Database` object holds the four tables
    and its methods change them in place. */
module Storage {
  import opened Wrappers
  import opened Sequences

  /** A stored cell: SQL NULL, a string, or a number. */
  datatype Value = Null | Text(text: string) | Number(number: real)

  /** A transaction row of table Detail. */
  datatype Detail = Detail(
    id: nat,
    username: string,
    account: string,
    date: Value,
    postDate: Value,
    category: Value,
    originalCategory: Value,
    merchantName: Value,
    description: Value,
    currency: Value,
    amount: Value)

  /** A row of table User; `password` holds the password hash. */
  datatype User = User(username: string, password: string, email: string, apiToken: string)

  /** A row of table InputMapping: canonical field `target` is read from `source`. */
  datatype InputMapping = InputMapping(account: string, source: string, target: string)

  /** A row of table CategoryMapping: a categorisation rule. */
  datatype CategoryMapping = CategoryMapping(
    originalCategory: Value, merchantName: Value, description: Value, targetCategory: string)

  /** A processed import row, keyed by column name. */
  type Record = map<string, Value>

  // ---------------------------------------------------------------------------
  // InputMapping
  // ---------------------------------------------------------------------------

  /** `get_input_mappings`: `{m.target: m.source}` over the account's rows; a
      later row for the same target overrides an earlier one. */
  function MappingsFor(rows: seq<InputMapping>, account: string): (m: map<string, string>)
    ensures forall t :: t in m ==>
      exists i :: 0 <= i < |rows| && rows[i].account == account && rows[i].target == t && rows[i].source == m[t]
  {
    if rows == [] then map[]
    else
      var last := rows[|rows| - 1];
      var m := MappingsFor(rows[..|rows| - 1], account);
      if last.account == account then m[last.target := last.source] else m
  }

  /** The DELETE of `save_input_mappings`: every row of the account goes. */
  function WithoutAccount(rows: seq<InputMapping>, account: string): seq<InputMapping>
  {
    if rows == [] then []
    else
      var last := rows[|rows| - 1];
      var kept := WithoutAccount(rows[..|rows| - 1], account);
      if last.account != account then kept + [last] else kept
  }

  lemma MappingsAppend(rows: seq<InputMapping>, r: InputMapping, account: string)
    ensures MappingsFor(rows + [r], account) ==
      if r.account == account then MappingsFor(rows, account)[r.target := r.source]
      else MappingsFor(rows, account)
  {
    assert (rows + [r])[..|rows|] == rows;
  }

  /** A target is mapped for an account exactly when some row of the account names it. */
  lemma {:induction false} MappingsForKeys(rows: seq<InputMapping>, account: string)
    ensures forall t :: t in MappingsFor(rows, account) <==>
      exists i :: 0 <= i < |rows| && rows[i].account == account && rows[i].target == t
  {
    if rows != [] {
      var init := rows[..|rows| - 1];
      MappingsForKeys(init, account);
      assert forall i :: 0 <= i < |init| ==> init[i] == rows[i];
    }
  }

  /** After the DELETE nothing of the account's earlier mappings remains. */
  lemma {:induction false} NoResidueAfterDelete(rows: seq<InputMapping>, account: string)
    ensures MappingsFor(WithoutAccount(rows, account), account) == map[]
  {
    if rows != [] {
      var init := rows[..|rows| - 1];
      var last := rows[|rows| - 1];
      NoResidueAfterDelete(init, account);
      if last.account != account {
        MappingsAppend(WithoutAccount(init, account), last, account);
      }
    }
  }

  /** The DELETE leaves every other account's mappings as they were. */
  lemma {:induction false} DeleteKeepsOtherAccounts(rows: seq<InputMapping>, account: string, other: string)
    requires other != account
    ensures MappingsFor(WithoutAccount(rows, account), other) == MappingsFor(rows, other)
  {
    if rows != [] {
      var init := rows[..|rows| - 1];
      var last := rows[|rows| - 1];
      DeleteKeepsOtherAccounts(init, account, other);
      if last.account != account {
        MappingsAppend(WithoutAccount(init, account), last, other);
      }
    }
  }

  /** `get_all_accounts`: the distinct accounts that have a saved mapping. */
  function AllAccounts(rows: seq<InputMapping>): (accounts: seq<string>)
    ensures NoDups(accounts)
    ensures forall a :: a in accounts <==> exists i :: 0 <= i < |rows| && rows[i].account == a
  {
    var all := seq(|rows|, i requires 0 <= i < |rows| => rows[i].account);
    assert forall i :: 0 <= i < |rows| ==> all[i] == rows[i].account;
    Distinct(all)
  }

  // ---------------------------------------------------------------------------
  // CategoryMapping
  // ---------------------------------------------------------------------------

  predicate RuleMatches(rule: CategoryMapping, originalCategory: Value, merchantName: Value, description: Value)
  {
    rule.originalCategory == originalCategory && rule.merchantName == merchantName
      && rule.description == description
  }

  /** The position of the first rule for the triple, as `.first()` finds it. */
  function FirstRule(rules: seq<CategoryMapping>, originalCategory: Value, merchantName: Value, description: Value)
    : (k: Option<nat>)
    ensures k.Some? ==> k.value < |rules| && RuleMatches(rules[k.value], originalCategory, merchantName, description)
    ensures k.Some? ==> forall j :: 0 <= j < k.value ==> !RuleMatches(rules[j], originalCategory, merchantName, description)
    ensures k.None? <==> forall j :: 0 <= j < |rules| ==> !RuleMatches(rules[j], originalCategory, merchantName, description)
  {
    if rules == [] then None
    else if RuleMatches(rules[0], originalCategory, merchantName, description) then Some(0)
    else
      match FirstRule(rules[1..], originalCategory, merchantName, description)
      case None => None
      case Some(k) => Some(k + 1)
  }

  /** Rule `i` is the first rule for the triple. */
  predicate IsFirstMatch(rules: seq<CategoryMapping>, i: int, originalCategory: Value, merchantName: Value,
                         description: Value)
  {
    && 0 <= i < |rules|
    && RuleMatches(rules[i], originalCategory, merchantName, description)
    && forall j :: 0 <= j < i ==> !RuleMatches(rules[j], originalCategory, merchantName, description)
  }

  /** `get_target_category`: the target of the first rule for the triple, or `''`. */
  function TargetCategory(rules: seq<CategoryMapping>, originalCategory: Value, merchantName: Value, description: Value)
    : (target: string)
    ensures (forall j :: 0 <= j < |rules| ==> !RuleMatches(rules[j], originalCategory, merchantName, description))
      ==> target == ""
    ensures forall i :: IsFirstMatch(rules, i, originalCategory, merchantName, description) ==>
                          target == rules[i].targetCategory
  {
    match FirstRule(rules, originalCategory, merchantName, description)
    case None => ""
    case Some(k) => rules[k].targetCategory
  }

  /** A first rule that does not match the triple is passed over. */
  lemma TargetCategorySkip(rules: seq<CategoryMapping>, originalCategory: Value, merchantName: Value,
                           description: Value)
    requires rules != []
    ensures !RuleMatches(rules[0], originalCategory, merchantName, description) ==>
      TargetCategory(rules, originalCategory, merchantName, description)
        == TargetCategory(rules[1..], originalCategory, merchantName, description)
  {
  }

  /** A rule appended for a triple that already has one changes nothing for it. */
  lemma EarlierRuleWins(rules: seq<CategoryMapping>, rule: CategoryMapping,
                        originalCategory: Value, merchantName: Value, description: Value)
    requires exists i :: 0 <= i < |rules| && RuleMatches(rules[i], originalCategory, merchantName, description)
    ensures TargetCategory(rules + [rule], originalCategory, merchantName, description)
         == TargetCategory(rules, originalCategory, merchantName, description)
  {
    var k := FirstRule(rules, originalCategory, merchantName, description);
    var all := rules + [rule];
    assert forall j :: 0 <= j < |rules| ==> all[j] == rules[j];
    assert RuleMatches(all[k.value], originalCategory, merchantName, description);
  }

  /** A rule appended for a triple that had none decides it from then on. */
  lemma NewRuleResolves(rules: seq<CategoryMapping>, originalCategory: Value, merchantName: Value,
                        description: Value, target: string)
    requires forall j :: 0 <= j < |rules| ==> !RuleMatches(rules[j], originalCategory, merchantName, description)
    ensures TargetCategory(rules + [CategoryMapping(originalCategory, merchantName, description, target)],
                           originalCategory, merchantName, description) == target
  {
    var all := rules + [CategoryMapping(originalCategory, merchantName, description, target)];
    assert forall j :: 0 <= j < |rules| ==> all[j] == rules[j];
    assert RuleMatches(all[|rules|], originalCategory, merchantName, description);
    var k := FirstRule(all, originalCategory, merchantName, description);
    assert k == Some(|rules|);
  }

  /** SQL `=` against a bound parameter, as the lookup inside `save_transactions`
      runs it: a missing cell reaches the query as NaN, which binds as NULL and
      equals nothing. */
  predicate SqlEquals(column: Value, parameter: Value)
  {
    parameter != Null && column == parameter
  }

  /** The lookup of `save_transactions` as written: first rule whose three
      columns compare `=` to the row's values. */
  function ImportTargetCategoryAsWritten(rules: seq<CategoryMapping>, originalCategory: Value, merchantName: Value,
                                         description: Value): (target: string)
    ensures originalCategory == Null || merchantName == Null || description == Null ==> target == ""
    ensures originalCategory != Null && merchantName != Null && description != Null ==>
      target == TargetCategory(rules, originalCategory, merchantName, description)
  {
    if rules == [] then ""
    else if SqlEquals(rules[0].originalCategory, originalCategory) && SqlEquals(rules[0].merchantName, merchantName)
         && SqlEquals(rules[0].description, description) then rules[0].targetCategory
    else
      var rest := ImportTargetCategoryAsWritten(rules[1..], originalCategory, merchantName, description);
      TargetCategorySkip(rules, originalCategory, merchantName, description);
      rest
  }

  /** A rule saved for a row whose original category is missing categorises
      the existing row (the backfill compares with IS NULL) but never a later
      import of the same row. */
  lemma MissingFieldRuleIgnoredAtImport()
    ensures var rules := [CategoryMapping(Null, Text("Cafe"), Text("Latte"), "Food")];
      && TargetCategory(rules, Null, Text("Cafe"), Text("Latte")) == "Food"
      && ImportTargetCategoryAsWritten(rules, Null, Text("Cafe"), Text("Latte")) == ""
  {
    var rules := [CategoryMapping(Null, Text("Cafe"), Text("Latte"), "Food")];
    assert IsFirstMatch(rules, 0, Null, Text("Cafe"), Text("Latte"));
  }

  /** With the lookup comparing missing values as the backfill does, a row
      categorised by a new rule gets the same category when a record carrying
      the same triple is imported again. */
  lemma BackfillAgreesWithImport(details: seq<Detail>, rules: seq<CategoryMapping>, d: Detail, target: string,
                                 username: string, account: string, record: Record)
    requires forall j :: 0 <= j < |rules| ==> !RuleMatches(rules[j], d.originalCategory, d.merchantName, d.description)
    requires FieldOr(record, "original_category", Text("")) == d.originalCategory
    requires FieldOr(record, "merchant_name", Text("")) == d.merchantName
    requires FieldOr(record, "description", Text("")) == d.description
    ensures var rule := CategoryMapping(d.originalCategory, d.merchantName, d.description, target);
      && Backfill([d], d.originalCategory, d.merchantName, d.description, target)[0].category == Text(target)
      && InsertedDetails(details, rules + [rule], username, account, [record])[0].category == Text(target)
  {
    NewRuleResolves(rules, d.originalCategory, d.merchantName, d.description, target);
  }

  predicate DetailMatches(d: Detail, originalCategory: Value, merchantName: Value, description: Value)
  {
    d.originalCategory == originalCategory && d.merchantName == merchantName && d.description == description
  }

  /** The UPDATE of `save_category_mapping`: every row with the triple, of any
      user and whatever its category, gets the target category. */
  function Backfill(details: seq<Detail>, originalCategory: Value, merchantName: Value, description: Value,
                    target: string): (after: seq<Detail>)
    ensures |after| == |details|
    ensures forall i :: 0 <= i < |details| ==> after[i].id == details[i].id && after[i].username == details[i].username
    ensures UniqueIds(details) ==> UniqueIds(after)
  {
    seq(|details|, i requires 0 <= i < |details| =>
      if DetailMatches(details[i], originalCategory, merchantName, description)
      then details[i].(category := Text(target)) else details[i])
  }

  /** The backfill sets the category of exactly the matching rows and touches
      no other row and no other column. */
  lemma BackfillEffect(details: seq<Detail>, originalCategory: Value, merchantName: Value,
                       description: Value, target: string)
    ensures var after := Backfill(details, originalCategory, merchantName, description, target);
      |after| == |details|
      && (forall i :: 0 <= i < |details| && DetailMatches(details[i], originalCategory, merchantName, description)
            ==> after[i].category == Text(target))
      && (forall i :: 0 <= i < |details| && !DetailMatches(details[i], originalCategory, merchantName, description)
            ==> after[i] == details[i])
      && (forall i :: 0 <= i < |details| ==> after[i].(category := details[i].category) == details[i])
  {
  }

  // ---------------------------------------------------------------------------
  // Detail: identifiers, per-user selection, deletion
  // ---------------------------------------------------------------------------

  /** Primary keys are pairwise distinct. */
  predicate UniqueIds(details: seq<Detail>)
  {
    forall i, j :: 0 <= i < j < |details| ==> details[i].id != details[j].id
  }

  function IdsOf(details: seq<Detail>): set<nat>
  {
    set d | d in details :: d.id
  }

  /** An appended row keeps the ids unique exactly when its id is new. */
  lemma UniqueIdsAppend(details: seq<Detail>, d: Detail)
    ensures UniqueIds(details + [d]) <==> UniqueIds(details) && d.id !in IdsOf(details)
  {
    var all := details + [d];
    assert forall i :: 0 <= i < |details| ==> all[i] == details[i];
    if d.id in IdsOf(details) {
      var e :| e in details && e.id == d.id;
      var i :| 0 <= i < |details| && details[i] == e;
      assert all[i].id == all[|details|].id;
    }
  }

  /** The rows of one user, in table order. */
  function UserRows(details: seq<Detail>, username: string): seq<Detail>
  {
    if details == [] then []
    else
      var last := details[|details| - 1];
      var rows := UserRows(details[..|details| - 1], username);
      if last.username == username then rows + [last] else rows
  }

  /** The rows of every other user, in table order. */
  function OtherRows(details: seq<Detail>, username: string): seq<Detail>
  {
    if details == [] then []
    else
      var last := details[|details| - 1];
      var rows := OtherRows(details[..|details| - 1], username);
      if last.username != username then rows + [last] else rows
  }

  /** `DELETE ... WHERE id IN ids`. */
  function RemoveIds(details: seq<Detail>, ids: seq<nat>): seq<Detail>
  {
    if details == [] then []
    else
      var last := details[|details| - 1];
      var kept := RemoveIds(details[..|details| - 1], ids);
      if last.id !in ids then kept + [last] else kept
  }

  /** A user's rows are exactly the table's rows that carry the name, and the
      other rows exactly those that do not. */
  lemma {:induction false} UserRowsMembers(details: seq<Detail>, username: string)
    ensures forall d :: d in UserRows(details, username) <==> d in details && d.username == username
    ensures forall d :: d in OtherRows(details, username) <==> d in details && d.username != username
  {
    if details != [] {
      var init := details[..|details| - 1];
      assert details == init + [details[|details| - 1]];
      UserRowsMembers(init, username);
    }
  }

  /** The rows left by a deletion are exactly those whose id is not listed. */
  lemma {:induction false} RemoveIdsMembers(details: seq<Detail>, ids: seq<nat>)
    ensures forall d :: d in RemoveIds(details, ids) <==> d in details && d.id !in ids
  {
    if details != [] {
      var init := details[..|details| - 1];
      assert details == init + [details[|details| - 1]];
      RemoveIdsMembers(init, ids);
    }
  }

  /** An empty id list deletes nothing. */
  lemma {:induction false} RemoveNothing(details: seq<Detail>)
    ensures RemoveIds(details, []) == details
  {
    if details != [] {
      var init := details[..|details| - 1];
      assert details == init + [details[|details| - 1]];
      RemoveNothing(init);
    }
  }

  /** Selecting rows keeps the ids unique. */
  lemma {:induction false} UniqueIdsSubset(details: seq<Detail>, username: string, ids: seq<nat>)
    requires UniqueIds(details)
    ensures UniqueIds(UserRows(details, username))
    ensures UniqueIds(RemoveIds(details, ids))
  {
    if details != [] {
      var init := details[..|details| - 1];
      var last := details[|details| - 1];
      assert details == init + [last];
      UniqueIdsAppend(init, last);
      UniqueIdsSubset(init, username, ids);
      UserRowsMembers(init, username);
      RemoveIdsMembers(init, ids);
      if last.username == username {
        UniqueIdsAppend(UserRows(init, username), last);
      }
      if last.id !in ids {
        UniqueIdsAppend(RemoveIds(init, ids), last);
      }
    }
  }

  /** Selecting a user's rows commutes with deleting by id. */
  lemma {:induction false} UserRowsOfRemoval(details: seq<Detail>, ids: seq<nat>, username: string)
    ensures UserRows(RemoveIds(details, ids), username) == RemoveIds(UserRows(details, username), ids)
  {
    if details != [] {
      var init := details[..|details| - 1];
      var last := details[|details| - 1];
      UserRowsOfRemoval(init, ids, username);
      var r := RemoveIds(init, ids);
      var u := UserRows(init, username);
      if last.id !in ids {
        assert (r + [last])[..|r|] == r;
      }
      if last.username == username {
        assert (u + [last])[..|u|] == u;
      }
    }
  }

  /** Deleting ids that no other user's row carries leaves other users' rows as they were. */
  lemma {:induction false} OtherRowsOfRemoval(details: seq<Detail>, ids: seq<nat>, username: string)
    requires forall d :: d in OtherRows(details, username) ==> d.id !in ids
    ensures OtherRows(RemoveIds(details, ids), username) == OtherRows(details, username)
  {
    if details != [] {
      var init := details[..|details| - 1];
      var last := details[|details| - 1];
      var o := OtherRows(init, username);
      OtherRowsOfRemoval(init, ids, username);
      var r := RemoveIds(init, ids);
      if last.id !in ids {
        assert (r + [last])[..|r|] == r;
      }
    }
  }

  /** With unique ids, no row of the user shares its id with a row of another user. */
  lemma UserAndOtherIdsDisjoint(details: seq<Detail>, username: string)
    requires UniqueIds(details)
    ensures forall d, e :: d in UserRows(details, username) && e in OtherRows(details, username) ==> d.id != e.id
  {
    UserRowsMembers(details, username);
    forall d, e | d in UserRows(details, username) && e in OtherRows(details, username)
      ensures d.id != e.id
    {
      var i :| 0 <= i < |details| && details[i] == d;
      var j :| 0 <= j < |details| && details[j] == e;
      assert i != j;
    }
  }

  // ---------------------------------------------------------------------------
  // Duplicate removal
  // ---------------------------------------------------------------------------

  /** The nine columns `remove_duplicates` compares: everything but id and username. */
  datatype DuplicateKey = DuplicateKey(
    account: string, date: Value, postDate: Value, category: Value, originalCategory: Value,
    merchantName: Value, description: Value, currency: Value, amount: Value)

  function KeyOf(d: Detail): DuplicateKey
  {
    DuplicateKey(d.account, d.date, d.postDate, d.category, d.originalCategory, d.merchantName,
                 d.description, d.currency, d.amount)
  }

  /** The keys seen in a scan of `rows`. */
  function KeysOf(rows: seq<Detail>): set<DuplicateKey>
  {
    if rows == [] then {} else KeysOf(rows[..|rows| - 1]) + {KeyOf(rows[|rows| - 1])}
  }

  /** The ids of the rows whose key occurred earlier in the scan. */
  function DuplicateIds(rows: seq<Detail>): seq<nat>
  {
    if rows == [] then []
    else
      var init := rows[..|rows| - 1];
      var last := rows[|rows| - 1];
      if KeyOf(last) in KeysOf(init) then DuplicateIds(init) + [last.id] else DuplicateIds(init)
  }

  /** The rows whose key did not occur earlier in the scan. */
  function KeepFirst(rows: seq<Detail>): seq<Detail>
  {
    if rows == [] then []
    else
      var init := rows[..|rows| - 1];
      var last := rows[|rows| - 1];
      if KeyOf(last) in KeysOf(init) then KeepFirst(init) else KeepFirst(init) + [last]
  }

  /** A key is seen exactly when some row of the scan has it. */
  lemma {:induction false} KeysOfMembers(rows: seq<Detail>)
    ensures forall k :: k in KeysOf(rows) <==> exists i :: 0 <= i < |rows| && KeyOf(rows[i]) == k
  {
    if rows != [] {
      var init := rows[..|rows| - 1];
      KeysOfMembers(init);
      assert forall i :: 0 <= i < |init| ==> init[i] == rows[i];
    }
  }

  /** Every duplicate id is the id of a scanned row. */
  lemma {:induction false} DuplicateIdsAreIds(rows: seq<Detail>)
    ensures forall x :: x in DuplicateIds(rows) ==> x in IdsOf(rows)
  {
    if rows != [] {
      var init := rows[..|rows| - 1];
      assert rows == init + [rows[|rows| - 1]];
      DuplicateIdsAreIds(init);
    }
  }

  /** The kept rows are rows of the scan, they cover every key, and kept and
      duplicate rows together account for the whole scan. */
  lemma {:induction false} KeepFirstFacts(rows: seq<Detail>)
    ensures forall d :: d in KeepFirst(rows) ==> d in rows
    ensures KeysOf(KeepFirst(rows)) == KeysOf(rows)
    ensures |KeepFirst(rows)| + |DuplicateIds(rows)| == |rows|
  {
    if rows != [] {
      var init := rows[..|rows| - 1];
      var last := rows[|rows| - 1];
      assert rows == init + [last];
      KeepFirstFacts(init);
      var k := KeepFirst(init);
      if KeyOf(last) !in KeysOf(init) {
        assert (k + [last])[..|k|] == k;
      }
    }
  }

  lemma {:induction false} RemoveForeignIds(details: seq<Detail>, ids: seq<nat>, extra: seq<nat>)
    requires forall x :: x in extra ==> x !in IdsOf(details)
    ensures RemoveIds(details, ids + extra) == RemoveIds(details, ids)
  {
    if details != [] {
      var init := details[..|details| - 1];
      var last := details[|details| - 1];
      assert details == init + [last];
      assert forall d :: d in init ==> d in details;
      assert last in details;
      RemoveForeignIds(init, ids, extra);
    }
  }

  /** Deleting the duplicate ids of a scan leaves exactly the first occurrences. */
  lemma {:induction false} RemovingDuplicatesKeepsFirst(rows: seq<Detail>)
    requires UniqueIds(rows)
    ensures RemoveIds(rows, DuplicateIds(rows)) == KeepFirst(rows)
  {
    if rows != [] {
      var init := rows[..|rows| - 1];
      var last := rows[|rows| - 1];
      assert rows == init + [last];
      UniqueIdsAppend(init, last);
      RemovingDuplicatesKeepsFirst(init);
      var extra := if KeyOf(last) in KeysOf(init) then [last.id] else [];
      RemoveForeignIds(init, DuplicateIds(init), extra);
      DuplicateIdsAreIds(init);
      assert last.id !in DuplicateIds(init);
    }
  }

  /** The last row of a scan with unique ids is kept exactly when its key is new. */
  lemma LastKeptIffNew(rows: seq<Detail>)
    requires UniqueIds(rows)
    requires rows != []
    ensures var n := |rows| - 1;
      rows[n] in KeepFirst(rows) <==> KeyOf(rows[n]) !in KeysOf(rows[..n])
  {
    var n := |rows| - 1;
    var init := rows[..n];
    var last := rows[n];
    assert rows == init + [last];
    UniqueIdsAppend(init, last);
    KeepFirstFacts(init);
    forall d | d in KeepFirst(init)
      ensures d != last
    {
      assert d.id in IdsOf(init);
    }
  }

  /** A row is kept exactly when no earlier row has its key. */
  lemma {:induction false} KeptIffFirstOccurrence(rows: seq<Detail>, i: nat)
    requires UniqueIds(rows)
    requires i < |rows|
    ensures rows[i] in KeepFirst(rows) <==> forall j :: 0 <= j < i ==> KeyOf(rows[j]) != KeyOf(rows[i])
  {
    var n := |rows| - 1;
    var init := rows[..n];
    var last := rows[n];
    if i == n {
      LastKeptIffNew(rows);
      KeysOfMembers(init);
      if KeyOf(last) in KeysOf(init) {
        var j :| 0 <= j < |init| && KeyOf(init[j]) == KeyOf(last);
        assert rows[j] == init[j];
      } else {
        forall j | 0 <= j < i
          ensures KeyOf(rows[j]) != KeyOf(rows[i])
        {
          assert rows[j] == init[j];
        }
      }
    } else {
      assert rows == init + [last];
      UniqueIdsAppend(init, last);
      assert rows[i] == init[i];
      assert rows[i] != last by {
        assert init[i].id in IdsOf(init);
      }
      KeptIffFirstOccurrence(init, i);
      assert forall j :: 0 <= j < i ==> rows[j] == init[j];
    }
  }

  /** The kept rows have pairwise distinct keys. */
  lemma {:induction false} KeepFirstKeysDistinct(rows: seq<Detail>)
    ensures forall i, j :: 0 <= i < j < |KeepFirst(rows)| ==> KeyOf(KeepFirst(rows)[i]) != KeyOf(KeepFirst(rows)[j])
  {
    if rows != [] {
      var init := rows[..|rows| - 1];
      var last := rows[|rows| - 1];
      KeepFirstKeysDistinct(init);
      var k := KeepFirst(init);
      if KeyOf(last) !in KeysOf(init) {
        KeepFirstFacts(init);
        KeysOfMembers(k);
        var all := k + [last];
        forall i, j | 0 <= i < j < |all|
          ensures KeyOf(all[i]) != KeyOf(all[j])
        {
          if j == |k| {
            assert KeyOf(k[i]) in KeysOf(k);
          } else {
            assert all[i] == k[i] && all[j] == k[j];
          }
        }
      }
    }
  }

  /** A second scan over the kept rows finds no duplicate. */
  lemma {:induction false} NoDuplicatesAfterRemoval(rows: seq<Detail>)
    ensures DuplicateIds(KeepFirst(rows)) == []
  {
    if rows != [] {
      var init := rows[..|rows| - 1];
      var last := rows[|rows| - 1];
      NoDuplicatesAfterRemoval(init);
      var k := KeepFirst(init);
      if KeyOf(last) !in KeysOf(init) {
        KeepFirstFacts(init);
        assert (k + [last])[..|k|] == k;
      }
    }
  }

  /** What `remove_duplicates(username)` does to the table: the user's rows are
      reduced to the first occurrence of each key, every other user's rows stay
      as they were, and the count returned is the number of rows deleted. */
  lemma RemoveDuplicatesEffect(details: seq<Detail>, username: string)
    requires UniqueIds(details)
    ensures var rows := UserRows(details, username);
      var after := RemoveIds(details, DuplicateIds(rows));
      && UserRows(after, username) == KeepFirst(rows)
      && OtherRows(after, username) == OtherRows(details, username)
      && |DuplicateIds(rows)| == |rows| - |UserRows(after, username)|
      && UniqueIds(after)
  {
    var rows := UserRows(details, username);
    var dups := DuplicateIds(rows);
    UniqueIdsSubset(details, username, dups);
    UserRowsOfRemoval(details, dups, username);
    RemovingDuplicatesKeepsFirst(rows);
    KeepFirstFacts(rows);
    DuplicateIdsAreIds(rows);
    UserAndOtherIdsDisjoint(details, username);
    OtherRowsOfRemoval(details, dups, username);
  }

  /** Running `remove_duplicates` a second time deletes nothing and returns 0. */
  lemma RemoveDuplicatesIdempotent(details: seq<Detail>, username: string)
    requires UniqueIds(details)
    ensures var after := RemoveIds(details, DuplicateIds(UserRows(details, username)));
      DuplicateIds(UserRows(after, username)) == [] && RemoveIds(after, []) == after
  {
    RemoveDuplicatesEffect(details, username);
    NoDuplicatesAfterRemoval(UserRows(details, username));
    RemoveNothing(RemoveIds(details, DuplicateIds(UserRows(details, username))));
  }

  // ---------------------------------------------------------------------------
  // Bulk insert
  // ---------------------------------------------------------------------------

  /** `row.get(name, default)` on a processed row. */
  function FieldOr(record: Record, name: string, default: Value): Value
  {
    if name in record then record[name] else default
  }

  /** The largest id in use (0 for an empty table); SQLite gives a new row the next one. */
  function MaxId(details: seq<Detail>): (m: nat)
    ensures forall i :: 0 <= i < |details| ==> details[i].id <= m
  {
    if details == [] then 0
    else
      var rest := MaxId(details[1..]);
      assert forall i :: 1 <= i < |details| ==> details[i] == details[1..][i - 1];
      if details[0].id > rest then details[0].id else rest
  }

  /** The Detail row `save_transactions` builds from one processed row. */
  function NewDetail(id: nat, rules: seq<CategoryMapping>, username: string, account: string, record: Record)
    : (d: Detail)
    ensures d.id == id && d.username == username && d.account == account
    ensures d.category.Text?
    ensures forall name :: name in record && name in {"date", "post_date", "original_category", "merchant_name",
                                                      "description", "currency", "amount"} ==>
      record[name] in {d.date, d.postDate, d.originalCategory, d.merchantName, d.description, d.currency, d.amount}
  {
    Detail(
      id, username, account,
      FieldOr(record, "date", Null),
      FieldOr(record, "post_date", Null),
      Text(TargetCategory(rules, FieldOr(record, "original_category", Text("")),
                          FieldOr(record, "merchant_name", Text("")), FieldOr(record, "description", Text("")))),
      FieldOr(record, "original_category", Null),
      FieldOr(record, "merchant_name", Null),
      FieldOr(record, "description", Null),
      FieldOr(record, "currency", Text("CAD")),
      FieldOr(record, "amount", Number(0.0)))
  }

  /** The rows `save_transactions` appends, one per processed row, in order. */
  function InsertedDetails(details: seq<Detail>, rules: seq<CategoryMapping>, username: string,
                           account: string, records: seq<Record>): (added: seq<Detail>)
    ensures |added| == |records|
    ensures forall i :: 0 <= i < |added| ==> MaxId(details) < added[i].id
    ensures forall i, j :: 0 <= i < j < |added| ==> added[i].id < added[j].id
  {
    seq(|records|, i requires 0 <= i < |records| =>
      NewDetail(MaxId(details) + 1 + i, rules, username, account, records[i]))
  }

  /** Inserting one more record appends its row. */
  lemma InsertedDetailsStep(details: seq<Detail>, rules: seq<CategoryMapping>, username: string,
                            account: string, records: seq<Record>, i: nat)
    requires i < |records|
    ensures InsertedDetails(details, rules, username, account, records[..i + 1])
         == InsertedDetails(details, rules, username, account, records[..i])
            + [NewDetail(MaxId(details) + 1 + i, rules, username, account, records[i])]
  {
    var a := InsertedDetails(details, rules, username, account, records[..i + 1]);
    var b := InsertedDetails(details, rules, username, account, records[..i]);
    assert forall k :: 0 <= k < i ==> a[k] == b[k];
  }

  /** Every processed row becomes exactly one Detail row of the user and account,
      categorised by the rule table and with the documented defaults; the ids are
      new, so the table keeps unique ids. */
  lemma InsertedDetailsEffect(details: seq<Detail>, rules: seq<CategoryMapping>,
                              username: string, account: string, records: seq<Record>)
    requires UniqueIds(details)
    ensures var added := InsertedDetails(details, rules, username, account, records);
      && |added| == |records|
      && UniqueIds(details + added)
      && (forall i :: 0 <= i < |added| ==>
            && added[i].username == username && added[i].account == account
            && added[i].id !in IdsOf(details)
            && added[i].category == Text(TargetCategory(rules,
                 FieldOr(records[i], "original_category", Text("")),
                 FieldOr(records[i], "merchant_name", Text("")),
                 FieldOr(records[i], "description", Text(""))))
            && added[i].date == FieldOr(records[i], "date", Null)
            && added[i].postDate == FieldOr(records[i], "post_date", Null)
            && added[i].originalCategory == FieldOr(records[i], "original_category", Null)
            && added[i].merchantName == FieldOr(records[i], "merchant_name", Null)
            && added[i].description == FieldOr(records[i], "description", Null)
            && added[i].currency == FieldOr(records[i], "currency", Text("CAD"))
            && added[i].amount == FieldOr(records[i], "amount", Number(0.0))
            && ("currency" !in records[i] ==> added[i].currency == Text("CAD"))
            && ("amount" !in records[i] ==> added[i].amount == Number(0.0)))
  {
    var added := InsertedDetails(details, rules, username, account, records);
    var all := details + added;
    forall i, j | 0 <= i < j < |all|
      ensures all[i].id != all[j].id
    {
      if j < |details| {
        assert all[i] == details[i] && all[j] == details[j];
      } else if i < |details| {
        assert all[i].id <= MaxId(details);
      }
    }
  }

  // ---------------------------------------------------------------------------
  // User
  // ---------------------------------------------------------------------------

  /** `get_user`: the first user with the name, if any. */
  function FindUser(users: seq<User>, username: string): (u: Option<User>)
    ensures u.Some? ==> u.value in users && u.value.username == username
    ensures u.Some? ==> exists i :: 0 <= i < |users| && users[i] == u.value
                                   && forall j :: 0 <= j < i ==> users[j].username != username
    ensures u.None? <==> forall i :: 0 <= i < |users| ==> users[i].username != username
  {
    if users == [] then None
    else if users[0].username == username then Some(users[0])
    else
      var rest := FindUser(users[1..], username);
      assert forall i :: 1 <= i < |users| ==> users[i] == users[1..][i - 1];
      rest
  }

  /** The UNIQUE constraint on User.username. */
  predicate UniqueUsernames(users: seq<User>)
  {
    forall i, j :: 0 <= i < j < |users| ==> users[i].username != users[j].username
  }

  /** The UPDATE of `update_user_token`. */
  function WithToken(users: seq<User>, username: string, token: string): (after: seq<User>)
    ensures |after| == |users|
    ensures forall i :: 0 <= i < |users| ==> after[i].username == users[i].username
    ensures forall i :: 0 <= i < |users| && users[i].username == username ==> after[i].apiToken == token
    ensures forall i :: 0 <= i < |users| && users[i].username != username ==> after[i] == users[i]
  {
    seq(|users|, i requires 0 <= i < |users| =>
      if users[i].username == username then users[i].(apiToken := token) else users[i])
  }

  // ---------------------------------------------------------------------------
  // The database
  // ---------------------------------------------------------------------------

  class Database {
    var details: seq<Detail>
    var users: seq<User>
    var inputMappings: seq<InputMapping>
    var categoryMappings: seq<CategoryMapping>

    /** The primary key of Detail and the UNIQUE constraint of User.username hold. */
    ghost predicate Valid()
      reads this
    {
      UniqueIds(details) && UniqueUsernames(users)
    }

    /** `initialize_db` on a fresh file: four empty tables. */
    constructor ()
      ensures Valid()
      ensures details == [] && users == [] && inputMappings == [] && categoryMappings == []
    {
      details, users, inputMappings, categoryMappings := [], [], [], [];
    }

    /** `save_input_mappings`: delete the account's rows, then add one row per entry. */
    method SaveInputMappings(account: string, mappings: map<string, string>)
      requires Valid()
      modifies this
      ensures Valid()
      ensures MappingsFor(inputMappings, account) == mappings
      ensures forall other :: other != account ==>
        MappingsFor(inputMappings, other) == MappingsFor(old(inputMappings), other)
      ensures details == old(details) && users == old(users) && categoryMappings == old(categoryMappings)
    {
      forall other | other != account {
        DeleteKeepsOtherAccounts(inputMappings, account, other);
      }
      NoResidueAfterDelete(inputMappings, account);
      inputMappings := WithoutAccount(inputMappings, account);
      var pending := mappings.Keys;
      while pending != {}
        invariant pending <= mappings.Keys
        invariant MappingsFor(inputMappings, account) == map t | t in mappings.Keys - pending :: mappings[t]
        invariant forall other :: other != account ==>
          MappingsFor(inputMappings, other) == MappingsFor(old(inputMappings), other)
        invariant details == old(details) && users == old(users) && categoryMappings == old(categoryMappings)
        decreases pending
      {
        var target :| target in pending;
        var row := InputMapping(account, mappings[target], target);
        forall other {
          MappingsAppend(inputMappings, row, other);
        }
        inputMappings := inputMappings + [row];
        pending := pending - {target};
      }
    }

    /** `save_category_mapping`: append the rule, then backfill every Detail row
        with the triple. */
    method SaveCategoryMapping(originalCategory: Value, merchantName: Value, description: Value, target: string)
      requires Valid()
      modifies this
      ensures Valid()
      ensures categoryMappings == old(categoryMappings) + [CategoryMapping(originalCategory, merchantName, description, target)]
      ensures details == Backfill(old(details), originalCategory, merchantName, description, target)
      ensures users == old(users) && inputMappings == old(inputMappings)
    {
      categoryMappings := categoryMappings + [CategoryMapping(originalCategory, merchantName, description, target)];
      details := Backfill(details, originalCategory, merchantName, description, target);
    }

    /** `remove_duplicates`: scan the user's rows, collect the ids of rows whose
        key was already seen, delete them and return how many there were. */
    method RemoveDuplicates(username: string) returns (removed: nat)
      requires Valid()
      modifies this
      ensures Valid()
      ensures details == RemoveIds(old(details), DuplicateIds(UserRows(old(details), username)))
      ensures UserRows(details, username) == KeepFirst(UserRows(old(details), username))
      ensures OtherRows(details, username) == OtherRows(old(details), username)
      ensures removed == |UserRows(old(details), username)| - |UserRows(details, username)|
      ensures users == old(users) && inputMappings == old(inputMappings) && categoryMappings == old(categoryMappings)
    {
      var rows := UserRows(details, username);
      var seen: set<DuplicateKey> := {};
      var dupIds: seq<nat> := [];
      for i := 0 to |rows|
        invariant seen == KeysOf(rows[..i])
        invariant dupIds == DuplicateIds(rows[..i])
      {
        assert rows[..i + 1][..i] == rows[..i];
        var key := KeyOf(rows[i]);
        if key in seen {
          dupIds := dupIds + [rows[i].id];
        } else {
          seen := seen + {key};
        }
      }
      assert rows[..|rows|] == rows;
      RemoveDuplicatesEffect(details, username);
      if |dupIds| > 0 {
        details := RemoveIds(details, dupIds);
      } else {
        RemoveNothing(details);
      }
      removed := |dupIds|;
    }

    /** `save_transactions`: one Detail row per processed row, each categorised
        by the rule table as it stands. */
    method SaveTransactions(username: string, account: string, records: seq<Record>)
      requires Valid()
      modifies this
      ensures Valid()
      ensures details == old(details) + InsertedDetails(old(details), categoryMappings, username, account, records)
      ensures users == old(users) && inputMappings == old(inputMappings) && categoryMappings == old(categoryMappings)
    {
      InsertedDetailsEffect(details, categoryMappings, username, account, records);
      var base := MaxId(details);
      for i := 0 to |records|
        invariant details == old(details) + InsertedDetails(old(details), categoryMappings, username, account, records[..i])
        invariant users == old(users) && inputMappings == old(inputMappings) && categoryMappings == old(categoryMappings)
      {
        var category := TargetCategory(categoryMappings,
          FieldOr(records[i], "original_category", Text("")),
          FieldOr(records[i], "merchant_name", Text("")),
          FieldOr(records[i], "description", Text("")));
        var detail := Detail(
          base + 1 + i, username, account,
          FieldOr(records[i], "date", Null),
          FieldOr(records[i], "post_date", Null),
          Text(category),
          FieldOr(records[i], "original_category", Null),
          FieldOr(records[i], "merchant_name", Null),
          FieldOr(records[i], "description", Null),
          FieldOr(records[i], "currency", Text("CAD")),
          FieldOr(records[i], "amount", Number(0.0)));
        assert detail == NewDetail(base + 1 + i, categoryMappings, username, account, records[i]);
        InsertedDetailsStep(old(details), categoryMappings, username, account, records, i);
        details := details + [detail];
      }
      assert records[..|records|] == records;
    }

    /** `create_user`: the insert fails on the UNIQUE constraint when the name is taken. */
    method CreateUser(username: string, hashedPassword: string, email: string, apiToken: string)
      returns (created: bool)
      requires Valid()
      modifies this
      ensures Valid()
      ensures created <==> FindUser(old(users), username).None?
      ensures users == if created then old(users) + [User(username, hashedPassword, email, apiToken)] else old(users)
      ensures details == old(details) && inputMappings == old(inputMappings) && categoryMappings == old(categoryMappings)
    {
      created := FindUser(users, username).None?;
      if created {
        users := users + [User(username, hashedPassword, email, apiToken)];
      }
    }

    /** `update_user_token`. */
    method UpdateUserToken(username: string, token: string)
      requires Valid()
      modifies this
      ensures Valid()
      ensures users == WithToken(old(users), username, token)
      ensures details == old(details) && inputMappings == old(inputMappings) && categoryMappings == old(categoryMappings)
    {
      users := WithToken(users, username, token);
    }
  }
}
