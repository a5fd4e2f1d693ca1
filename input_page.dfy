/** The import page's mapping logic without its widgets: how a saved source
    string becomes the default selection, how the selection is written back as
    a source string, and when an import may start. */
module InputPage {
  import opened Wrappers
  import opened Sequences
  import opened Strings
  import InputService
  import Storage

  /** The fields the page asks for, in display order. */
  const RequiredFields: seq<string> :=
    ["account_type", "date", "post_date", "original_category", "merchant_name", "description", "currency", "amount"]

  const ManualMarker: string := "<manual>"

  /** The defaults offered for a field: pre-selected columns and a fixed value. */
  datatype SavedDefaults = SavedDefaults(columns: seq<string>, manual: string)

  /** The listed columns that the uploaded file has, in list order. */
  function PresentColumns(names: seq<string>, csvColumns: seq<string>): (present: seq<string>)
    ensures forall c :: c in present <==> c in names && c in csvColumns
    ensures IsSubsequence(present, names)
  {
    if names == [] then []
    else
      var rest := PresentColumns(names[1..], csvColumns);
      assert forall c :: c in names <==> c == names[0] || c in names[1..];
      if names[0] in csvColumns then
        assert ([names[0]] + rest)[1..] == rest;
        [names[0]] + rest
      else
        SubsequencePrepend(rest, names[1..], names[0]);
        assert [names[0]] + names[1..] == names;
        rest
  }

  /** The saved strings that never name columns: nothing, a currency code, or
      the `<manual>` marker. */
  predicate IsSpecialSaved(saved: string)
  {
    saved == "" || saved == "USD" || saved == "CAD" || saved == ManualMarker
  }

  /** Decoding a saved source string into the field's defaults. */
  function DecodeSavedValue(saved: string, csvColumns: seq<string>): (d: SavedDefaults)
    ensures forall c :: c in d.columns ==> c in csvColumns
    ensures d.columns != [] ==> d.manual == ""
    ensures saved == "USD" || saved == "CAD" ==> d == SavedDefaults([], saved)
    ensures saved == "" || saved == ManualMarker ==> d == SavedDefaults([], "")
    ensures d.manual != "" ==> d.manual == saved && d.columns == []
    ensures IsSpecialSaved(saved) ==> d.columns == []
    ensures !IsSpecialSaved(saved) && ';' in saved ==>
      && d.columns == PresentColumns(Split(saved, ';'), csvColumns)
      && (d.columns == [] <==> d.manual == saved)
    ensures !IsSpecialSaved(saved) && ';' !in saved ==>
      && (d.columns == [saved] <==> saved in csvColumns)
      && (d.manual == saved <==> saved !in csvColumns)
  {
    if saved != "" && saved != "USD" && saved != "CAD" && saved != ManualMarker then
      if ';' in saved then
        var columns := PresentColumns(Split(saved, ';'), csvColumns);
        SavedDefaults(columns, if columns != [] then "" else saved)
      else if saved in csvColumns then SavedDefaults([saved], "")
      else SavedDefaults([], saved)
    else if saved == "USD" || saved == "CAD" then SavedDefaults([], saved)
    else SavedDefaults([], "")
  }

  /** Preselection of the currency's fixed-value box: a decoded `USD`, `CAD` or
      nothing is shown as is, anything else as the `<manual>` entry. */
  function CurrencyManualDefault(manual: string): (choice: string)
    ensures choice in ["", "USD", "CAD", ManualMarker]
    ensures manual in ["", "USD", "CAD"] ==> choice == manual
    ensures manual !in ["", "USD", "CAD"] ==> choice == ManualMarker
  {
    if manual == "USD" || manual == "CAD" || manual == "" then manual else ManualMarker
  }

  /** The account type the page offers. */
  datatype AccountType = Debit | Credit

  function AccountTypeText(t: AccountType): (text: string)
    ensures text == "debit" || text == "credit"
  {
    match t
    case Debit => "debit"
    case Credit => "credit"
  }

  /** The preselected account type: debit only when `debit` was saved. */
  function DefaultAccountType(saved: string): (t: AccountType)
    ensures t == Debit <==> saved == "debit"
  {
    if saved == "debit" then Debit else Credit
  }

  /** The preselection reproduces a saved account type. */
  lemma AccountTypeRoundTrip(t: AccountType)
    ensures DefaultAccountType(AccountTypeText(t)) == t
  {
  }

  /** What the user chose for one field: columns, a fixed value, and whether
      the fixed-value box is ticked (ignored for the currency). */
  datatype FieldChoice = FieldChoice(selected: seq<string>, manualValue: string, useManual: bool)

  /** The source string written for a field: joined columns, else the fixed
      value (for the currency whenever it is non-empty, for other fields only
      with the box ticked), else nothing. */
  function ComposeMapping(field: string, choice: FieldChoice): (source: string)
    ensures choice.selected != [] ==> source == Join(choice.selected, ';')
    ensures choice.selected == [] ==>
      (source != "" <==> choice.manualValue != "" && (field == "currency" || choice.useManual))
    ensures choice.selected == [] && source != "" ==> source == choice.manualValue
  {
    if choice.selected != [] then Join(choice.selected, ';')
    else if field == "currency" && choice.manualValue != "" then choice.manualValue
    else if field != "currency" && choice.useManual && choice.manualValue != "" then choice.manualValue
    else ""
  }

  /** The mappings the page would save for the given choices. */
  function Composed(choices: string -> FieldChoice, accountType: AccountType): (mappings: map<string, string>)
    ensures mappings.Keys == set f | f in RequiredFields
    ensures mappings["account_type"] == "debit" || mappings["account_type"] == "credit"
    ensures forall f :: f in RequiredFields && f != "account_type" ==> mappings[f] == ComposeMapping(f, choices(f))
  {
    var mappings := map f | f in RequiredFields ::
      if f == "account_type" then AccountTypeText(accountType) else ComposeMapping(f, choices(f));
    assert RequiredFields[0] == "account_type";
    assert mappings["account_type"] == AccountTypeText(accountType);
    mappings
  }

  /** The loop over the required fields that fills the `mappings` dict. */
  method ComposeMappings(choices: string -> FieldChoice, accountType: AccountType) returns (mappings: map<string, string>)
    ensures mappings == Composed(choices, accountType)
  {
    mappings := map[];
    for i := 0 to |RequiredFields|
      invariant mappings == map f | f in RequiredFields[..i] ::
        if f == "account_type" then AccountTypeText(accountType) else ComposeMapping(f, choices(f))
    {
      var field := RequiredFields[i];
      assert forall f :: f in RequiredFields[..i + 1] <==> f in RequiredFields[..i] || f == field;
      if field == "account_type" {
        mappings := mappings[field := AccountTypeText(accountType)];
      } else {
        mappings := mappings[field := ComposeMapping(field, choices(field))];
      }
    }
    assert RequiredFields[..|RequiredFields|] == RequiredFields;
  }

  /** What pressing "Save Mapping & Import" leads to. */
  datatype ImportDecision = MissingAccount | MissingMapping | RunImport

  /** The guard before an import: an account name, then every mapping non-empty. */
  function ImportGuard(account: string, mappings: map<string, string>): (decision: ImportDecision)
    ensures decision == MissingAccount <==> account == ""
    ensures decision == RunImport <==> account != "" && forall f :: f in mappings ==> mappings[f] != ""
  {
    if account == "" then MissingAccount
    else if exists f :: f in mappings && mappings[f] == "" then MissingMapping
    else RunImport
  }

  /** Columns chosen in the file are written as a source string and, read back,
      preselect the same columns. */
  lemma SelectionRoundTrip(field: string, choice: FieldChoice, csvColumns: seq<string>)
    requires choice.selected != []
    requires forall i :: 0 <= i < |choice.selected| ==> choice.selected[i] in csvColumns && ';' !in choice.selected[i]
    requires |choice.selected| == 1 ==> choice.selected[0] !in {"", "USD", "CAD", ManualMarker}
    ensures DecodeSavedValue(ComposeMapping(field, choice), csvColumns) == SavedDefaults(choice.selected, "")
  {
    var cols := choice.selected;
    var source := ComposeMapping(field, choice);
    if |cols| == 1 {
      assert source == cols[0];
    } else {
      assert ';' in source;
      SplitJoin(cols, ';');
      assert source != "" && source != "USD" && source != "CAD" && source != ManualMarker by {
        assert ';' !in "USD" && ';' !in "CAD" && ';' !in ManualMarker;
      }
      AllPresent(cols, csvColumns);
    }
  }

  lemma {:induction false} AllPresent(names: seq<string>, csvColumns: seq<string>)
    requires forall i :: 0 <= i < |names| ==> names[i] in csvColumns
    ensures PresentColumns(names, csvColumns) == names
  {
    if names != [] {
      AllPresent(names[1..], csvColumns);
      assert [names[0]] + names[1..] == names;
    }
  }

  /** A fixed value for a field other than the currency, entered with the box
      ticked and no columns, reads back as the fixed value with no columns. */
  lemma ManualValueRoundTrip(field: string, value: string, csvColumns: seq<string>)
    requires field != "currency"
    requires value !in csvColumns && ';' !in value
    requires value !in {"", "USD", "CAD", ManualMarker}
    ensures DecodeSavedValue(ComposeMapping(field, FieldChoice([], value, true)), csvColumns) == SavedDefaults([], value)
  {
  }

  /** What the import makes of a composed source: several columns become the
      joined non-empty cells of those columns, one column becomes a copy of its
      cell, and a fixed value becomes that literal (the amount field aside). */
  lemma ComposedSourceInPipeline(field: string, choice: FieldChoice, table: InputService.Table,
                                 row: InputService.Row, ext: InputService.Externals)
    requires field != "amount"
    requires forall i :: 0 <= i < |choice.selected| ==> choice.selected[i] in table.columns && ';' !in choice.selected[i]
    ensures var source := ComposeMapping(field, choice);
      && (|choice.selected| >= 2 ==>
            InputService.ResolveField(table, row, field, source, ext)
              == Success(Storage.Text(Join(InputService.PresentValues(table, row, choice.selected), ';'))))
      && (|choice.selected| == 1 ==>
            InputService.ResolveField(table, row, field, source, ext)
              == Success(InputService.CellValue(InputService.CellAt(row, choice.selected[0]))))
      && (choice.selected == [] && source != "" && source !in table.columns && ';' !in source ==>
            InputService.ResolveField(table, row, field, source, ext) == Success(Storage.Text(source)))
  {
    var cols := choice.selected;
    if |cols| >= 2 {
      SplitJoin(cols, ';');
    }
  }
}
