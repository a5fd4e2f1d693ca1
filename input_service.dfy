/** The import pipeline: parsing an amount string, turning uploaded rows into
    records by the account's field mappings, and the save-then-import sequence. */
module InputService {
  import opened Wrappers
  import opened Sequences
  import opened Strings
  import Storage

  /** A cell of the uploaded table; `None` is a missing value (NaN). */
  type Cell = Option<string>

  /** One uploaded row, keyed by column name. */
  type Row = map<string, Cell>

  /** The uploaded table: its header and its rows, in file order. */
  datatype Table = Table(columns: seq<string>, rows: seq<Row>)

  /** The calls the pipeline makes outside itself: `float(s)` (None when it
      raises ValueError) and the currency converter (None when it raises). */
  datatype Externals = Externals(
    parseNumber: string -> Option<real>,
    convertToCad: (real, string) -> Option<real>)

  /** Why an import aborts. */
  datatype ImportError =
    | AmountIndexError                  // `amount[0]` on an empty string
    | ConversionFailed(currency: string) // the converter raised
    | UnreadableCsv                     // `read_csv` raised

  const BaseCurrency: string := "CAD"

  /** The symbols stripped in front of an amount: dollar, euro, pound, yen. */
  const CurrencySymbols: seq<char> := ['$', '\U{20AC}', '\U{00A3}', '\U{00A5}']

  /** `str(cell)`: a missing value prints as `nan`. */
  function CellText(c: Cell): string
  {
    match c
    case None => "nan"
    case Some(s) => s
  }

  /** `row[col]`; a column the row lacks reads as missing. */
  function CellAt(row: Row, column: string): Cell
  {
    if column in row then row[column] else None
  }

  /** A copied cell as stored: a missing value becomes NULL. */
  function CellValue(c: Cell): Storage.Value
  {
    match c
    case None => Storage.Null
    case Some(s) => Storage.Text(s)
  }

  // ---------------------------------------------------------------------------
  // transaction_amount_conversion
  // ---------------------------------------------------------------------------

  predicate Negative(amount: string)
  {
    |amount| > 0 && amount[0] == '-'
  }

  /** The amount after a leading `-` is dropped. */
  function Unsigned(amount: string): string
  {
    if Negative(amount) then amount[1..] else amount
  }

  /** The amount after the sign and then one currency symbol are dropped. */
  function NumericPart(amount: string): string
    requires Unsigned(amount) != ""
  {
    var u := Unsigned(amount);
    if u[0] in CurrencySymbols then u[1..] else u
  }

  /** A value in `currency` expressed in CAD; CAD itself passes through. */
  function ToCad(v: real, currency: string, ext: Externals): Option<real>
  {
    if currency == BaseCurrency then Some(v) else ext.convertToCad(v, currency)
  }

  /** `transaction_amount_conversion`: sign, one symbol, a number converted to
      CAD, the sign applied last; an unparseable number gives 0.0. */
  function TransactionAmountConversion(amount: string, currency: string, ext: Externals)
    : (r: Result<real, ImportError>)
    ensures r == Failure(AmountIndexError) <==> amount == "" || amount == "-"
    ensures currency == BaseCurrency && amount != "" && amount != "-" ==> r.Success?
  {
    if Unsigned(amount) == "" then Failure(AmountIndexError)
    else
      match ext.parseNumber(NumericPart(amount))
      case None => Success(0.0)
      case Some(v) =>
        match ToCad(v, currency, ext)
        case None => Failure(ConversionFailed(currency))
        case Some(c) => Success(if Negative(amount) then -c else c)
  }

  /** An amount string built from a sign, an optional symbol and the digits. */
  function RenderAmount(negative: bool, symbol: Option<char>, digits: string): string
  {
    (if negative then "-" else "") + (if symbol.Some? then [symbol.value] else "") + digits
  }

  /** Reading a rendered amount recovers its parts: the digits are parsed, the
      value converted to CAD, and the sign applied to the converted value. */
  lemma AmountRoundTrip(negative: bool, symbol: Option<char>, digits: string, currency: string,
                        v: real, ext: Externals)
    requires symbol.Some? ==> symbol.value in CurrencySymbols
    requires symbol.None? ==> digits != "" && digits[0] !in CurrencySymbols && (!negative ==> digits[0] != '-')
    requires ext.parseNumber(digits) == Some(v)
    ensures TransactionAmountConversion(RenderAmount(negative, symbol, digits), currency, ext)
      == match ToCad(v, currency, ext)
         case None => Failure(ConversionFailed(currency))
         case Some(c) => Success(if negative then -c else c)
  {
    var s := RenderAmount(negative, symbol, digits);
    var u := (if symbol.Some? then [symbol.value] else "") + digits;
    if negative {
      assert s == "-" + u && s[1..] == u;
    } else {
      assert s == u;
    }
    assert Unsigned(s) == u;
    if symbol.Some? {
      assert u[0] == symbol.value && u[1..] == digits;
    } else {
      assert u == digits;
    }
    assert NumericPart(s) == digits;
  }

  /** When the remainder does not parse, the result is 0.0 whatever the sign and
      the currency: nothing is negated and nothing is converted. */
  lemma UnparseableIsZero(negative: bool, symbol: Option<char>, digits: string, currency: string, ext: Externals)
    requires symbol.Some? ==> symbol.value in CurrencySymbols
    requires symbol.None? ==> digits != "" && digits[0] !in CurrencySymbols && (!negative ==> digits[0] != '-')
    requires ext.parseNumber(digits) == None
    ensures TransactionAmountConversion(RenderAmount(negative, symbol, digits), currency, ext) == Success(0.0)
  {
    var s := RenderAmount(negative, symbol, digits);
    var u := (if symbol.Some? then [symbol.value] else "") + digits;
    if negative {
      assert s == "-" + u && s[1..] == u;
    } else {
      assert s == u;
    }
    if symbol.Some? {
      assert u[0] == symbol.value && u[1..] == digits;
    }
    assert NumericPart(s) == digits;
  }

  /** `-$12.50` in CAD is -12.5 once `12.50` reads as 12.5. */
  lemma NegativeDollarExample(ext: Externals)
    requires ext.parseNumber("12.50") == Some(12.5)
    ensures TransactionAmountConversion("-$12.50", BaseCurrency, ext) == Success(-12.5)
  {
    assert RenderAmount(true, Some('$'), "12.50") == "-$12.50";
    AmountRoundTrip(true, Some('$'), "12.50", BaseCurrency, 12.5, ext);
  }

  // ---------------------------------------------------------------------------
  // _process_mappings
  // ---------------------------------------------------------------------------

  /** What a listed column gives the join: its cell as text, or `''` when the
      table lacks the column or the cell is missing. */
  function ColumnText(table: Table, row: Row, column: string): string
  {
    if column in table.columns && CellAt(row, column).Some? then CellAt(row, column).value else ""
  }

  /** The texts of the listed columns, one per column, in list order. */
  function ColumnTexts(table: Table, row: Row, columns: seq<string>): seq<string>
  {
    seq(|columns|, i requires 0 <= i < |columns| => ColumnText(table, row, columns[i]))
  }

  /** `texts` with every empty entry dropped, the rest kept in order and with
      their repeats. */
  function DropEmpty(texts: seq<string>): seq<string>
  {
    if texts == [] then []
    else
      var n := |texts| - 1;
      DropEmpty(texts[..n]) + (if texts[n] == "" then [] else [texts[n]])
  }

  /** Dropping the empty entries of a longer list extends the result by its
      last entry unless that entry is empty. */
  lemma DropEmptyAppend(texts: seq<string>, text: string)
    ensures DropEmpty(texts + [text]) == DropEmpty(texts) + (if text == "" then [] else [text])
  {
    assert (texts + [text])[..|texts|] == texts;
  }

  /** The non-empty values of the listed columns that the table has, in list order. */
  function PresentValues(table: Table, row: Row, columns: seq<string>): (values: seq<string>)
    ensures forall i :: 0 <= i < |values| ==> values[i] != ""
    ensures |values| <= |columns|
    ensures forall v :: v in values <==>
      v != "" && exists c :: c in columns && c in table.columns && CellAt(row, c) == Some(v)
    ensures IsSubsequence(values, ColumnTexts(table, row, columns))
  {
    if columns == [] then []
    else
      var n := |columns| - 1;
      var col := columns[n];
      var values := PresentValues(table, row, columns[..n]);
      var value := ColumnText(table, row, col);
      assert ColumnTexts(table, row, columns) == ColumnTexts(table, row, columns[..n]) + [value];
      assert forall c :: c in columns <==> c in columns[..n] || c == col;
      if col in table.columns && value != "" then
        SubsequenceAppend(values, ColumnTexts(table, row, columns[..n]), value);
        values + [value]
      else
        SubsequenceExtend(values, ColumnTexts(table, row, columns[..n]), value);
        values
  }

  /** The collected values are the per-column texts with exactly the empty ones
      removed: every non-empty cell is kept, repeats included, in column order. */
  lemma {:induction false} PresentValuesAreNonEmptyTexts(table: Table, row: Row, columns: seq<string>)
    ensures PresentValues(table, row, columns) == DropEmpty(ColumnTexts(table, row, columns))
    decreases |columns|
  {
    if columns != [] {
      var n := |columns| - 1;
      var value := ColumnText(table, row, columns[n]);
      PresentValuesAreNonEmptyTexts(table, row, columns[..n]);
      assert ColumnTexts(table, row, columns) == ColumnTexts(table, row, columns[..n]) + [value];
      DropEmptyAppend(ColumnTexts(table, row, columns[..n]), value);
    }
  }

  /** The text `raw` passes to the amount parser: the source cell, or `'0'`. */
  function AmountText(table: Table, row: Row, source: string): string
  {
    if source in table.columns then CellText(CellAt(row, source)) else "0"
  }

  /** The currency of the raw row: its `currency` column, or `'CAD'`. */
  function RawCurrency(table: Table, row: Row): string
  {
    if "currency" in table.columns then CellText(CellAt(row, "currency")) else BaseCurrency
  }

  /** The value one mapping gives one row. */
  function ResolveField(table: Table, row: Row, field: string, source: string, ext: Externals)
    : (r: Result<Storage.Value, ImportError>)
    ensures field != "amount" ==> r.Success?
    ensures ';' in source ==> r.Success? && r.value.Text?
    ensures ';' !in source && field == "amount" && r.Success? ==> r.value.Number?
  {
    if ';' in source then
      Success(Storage.Text(Join(PresentValues(table, row, Split(source, ';')), ';')))
    else if field == "amount" then
      match TransactionAmountConversion(AmountText(table, row, source), RawCurrency(table, row), ext)
      case Failure(e) => Failure(e)
      case Success(v) => Success(Storage.Number(v))
    else if source in table.columns then
      Success(CellValue(CellAt(row, source)))
    else
      Success(Storage.Text(source))
  }

  /** Without `;`, the amount is the conversion of its source cell as text (or
      of `'0'` when the source is not a column), in the currency of the file's
      own `currency` column (or `CAD` when the file has none). */
  lemma AmountResolution(table: Table, row: Row, source: string, ext: Externals)
    requires ';' !in source
    ensures var amount := if source in table.columns then CellText(CellAt(row, source)) else "0";
      var currency := if "currency" in table.columns then CellText(CellAt(row, "currency")) else "CAD";
      ResolveField(table, row, "amount", source, ext)
        == match TransactionAmountConversion(amount, currency, ext)
           case Failure(e) => Failure(e)
           case Success(v) => Success(Storage.Number(v))
  {
  }

  /** Without `;`, any other field copies its source column's cell (a missing
      cell becoming NULL), or takes the source itself as a fixed value. */
  lemma SingleSourceResolution(table: Table, row: Row, field: string, source: string, ext: Externals)
    requires ';' !in source && field != "amount"
    ensures source in table.columns && source in row && row[source].Some? ==>
      ResolveField(table, row, field, source, ext) == Success(Storage.Text(row[source].value))
    ensures source in table.columns && (source !in row || row[source].None?) ==>
      ResolveField(table, row, field, source, ext) == Success(Storage.Null)
    ensures source !in table.columns ==> ResolveField(table, row, field, source, ext) == Success(Storage.Text(source))
  {
  }

  /** With `;`, any field, the amount included, is the `;`-join of the
      non-empty cells of the listed columns the file has. */
  lemma JoinedResolution(table: Table, row: Row, field: string, source: string, ext: Externals)
    requires ';' in source
    ensures ResolveField(table, row, field, source, ext).Success?
    ensures var values := PresentValues(table, row, Split(source, ';'));
      && ResolveField(table, row, field, source, ext).value == Storage.Text(Join(values, ';'))
      && IsSubsequence(values, ColumnTexts(table, row, Split(source, ';')))
    ensures ResolveField(table, row, field, source, ext).value
         == Storage.Text(Join(DropEmpty(ColumnTexts(table, row, Split(source, ';'))), ';'))
  {
    PresentValuesAreNonEmptyTexts(table, row, Split(source, ';'));
  }

  function BaseRecord(account: string, username: string): Storage.Record
  {
    map["account" := Storage.Text(account), "username" := Storage.Text(username)]
  }

  /** The values the given mapped fields take in one row. */
  function FieldValues(table: Table, row: Row, mappings: map<string, string>, fields: set<string>,
                       ext: Externals): map<string, Storage.Value>
    requires forall f :: f in fields ==> f in mappings && ResolveField(table, row, f, mappings[f], ext).Success?
  {
    map f | f in fields :: ResolveField(table, row, f, mappings[f], ext).value
  }

  /** Filling in one more field extends the record by that field's value. */
  lemma RecordStep(table: Table, row: Row, mappings: map<string, string>, fields: set<string>, field: string,
                   account: string, username: string, ext: Externals)
    requires forall f :: f in fields ==> f in mappings && ResolveField(table, row, f, mappings[f], ext).Success?
    requires field in mappings && ResolveField(table, row, field, mappings[field], ext).Success?
    ensures (BaseRecord(account, username) + FieldValues(table, row, mappings, fields, ext))
              [field := ResolveField(table, row, field, mappings[field], ext).value]
         == BaseRecord(account, username) + FieldValues(table, row, mappings, fields + {field}, ext)
  {
  }

  /** The record one row becomes, or the error its amount raises. */
  function ProcessRow(table: Table, row: Row, mappings: map<string, string>, account: string,
                      username: string, ext: Externals): (r: Result<Storage.Record, ImportError>)
    ensures r.Failure? ==> "amount" in mappings && ';' !in mappings["amount"]
    ensures r.Success? ==> r.value.Keys == mappings.Keys + {"account", "username"}
  {
    if "amount" in mappings && ResolveField(table, row, "amount", mappings["amount"], ext).Failure? then
      Failure(ResolveField(table, row, "amount", mappings["amount"], ext).error)
    else
      Success(BaseRecord(account, username) + FieldValues(table, row, mappings, mappings.Keys, ext))
  }

  /** The outcomes of the rows in order, combined: the records of all rows, or
      the error of the first row that fails. */
  function Collect(outcomes: seq<Result<Storage.Record, ImportError>>): Result<seq<Storage.Record>, ImportError>
  {
    if outcomes == [] then Success([])
    else
      match Collect(outcomes[..|outcomes| - 1])
      case Failure(e) => Failure(e)
      case Success(records) =>
        match outcomes[|outcomes| - 1]
        case Failure(e) => Failure(e)
        case Success(r) => Success(records + [r])
  }

  /** The outcome of every row, in row order. */
  function RowOutcomes(table: Table, rows: seq<Row>, mappings: map<string, string>, account: string,
                       username: string, ext: Externals): seq<Result<Storage.Record, ImportError>>
  {
    seq(|rows|, i requires 0 <= i < |rows| => ProcessRow(table, rows[i], mappings, account, username, ext))
  }

  /** The records of all rows in order, or the error of the first row that fails. */
  function ProcessRows(table: Table, rows: seq<Row>, mappings: map<string, string>, account: string,
                       username: string, ext: Externals): (r: Result<seq<Storage.Record>, ImportError>)
    ensures r.Success? ==> |r.value| == |rows|
  {
    var outcomes := RowOutcomes(table, rows, mappings, account, username, ext);
    CollectShape(outcomes);
    Collect(outcomes)
  }

  /** Combining one more outcome after a successful prefix. */
  lemma CollectExtend(outcomes: seq<Result<Storage.Record, ImportError>>, i: nat, processed: seq<Storage.Record>)
    requires i < |outcomes|
    requires Collect(outcomes[..i]) == Success(processed)
    ensures Collect(outcomes[..i + 1]) == match outcomes[i]
                                         case Failure(e) => Failure(e)
                                         case Success(r) => Success(processed + [r])
  {
    assert outcomes[..i + 1][..i] == outcomes[..i];
  }

  /** On success, one record per outcome, each the outcome's record. */
  lemma {:induction false} CollectShape(outcomes: seq<Result<Storage.Record, ImportError>>)
    ensures Collect(outcomes).Success? ==>
      && |Collect(outcomes).value| == |outcomes|
      && forall i :: 0 <= i < |outcomes| ==> outcomes[i] == Success(Collect(outcomes).value[i])
  {
    if outcomes != [] {
      var n := |outcomes| - 1;
      assert outcomes[..n + 1] == outcomes;
      if Collect(outcomes[..n]).Success? {
        CollectShape(outcomes[..n]);
        CollectExtend(outcomes, n, Collect(outcomes[..n]).value);
      }
    }
  }

  /** The combination fails exactly when some outcome is a failure. */
  lemma {:induction false} CollectFails(outcomes: seq<Result<Storage.Record, ImportError>>)
    ensures Collect(outcomes).Failure? <==> exists i :: 0 <= i < |outcomes| && outcomes[i].Failure?
  {
    if outcomes != [] {
      var n := |outcomes| - 1;
      CollectFails(outcomes[..n]);
      assert forall i :: 0 <= i < n ==> outcomes[..n][i] == outcomes[i];
    }
  }

  /** A failure in a prefix is the failure of the whole. */
  lemma {:induction false} CollectPrefixFailure(outcomes: seq<Result<Storage.Record, ImportError>>, k: nat)
    requires k <= |outcomes|
    requires Collect(outcomes[..k]).Failure?
    ensures Collect(outcomes) == Collect(outcomes[..k])
    decreases |outcomes| - k
  {
    if k < |outcomes| {
      assert outcomes[..|outcomes| - 1][..k] == outcomes[..k];
      CollectPrefixFailure(outcomes[..|outcomes| - 1], k);
    } else {
      assert outcomes[..k] == outcomes;
    }
  }

  /** On success, one record per row, in row order, each the processed row. */
  lemma ProcessRowsShape(table: Table, rows: seq<Row>, mappings: map<string, string>,
                         account: string, username: string, ext: Externals)
    ensures var result := ProcessRows(table, rows, mappings, account, username, ext);
      result.Success? ==>
        && |result.value| == |rows|
        && forall i :: 0 <= i < |rows| ==>
             ProcessRow(table, rows[i], mappings, account, username, ext) == Success(result.value[i])
  {
    CollectShape(RowOutcomes(table, rows, mappings, account, username, ext));
  }

  /** The import fails exactly when some row fails. */
  lemma ProcessRowsFails(table: Table, rows: seq<Row>, mappings: map<string, string>,
                         account: string, username: string, ext: Externals)
    ensures ProcessRows(table, rows, mappings, account, username, ext).Failure? <==>
      exists i :: 0 <= i < |rows| && ProcessRow(table, rows[i], mappings, account, username, ext).Failure?
  {
    var outcomes := RowOutcomes(table, rows, mappings, account, username, ext);
    CollectFails(outcomes);
    assert forall i :: 0 <= i < |rows| ==> outcomes[i] == ProcessRow(table, rows[i], mappings, account, username, ext);
  }

  /** Every record carries the account and user it was imported for (unless a
      mapping of the same name overrides them) and exactly the mapped fields. */
  lemma RecordFields(table: Table, row: Row, mappings: map<string, string>, account: string,
                     username: string, ext: Externals)
    requires ProcessRow(table, row, mappings, account, username, ext).Success?
    ensures var r := ProcessRow(table, row, mappings, account, username, ext).value;
      && r.Keys == mappings.Keys + {"account", "username"}
      && ("account" !in mappings ==> r["account"] == Storage.Text(account))
      && ("username" !in mappings ==> r["username"] == Storage.Text(username))
      && forall f :: f in mappings ==> Success(r[f]) == ResolveField(table, row, f, mappings[f], ext)
  {
  }

  /** The amount of a record does not depend on what the `currency` field is
      mapped to: the converter is given the raw row's `currency` column. */
  lemma AmountIgnoresMappedCurrency(table: Table, row: Row, mappings: map<string, string>,
                                    c1: string, c2: string, account: string, username: string,
                                    ext: Externals)
    requires "amount" in mappings
    ensures var r1 := ProcessRow(table, row, mappings["currency" := c1], account, username, ext);
      var r2 := ProcessRow(table, row, mappings["currency" := c2], account, username, ext);
      r1.Success? == r2.Success? && (r1.Success? ==> r1.value["amount"] == r2.value["amount"])
  {
    var m1 := mappings["currency" := c1];
    var m2 := mappings["currency" := c2];
    assert m1["amount"] == m2["amount"] == mappings["amount"];
  }

  /** A multi-column `amount` source is joined as text and never converted. */
  lemma MultiColumnAmountIsJoined(table: Table, row: Row, mappings: map<string, string>,
                                  account: string, username: string, ext: Externals)
    requires "amount" in mappings && ';' in mappings["amount"]
    ensures ProcessRow(table, row, mappings, account, username, ext).Success?
    ensures ProcessRow(table, row, mappings, account, username, ext).value["amount"]
         == Storage.Text(Join(PresentValues(table, row, Split(mappings["amount"], ';')), ';'))
  {
  }

  /** `';'.join(values)` over the present columns, as the inner loop builds it. */
  method JoinPresentColumns(table: Table, row: Row, columns: seq<string>) returns (joined: string)
    ensures joined == Join(PresentValues(table, row, columns), ';')
  {
    var values: seq<string> := [];
    for k := 0 to |columns|
      invariant values == PresentValues(table, row, columns[..k])
    {
      assert columns[..k + 1][..k] == columns[..k];
      var col := columns[k];
      if col in table.columns {
        var value := if CellAt(row, col).Some? then CellAt(row, col).value else "";
        if value != "" {
          values := values + [value];
        }
      }
    }
    assert columns[..|columns|] == columns;
    joined := Join(values, ';');
  }

  /** The body of the outer loop of `_process_mappings`: fill one record field
      by field, stopping at an amount that raises. */
  method ProcessOneRow(table: Table, row: Row, mappings: map<string, string>, account: string,
                       username: string, ext: Externals) returns (result: Result<Storage.Record, ImportError>)
    ensures result == ProcessRow(table, row, mappings, account, username, ext)
  {
    var transaction := BaseRecord(account, username);
    var pending := mappings.Keys;
    while pending != {}
      invariant pending <= mappings.Keys
      invariant forall f :: f in mappings.Keys - pending ==> ResolveField(table, row, f, mappings[f], ext).Success?
      invariant transaction == BaseRecord(account, username) + FieldValues(table, row, mappings, mappings.Keys - pending, ext)
      decreases pending
    {
      var field :| field in pending;
      var source := mappings[field];
      var value: Storage.Value;
      if ';' in source {
        var joined := JoinPresentColumns(table, row, Split(source, ';'));
        value := Storage.Text(joined);
      } else if field == "amount" {
        var converted := TransactionAmountConversion(AmountText(table, row, source), RawCurrency(table, row), ext);
        if converted.Failure? {
          return Failure(converted.error);
        }
        value := Storage.Number(converted.value);
      } else if source in table.columns {
        value := CellValue(CellAt(row, source));
      } else {
        value := Storage.Text(source);
      }
      RecordStep(table, row, mappings, mappings.Keys - pending, field, account, username, ext);
      assert (mappings.Keys - pending) + {field} == mappings.Keys - (pending - {field});
      transaction := transaction[field := value];
      pending := pending - {field};
    }
    assert mappings.Keys - pending == mappings.Keys;
    return Success(transaction);
  }

  /** `_process_mappings`: one record per row, in row order. */
  method ProcessMappings(table: Table, mappings: map<string, string>, account: string, username: string,
                         ext: Externals) returns (result: Result<seq<Storage.Record>, ImportError>)
    ensures result == ProcessRows(table, table.rows, mappings, account, username, ext)
  {
    ghost var outcomes := RowOutcomes(table, table.rows, mappings, account, username, ext);
    var processed: seq<Storage.Record> := [];
    for i := 0 to |table.rows|
      invariant Collect(outcomes[..i]) == Success(processed)
    {
      CollectExtend(outcomes, i, processed);
      var transaction := ProcessOneRow(table, table.rows[i], mappings, account, username, ext);
      assert transaction == outcomes[i];
      if transaction.Failure? {
        CollectPrefixFailure(outcomes, i + 1);
        return Failure(transaction.error);
      }
      processed := processed + [transaction.value];
    }
    assert outcomes[..|table.rows|] == outcomes;
    return Success(processed);
  }

  // ---------------------------------------------------------------------------
  // save_mappings_and_import
  // ---------------------------------------------------------------------------

  /** `get_accounts`. */
  function GetAccounts(db: Storage.Database): (accounts: seq<string>)
    reads db
    ensures forall a :: a in accounts <==> exists i :: 0 <= i < |db.inputMappings| && db.inputMappings[i].account == a
  {
    Storage.AllAccounts(db.inputMappings)
  }

  /** `save_mappings_and_import`: save the mappings first, then read the upload
      (`None` when it cannot be parsed), process it and store the records;
      returns the number of processed rows. */
  method SaveMappingsAndImport(db: Storage.Database, account: string, mappings: map<string, string>,
                               upload: Option<Table>, username: string, ext: Externals)
    returns (outcome: Result<nat, ImportError>)
    requires db.Valid()
    modifies db
    ensures db.Valid()
    ensures Storage.MappingsFor(db.inputMappings, account) == mappings
    ensures forall other :: other != account ==>
      Storage.MappingsFor(db.inputMappings, other) == Storage.MappingsFor(old(db.inputMappings), other)
    ensures db.users == old(db.users) && db.categoryMappings == old(db.categoryMappings)
    ensures upload.None? ==> outcome == Failure(UnreadableCsv) && db.details == old(db.details)
    ensures upload.Some? ==>
      match ProcessRows(upload.value, upload.value.rows, mappings, account, username, ext)
      case Failure(e) => outcome == Failure(e) && db.details == old(db.details)
      case Success(records) =>
        && outcome == Success(|upload.value.rows|)
        && db.details == old(db.details)
             + Storage.InsertedDetails(old(db.details), db.categoryMappings, username, account, records)
  {
    db.SaveInputMappings(account, mappings);
    if upload.None? {
      return Failure(UnreadableCsv);
    }
    var table := upload.value;
    var processed := ProcessMappings(table, mappings, account, username, ext);
    if processed.Failure? {
      return Failure(processed.error);
    }
    ProcessRowsShape(table, table.rows, mappings, account, username, ext);
    db.SaveTransactions(username, account, processed.value);
    return Success(|processed.value|);
  }
}
