# peng-finance core in Dafny

peng-finance is a small personal-finance web application. A signed-in user uploads a
bank CSV export for an account and maps the file's columns onto the transaction fields.
Those mappings are remembered per account. Every row is stored as a transaction
("detail") after its amount has been converted to Canadian dollars. The category of a
stored transaction comes from the user's category rules, which are keyed by original
category, merchant name and description. The user can:

- browse their transactions through four multi-select filters, each with an "All" entry;
- assign categories to uncategorised transactions, which saves a rule and backfills
  every matching transaction;
- remove duplicate transactions.

Accounts are protected by hashed passwords and JWTs, and the credentials are kept in
the browser session.

This project models that core:

- **Storage** (`storage.dfy`). The four SQLite tables are sequences inside
  `class Database`. Every query and update of `utils/sqlite_storage.py` is a method
  that states the new table contents, or a function of the tables.
- **Import** (`input_service.dfy`):
  - amount conversion, with its sign, currency-symbol and parse rules;
  - per-field resolution of a mapping source: joined columns, the amount, a single
    column, or a fixed value;
  - the row loop, and the save-and-import sequence.
- **Transactions and categories** (`transaction_service.dfy`, `category_service.dfy`):
  - the per-user listing, the filter options and the filter mask;
  - the unmapped listing, the sorted distinct category list, and category assignment.
- **Authentication** (`auth.dfy`, `auth_service.dfy`):
  - token validity and the session map as `class Session`;
  - storing, loading, validating and clearing credentials;
  - login, signup, auto-authentication and logout.
- **Page logic** (`input_page.dfy`, `home_page.dfy`):
  - how a saved mapping string becomes the default selection and how a selection is
    written back;
  - the import guard;
  - the "All" expansion of the overview's filters, the listing and the guarded
    duplicate removal.
- **Generic helpers**: `Split`/`Join` on a delimiter, lexicographic sorting of strings,
  removal of duplicates in order, and subsequences (`strings.dfy`, `sequences.dfy`,
  `wrappers.dfy`).

Outside calls are inputs to the model: the number parser, the currency converter, JWT
decoding, the password digest, the clock, a freshly minted token and the configured
admin password.

Assigning a category is described as making later imports of the same triple resolve to
the new target. The code returns the *first* rule for a triple
(`get_target_category`, `.first()`), so an earlier rule for the same triple wins. The
model follows the code: `Storage.EarlierRuleWins` and `Storage.NewRuleResolves`.

## Model

| member | source | states |
|---|---|---|
| Storage.MappingsAppend | utils/sqlite_storage.py:67-73 | adding a row for an account adds its target to that account's mapping dict; rows of other accounts change nothing |
| Storage.MappingsFor | utils/sqlite_storage.py:67-73 | every target in an account's mapping dict comes from a row of that account, with that row's source as its value |
| Storage.MappingsForKeys | utils/sqlite_storage.py:67-73 | a target is a key of an account's mapping dict iff some stored row of that account names it |
| Storage.NoResidueAfterDelete | utils/sqlite_storage.py:79 | after deleting an account's rows, its mapping dict is empty |
| Storage.DeleteKeepsOtherAccounts | utils/sqlite_storage.py:79 | deleting one account's rows leaves every other account's mappings unchanged |
| Storage.Database.SaveInputMappings | utils/sqlite_storage.py:76-86 | afterwards the account's mappings are exactly the given dict, every other account's mappings are unchanged, and no other table changes |
| Storage.AllAccounts | utils/sqlite_storage.py:200-205 | the distinct accounts: no repeats, and an account is listed iff some input-mapping row names it |
| Storage.FirstRule | utils/sqlite_storage.py:100-104 | the index of the first rule matching the triple: it matches, no earlier rule does, and there is none iff no rule matches |
| Storage.TargetCategory | utils/sqlite_storage.py:97-106 | the empty string when no rule matches, otherwise the target of the first matching rule |
| Storage.EarlierRuleWins | utils/sqlite_storage.py:100-106 | appending a rule for a triple that already has a rule does not change that triple's lookup |
| Storage.NewRuleResolves | utils/sqlite_storage.py:97-127 | a rule appended for a triple with no rule makes the triple resolve to the new target |
| Storage.ImportTargetCategoryAsWritten | utils/sqlite_storage.py:155 | the lookup as `save_transactions` runs it: empty whenever one of the triple's values is missing, the first-match lookup otherwise |
| Storage.MissingFieldRuleIgnoredAtImport | utils/sqlite_storage.py:155 | a rule for a triple whose original category is missing resolves under IS NULL comparison but yields "" at import |
| Storage.BackfillAgreesWithImport | utils/sqlite_storage.py:109-127 | for a triple with no earlier rule, the backfilled row and a record with the same triple imported again both get the new rule's target |
| Storage.BackfillEffect | utils/sqlite_storage.py:119-123 | the backfill keeps the table's length and ids, sets the category of exactly the matching rows and leaves every other row as it was |
| Storage.Backfill | utils/sqlite_storage.py:119-123 | the update keeps the table's length, every row's id and owner, and unique ids |
| Storage.Database.SaveCategoryMapping | utils/sqlite_storage.py:109-127 | appends exactly one rule, backfills the matching transactions, and leaves users and input mappings unchanged |
| Storage.UniqueIdsAppend | utils/sqlite_storage.py:151-169 | appending rows whose ids are distinct and new keeps transaction ids unique |
| Storage.UserRowsMembers | utils/sqlite_storage.py:133 | a row is in the user's rows iff it is stored and belongs to the user; likewise for the other users' rows |
| Storage.RemoveIdsMembers | utils/sqlite_storage.py:143 | a row survives the delete iff it was stored and its id is not among the deleted ids |
| Storage.RemoveNothing | utils/sqlite_storage.py:142-143 | deleting no ids leaves the table unchanged |
| Storage.UniqueIdsSubset | utils/sqlite_storage.py:143 | deleting rows keeps ids unique |
| Storage.UserRowsOfRemoval | utils/sqlite_storage.py:133-143 | selecting a user's rows commutes with deleting ids |
| Storage.OtherRowsOfRemoval | utils/sqlite_storage.py:143 | deleting ids none of which belong to other users leaves the other users' rows unchanged |
| Storage.UserAndOtherIdsDisjoint | utils/sqlite_storage.py:133-143 | with unique ids, no id of a user's row belongs to a row of another user |
| Storage.KeysOfMembers | utils/sqlite_storage.py:134-141 | the seen set after the loop holds exactly the nine-column keys of the user's rows |
| Storage.DuplicateIdsAreIds | utils/sqlite_storage.py:136-139 | every collected duplicate id is the id of one of the scanned rows |
| Storage.KeepFirstFacts | utils/sqlite_storage.py:136-143 | the survivors are a subset of the rows with the same key set, and survivors plus duplicates account for every row |
| Storage.RemoveForeignIds | utils/sqlite_storage.py:143 | deleting ids that no row carries changes nothing |
| Storage.RemovingDuplicatesKeepsFirst | utils/sqlite_storage.py:133-143 | with unique ids, deleting the duplicate ids from the user's rows leaves exactly the first occurrences |
| Storage.LastKeptIffNew | utils/sqlite_storage.py:136-141 | the last scanned row is kept iff its key was not seen before |
| Storage.KeptIffFirstOccurrence | utils/sqlite_storage.py:136-141 | a row is kept iff no earlier row has the same key |
| Storage.KeepFirstKeysDistinct | utils/sqlite_storage.py:136-141 | the kept rows have pairwise distinct keys |
| Storage.NoDuplicatesAfterRemoval | utils/sqlite_storage.py:130-148 | after removal, no two of the user's rows share the nine-column key |
| Storage.RemoveDuplicatesEffect | utils/sqlite_storage.py:130-148 | the user's rows become the first occurrences, other users' rows are unchanged, the count is the number removed, and ids stay unique |
| Storage.RemoveDuplicatesIdempotent | utils/sqlite_storage.py:130-148 | running the removal a second time removes nothing |
| Storage.Database.RemoveDuplicates | utils/sqlite_storage.py:130-148 | the loop collects exactly the ids of repeated keys; the new table, the user's first occurrences, the unchanged other rows, and the returned count |
| Storage.MaxId | utils/sqlite_storage.py:156-168 | every stored id is at most the maximum; new rows get ids above it |
| Storage.NewDetail | utils/sqlite_storage.py:155-167 | the new row has the given id, user and account, a text category, and every present field of the record among its columns (Storage.InsertedDetailsEffect states which column each lands in) |
| Storage.InsertedDetails | utils/sqlite_storage.py:154-168 | one row per record, with increasing ids all above the current maximum |
| Storage.InsertedDetailsEffect | utils/sqlite_storage.py:151-169 | one new row per record, in record order; ids fresh and unique; each row's category is the first-match lookup of its triple; date, post date, original category, merchant and description are copied to their own columns (NULL when absent), currency and amount likewise with defaults CAD and 0 |
| Storage.Database.SaveTransactions | utils/sqlite_storage.py:151-172 | the table becomes the old rows followed by the inserted rows; no other table changes |
| Storage.FindUser | utils/sqlite_storage.py:184-189 | the first user with that name, and none iff no user has it |
| Storage.WithToken | utils/sqlite_storage.py:195 | same users and names in the same order; the named user carries the token and every other user is unchanged |
| Storage.Database.CreateUser | utils/sqlite_storage.py:175-181 | a user is created iff the name is new; a name already taken violates the UNIQUE constraint on the username and leaves the users unchanged |
| Storage.Database.UpdateUserToken | utils/sqlite_storage.py:192-198 | the token of the named user is replaced; nothing else changes |
| InputService.TransactionAmountConversion | services/input_service.py:62-77 | fails exactly on an empty amount or a bare "-"; an amount in CAD always converts |
| InputService.AmountRoundTrip | services/input_service.py:64-77 | a sign, a currency symbol and parseable digits convert to the parsed value in CAD with the sign applied |
| InputService.UnparseableIsZero | services/input_service.py:70-74 | digits that do not parse give 0.0 whatever the sign and currency |
| InputService.NegativeDollarExample | services/input_service.py:64-77 | "-$12.50" in CAD converts to -12.5 |
| InputService.PresentValues | services/input_service.py:89-96 | a value is collected iff it is the non-empty cell of a listed column the file has; the values follow the listed columns' order (a subsequence of the per-column texts) and none is empty |
| InputService.PresentValuesAreNonEmptyTexts | services/input_service.py:89-96 | the collected values are exactly the per-column texts with the empty ones removed, so a value present in two columns is collected twice |
| InputService.JoinPresentColumns | services/input_service.py:89-98 | the loop's result is the non-empty values of the listed columns joined with ';' |
| InputService.ResolveField | services/input_service.py:87-108 | every field except the amount resolves; a source with ';' gives text; otherwise the amount gives a number |
| InputService.AmountResolution | services/input_service.py:99-102 | without ';', the amount is the conversion of its source cell as text (or of "0" when the source is not a column), in the currency of the file's own `currency` column (or CAD when there is none) |
| InputService.SingleSourceResolution | services/input_service.py:103-108 | without ';', any other field copies its source column's cell (a missing cell becoming NULL), or takes the source itself as a fixed value |
| InputService.JoinedResolution | services/input_service.py:87-98 | with ';', any field is the ';'-join of the listed columns' texts with exactly the empty ones dropped, repeats kept, in column order |
| InputService.ProcessRow | services/input_service.py:85-108 | a row fails only through an amount mapped without ';'; a processed record has exactly the mapped fields plus account and username |
| InputService.ProcessRows | services/input_service.py:81-110 | on success, one record per row |
| InputService.RecordStep | services/input_service.py:86-108 | adding one field to the record stores that field's resolved value and keeps the others |
| InputService.RecordFields | services/input_service.py:85-109 | a processed record holds the account, the user and exactly one resolved value per mapped field |
| InputService.AmountIgnoresMappedCurrency | services/input_service.py:99-102 | the converted amount does not depend on what the currency field is mapped to; only the file's "currency" column counts |
| InputService.MultiColumnAmountIsJoined | services/input_service.py:87-98 | an amount mapped to several columns is stored as their joined text, unconverted |
| InputService.CollectShape | services/input_service.py:84-110 | combined row outcomes that succeed give one record per row, each that row's record |
| InputService.CollectFails | services/input_service.py:84-110 | the combination fails iff some row's outcome is a failure |
| InputService.CollectPrefixFailure | services/input_service.py:84-109 | a failing row aborts processing of the whole file: the first failure is the result |
| InputService.ProcessRowsShape | services/input_service.py:81-110 | on success, one record per row, in row order, each the processed row |
| InputService.ProcessRowsFails | services/input_service.py:81-110 | the import fails iff some row's amount fails |
| InputService.ProcessOneRow | services/input_service.py:85-109 | the per-row loop over the mappings builds the row's record or stops at the amount's failure |
| InputService.ProcessMappings | services/input_service.py:81-110 | the row loop returns the processed records or the first failure |
| InputService.GetAccounts | services/input_service.py:18-20 | an account is listed iff some saved input mapping names it |
| InputService.SaveMappingsAndImport | services/input_service.py:35-60 | the mappings are saved first; an unreadable file or a failing row leaves the transactions unchanged; otherwise the processed rows are appended and their number returned |
| TransactionService.UserTransactions | services/transaction_service.py:13-28 | one listing row per stored transaction of the user |
| TransactionService.UserTransactionsMembers | services/transaction_service.py:19-24 | a listing row appears iff it projects a stored transaction of the user |
| TransactionService.NonNullCategories | services/transaction_service.py:36 | a category is offered iff it is not NULL and some row has it |
| TransactionService.GetFilterOptions | services/transaction_service.py:31-38 | each option list has no repeats and holds exactly the values present in its column, with NULL dropped for categories |
| TransactionService.ApplyFiltersMembers | services/transaction_service.py:45-51 | a row is kept iff all four of its columns are among the selected values |
| TransactionService.ApplyFiltersSubsequence | services/transaction_service.py:51 | the filtered rows keep the listing's order |
| TransactionService.ApplyFiltersIdempotent | services/transaction_service.py:45-51 | filtering twice with the same selection equals filtering once |
| TransactionService.ApplyFiltersMonotone | services/transaction_service.py:45-51 | widening any selection only adds rows |
| TransactionService.ApplyFiltersKeepsAll | services/transaction_service.py:45-51 | when every row is selected, the filter keeps all of them |
| TransactionService.ApplyFilters | services/transaction_service.py:45-51 | the mask never adds rows; its membership and order are stated by the lemmas above |
| CategoryService.UnmappedTransactionsMembers | services/category_service.py:13-26 | an entry is listed iff it projects a transaction of the user whose category is the empty string |
| CategoryService.UnmappedTransactions | services/category_service.py:13-26 | the listing is no longer than the table |
| CategoryService.NullCategoryNotListed | services/category_service.py:19-22 | a transaction whose category is NULL is not listed as unmapped |
| CategoryService.NonEmptyTargets | services/category_service.py:32 | a target is collected iff it is non-empty and some rule has it |
| CategoryService.ExistingCategories | services/category_service.py:29-34 | strictly sorted, and a category is listed iff it is the non-empty target of some rule |
| CategoryService.ExistingCategoriesDistinct | services/category_service.py:32-33 | the list has no repeats |
| CategoryService.SaveTransactionCategory | services/category_service.py:37-41 | appends the rule and backfills the matching transactions |
| CategoryService.SavedTripleLeavesListing | services/category_service.py:13-41 | after a non-empty category is saved for a triple, none of the user's transactions with that triple is listed as unmapped |
| Auth.VerifyHashedPassword | utils/auth.py:7-12 | a password verifies against its own hash |
| Auth.HashPassword | utils/auth.py:7-8 | the digest is the injected hash of the password (no contract of its own) |
| Auth.VerifyPassword | utils/auth.py:11-12 | a password verifies iff its digest equals the stored one (no contract of its own; Auth.VerifyHashedPassword states the round trip) |
| Auth.IsTokenValid | utils/auth.py:33-48 | valid iff the token is non-empty, decodes, carries a non-zero expiry and has not reached it |
| Auth.ValidEarlier | utils/auth.py:33-48 | a token valid at some time was valid at every earlier time |
| Auth.UsernameFromToken | utils/auth.py:51-56 | the subject claim of a token that decodes (possibly none), and nothing for a token that does not decode |
| Auth.Loaded | utils/auth.py:64-77 | persisted credentials fill in the stored username and token; nothing else changes, and nothing at all without persisted credentials |
| Auth.Stored | utils/auth.py:131-139 | username and token are set under both names, the persisted record holds them and the save time, and non-credential keys are unchanged |
| Auth.Cleared | utils/auth.py:142-149 | exactly the credential keys are removed; every other entry is kept with its value |
| Auth.ClearedIdempotent | utils/auth.py:142-149 | clearing twice equals clearing once |
| Auth.ClearUndoesStore | utils/auth.py:131-149 | clearing after storing gives the same session as clearing alone |
| Auth.LoadAfterStore | utils/auth.py:64-77 | loading after storing changes nothing |
| Auth.ValidateStored | utils/auth.py:101-128 | a valid verdict names a user and keeps the prepared entries; anything else is the invalid verdict |
| Auth.MissingCredentialsClearNothing | utils/auth.py:107-114 | a missing stored username or token gives the invalid verdict and clears nothing |
| Auth.ValidateStoredVerdict | utils/auth.py:113-128 | valid iff the token is live and its subject is the stored username; the verdict names that user; otherwise every credential is cleared |
| Auth.StoreThenValidate | utils/auth.py:101-139 | right after storing, validation accepts iff the token is live and names the user, and otherwise removes every credential |
| Auth.Session.LoadPersistentCredentials | utils/auth.py:64-77 | the session becomes the loaded entries |
| Auth.Session.SavePersistentCredentials | utils/auth.py:80-91 | only the persisted record is set |
| Auth.Session.ClearPersistentCredentials | utils/auth.py:94-98 | only the persisted record is removed |
| Auth.Session.StoreAuthCredentials | utils/auth.py:131-139 | the session becomes the stored entries |
| Auth.Session.ClearAuthCredentials | utils/auth.py:142-149 | the loop over the credential keys leaves exactly the cleared entries |
| Auth.Session.ValidateStoredAuth | utils/auth.py:101-128 | the verdict and the new session are those of the validation function |
| AuthService.LoginUser | services/auth_service.py:16-30 | "User not found." for an unknown name, "Invalid password." for a wrong password, otherwise success with the new token written to that user only |
| AuthService.LoginWritesToken | services/auth_service.py:26-30 | after login the user carries the new token and every other user is unchanged |
| AuthService.WithSameToken | services/auth_service.py:44-47 | writing a just-created user's own token back changes nothing |
| AuthService.SignupUser | services/auth_service.py:33-47 | a wrong admin password and an existing name are refused; otherwise a user with the hashed password and a token is created |
| AuthService.SignupThenLogin | services/auth_service.py:17-47 | a freshly signed-up user logs in with the same password |
| AuthService.StoreAndClearAuthentication | services/auth_service.py:50-52 | storing credentials authenticates the session; clearing them de-authenticates it |
| AuthService.IsAuthenticated | services/auth_service.py:50-52 | authenticated iff the session holds a `username` entry (no contract of its own; AuthService.StoreAndClearAuthentication states its behaviour) |
| AuthService.AutoAuthenticate | services/auth_service.py:55-75 | the session after auto-authentication and the verdict are those of stored-credential validation |
| AuthService.StoreCredentials | services/auth_service.py:78-81 | the credentials are stored and the session is authenticated |
| AuthService.LogoutUser | services/auth_service.py:84-89 | every credential is cleared, the session is not authenticated, and the success message is returned |
| InputPage.PresentColumns | pages/input_page.py:56 | the listed columns present in the file, in list order |
| InputPage.DecodeSavedValue | pages/input_page.py:53-67 | preselected columns exist in the file; "", USD, CAD and `<manual>` preselect none (USD/CAD become the fixed value); a value with ';' preselects exactly its listed columns present in the file, in order, and is the fixed value iff none is present; any other value is preselected as a column iff the file has it, and is the fixed value otherwise |
| InputPage.CurrencyManualDefault | pages/input_page.py:95-98 | "", USD and CAD are preselected as is; anything else as `<manual>` |
| InputPage.DefaultAccountType | pages/input_page.py:75 | debit is preselected iff "debit" was saved |
| InputPage.AccountTypeRoundTrip | pages/input_page.py:70-80 | saving an account type and reloading preselects the same type |
| InputPage.ComposeMapping | pages/input_page.py:136-143 | selected columns are joined with ';'; otherwise the fixed value is written when it is non-empty (for the currency always, for other fields only with the box ticked); otherwise "" |
| InputPage.Composed | pages/input_page.py:43-80 | the dict has exactly the eight required fields, with the account type "debit" or "credit" and every other field the mapping composed from its choices |
| InputPage.ComposeMappings | pages/input_page.py:48-143 | the loop over the required fields builds the composed dict |
| InputPage.ImportGuard | pages/input_page.py:146-154 | the account is checked first; the import runs iff the account is named and every mapping is non-empty |
| InputPage.SelectionRoundTrip | pages/input_page.py:53-61 | columns chosen, saved and reloaded are preselected again, in the same order |
| InputPage.AllPresent | pages/input_page.py:56 | when every listed column is present, all are preselected |
| InputPage.ManualValueRoundTrip | pages/input_page.py:59-61 | a fixed value saved for a field reloads as the same fixed value |
| InputPage.ComposedSourceInPipeline | pages/input_page.py:136-143 | a field mapped to file columns is imported as those columns' values |
| HomePage.Chosen | pages/home_page.py:33 | a value is picked iff it was chosen in the multiselect |
| HomePage.ExpandSelection | pages/home_page.py:32-49 | with "All" picked, every offered value plus the empty string; otherwise the picked values |
| HomePage.AllShowsAllButNullCategories | pages/home_page.py:32-52 | with "All" everywhere, a transaction is shown iff its category is not NULL |
| HomePage.Home | pages/home_page.py:19-72 | nothing is shown iff the user has no transactions; otherwise the rows shown are exactly the user's rows the effective selection keeps, in listing order, the count is their number, and the removal button appears iff some row is shown |
| HomePage.HomePage | pages/home_page.py:19-72 | the rendered view; duplicates are removed only when the button was shown and clicked |
| Strings.SplitJoin | pages/input_page.py:54-56 | splitting a ';'-joined selection gives back the columns |
| Strings.SortDistinct | services/category_service.py:33 | sorted without repeats, with the same members |

## Left out

- MinIO (`upload_file` after every write and in the import) is not modelled: it is an external object store.
- Database engine, sessions, table creation and commits are not modelled. Each method is one committed transaction.
- `pd.read_csv` is not modelled. The upload is given as an already-parsed table. An unreadable file is given as no table, which gives `UnreadableCsv`.
- pandas type inference is not modelled. Every cell is text or missing, and a missing cell renders as "nan".
- Number parsing and floating-point arithmetic are not modelled. Parsing is a parameter, and amounts are reals.
- The amount total on the overview (`pages/home_page.py:57`) is not modelled, because it is a floating-point sum.
- `CurrencyConverter` is a parameter. A missing rate is a failure.
- JWT encoding and decoding, and `create_jwt`, are not modelled. Decoding is a parameter, and a new token is an input.
- Only the `sub` and `exp` claims are modelled.
- SHA-256 is not modelled. The digest is a parameter.
- The clock is the input `now`. The shift that `datetime.utcnow().timestamp()` introduces on a non-UTC host is not modelled.
- Dict iteration order of the mappings is not modelled. Mappings are a map and fields are visited in any order; the result does not depend on the order.
- Query results are assumed to come back in table order.
- SQLite type affinity is not modelled: text stored in the `amount` column stays text.
- Streamlit widgets, page routing and the login, signup and category pages are not modelled. They are thin callers of the services modelled here.
- Logging and configuration are not modelled.
- HomePage.ExpandSelection: the "All" entry is a separate choice, so a real account named "All" is not confused with it.
- Storage.Database.CreateUser: a taken name violates the UNIQUE constraint on `User.username`, which raises IntegrityError at commit; this is modelled as `created == false`, not as a raised exception.
- InputService.TransactionAmountConversion: the `IndexError` raised on an empty amount or a bare "-" is modelled as `Failure(AmountIndexError)`, which aborts the import.
- Auth.ValidEarlier: holds because decoding is one fixed function of the token; the JWT library's own time checks at decode time (such as a not-yet-valid issue time) are folded into that function at a single moment.
- InputService.RawCurrency: a missing "currency" cell is passed to the converter as the text "nan".
- Storage.InsertedDetailsEffect: uses the corrected lookup, which compares a missing value as NULL. See Findings for the lookup as written.
- Storage.NewDetail: categorises with the corrected lookup, so a record with a missing original category, merchant or description gets the target of a rule saved with NULL, where the program stores "".
- Storage.InsertedDetails: built from Storage.NewDetail, with the same corrected lookup.
- Storage.Database.SaveTransactions: appends rows categorised by the corrected lookup; a row with a missing triple value gets a NULL rule's target, where the program stores "" (see Findings).
- InputService.SaveMappingsAndImport: imports through Storage.Database.SaveTransactions, so it carries the same corrected lookup.

## Findings

| source | as written | input that shows it | evidently intended | confidence | as-written member | corrected member |
|---|---|---|---|---|---|---|
| utils/sqlite_storage.py:155 | an empty CSV cell reaches `get_target_category` as NaN; SQLite binds it as NULL and `= NULL` matches no rule | a row with an empty original category, merchant "Cafe", description "Latte"; the user assigns "Food" (rule saved with NULL, existing row backfilled via IS NULL); the same row imported again is stored with category "" | a rule saved for a transaction categorises later imports of the same transaction | medium, not executed | Storage.MissingFieldRuleIgnoredAtImport | Storage.BackfillAgreesWithImport |
