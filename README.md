# Finance ledger services in Dafny

This project models the two write paths of a small personal-finance API:

- **Creating one transaction** (`CreateTransactionService`): an outcome larger than the current balance total is refused with "You do not have enough balance" before anything is written. Otherwise the category is looked up by exact title and created when it is absent. Then one transaction is saved with that category.
- **Importing a CSV file** (`ImportTransactionsService`):
  - the file's first line is skipped;
  - every cell is trimmed;
  - rows whose title, type or value is empty are dropped;
  - the category titles not yet stored are created once each, in first-occurrence order;
  - every surviving row becomes a transaction linked to the pool category with its title;
  - the uploaded file is removed only after both saves.

## Modules

- `Ledger` holds the shared pieces:
  - the categories and transactions, and the repository invariant `Consistent`;
  - the balance total;
  - lookup of a category by title;
  - the `Store` class. It stands for the two ORM repositories, plus a journal that records each save and the file removal in order.
- `CreateTransaction` holds `Resolve`, get-or-create as a function of the category store, and `Create`, the whole service as a function of the repositories. The method `ResolveCategory` is proved equal to `Resolve`, and the method `Execute` to `Create`.
- `ImportTransactions` holds:
  - the reading of the file: `Trim`, `Accept`, `Records`, and the loop `HandleCsvFile`;
  - the choice of categories: `Existing`, `NewTitles`, `Saved`, `Pool`;
  - the creation of transactions: `Materialise`, and `ImportRecords` for the whole import;
  - the methods `SaveUniqueCategories`, `SaveTransactions` and `Execute`, proved equal to those functions.
- `Scenarios` holds worked examples on concrete files and balances.

Ids are modelled as positions: a newly saved category or transaction gets the next position in its repository.

An empty category text is not special. The code looks up and creates a category titled "" like any other title (src/services/ImportTransactionsService.ts:46, 84-92; src/services/CreateTransactionService.ts:39-47). So every transaction is linked to a stored category, possibly one titled "", and `Consistent` records this.

## Model

| member | source | states |
|---|---|---|
| Ledger.IndexOf | src/services/ImportTransactionsService.ts:86 | `indexOf` returns -1 exactly when the element is absent; otherwise it returns an index holding the element with no earlier occurrence |
| Ledger.FindByTitle | src/services/CreateTransactionService.ts:39-43 | the lookup by title finds nothing exactly when no stored category has that title; what it finds is a stored category with exactly that title |
| Ledger.FindByTitleAppend | src/services/ImportTransactionsService.ts:65 | `find` over `[...newCategories, ...existentCategories]` searches the new categories first and the existing ones only when the new ones hold no match |
| Ledger.FindByTitleUnique | src/services/CreateTransactionService.ts:39-43 | when titles are unique, looking up a stored category's title returns that very category |
| Ledger.TotalAppend | src/services/CreateTransactionService.ts:21-22 | `Total`, the balance total, of two ledgers put together is the sum of their totals |
| Ledger.TotalIsSignedSum | src/services/CreateTransactionService.ts:21-22 | `Total` (incomes minus outcomes) equals a front-to-back sum of each transaction's signed value |
| Ledger.Store.SaveCategories | src/services/CreateTransactionService.ts:47 | `save` appends the given categories, leaves the transactions alone and journals one category save |
| Ledger.Store.SaveTransactions | src/services/ImportTransactionsService.ts:69 | `save` appends the given transactions, leaves the categories alone and journals one transaction save |
| Ledger.Store.Unlink | src/services/ImportTransactionsService.ts:21 | removing the file changes neither repository and journals the removal |
| CreateTransaction.Resolve | src/services/CreateTransactionService.ts:36-52 | the resolved category has the requested title and is stored. A known title leaves the store unchanged. An unknown title appends exactly one category, with a fresh id. Unique titles and positional ids are preserved |
| CreateTransaction.ResolveIdempotent | src/services/CreateTransactionService.ts:45-48 | resolving the same title again returns the same category and creates nothing |
| CreateTransaction.ResolveExisting | src/services/CreateTransactionService.ts:39-51 | resolving the title of a stored category returns that category and leaves the store as it was |
| CreateTransaction.Create | src/services/CreateTransactionService.ts:16-34 | refused exactly when the type is "outcome" and the value exceeds the balance total; a refusal carries the balance message and changes nothing. Otherwise exactly one transaction is appended, with the request's title, type and value and linked to the resolved category, and only the resolution touches the categories. The repository invariant is preserved |
| CreateTransaction.CreateBalance | src/services/CreateTransactionService.ts:20-31 | after a successful creation the total moves by exactly the new transaction's signed value, and an accepted outcome never leaves the total negative |
| CreateTransaction.ResolveCategory | src/services/CreateTransactionService.ts:36-52 | the method returns the category `Resolve` specifies and leaves the store as `Resolve` does. It saves categories only when the title was absent, and never touches transactions |
| CreateTransaction.Execute | src/services/CreateTransactionService.ts:16-34 | the result and the repositories afterwards are those `Create` specifies, and the invariant holds. A refusal writes nothing. A creation journals at most one category save, then exactly one transaction save |
| ImportTransactions.TrimStartSpec | src/services/ImportTransactionsService.ts:40 | trimming the start leaves a suffix, drops only white space, and leaves no leading white space |
| ImportTransactions.TrimEndSpec | src/services/ImportTransactionsService.ts:40 | trimming the end leaves a prefix, drops only white space, and leaves no trailing white space |
| ImportTransactions.TrimSpec | src/services/ImportTransactionsService.ts:40 | `Trim` (`cell.trim()`) gives empty exactly when the cell is all white space; a non-empty trimmed cell neither starts nor ends with white space and is no longer than the cell |
| ImportTransactions.TrimStartAppend | src/services/ImportTransactionsService.ts:40 | trimming the start of a concatenation skips an all-white-space front and otherwise trims only the front |
| ImportTransactions.TrimEndPrepend | src/services/ImportTransactionsService.ts:40 | trimming the end of a concatenation skips an all-white-space back and otherwise trims only the back |
| ImportTransactions.TrimStartAllSpace | src/services/ImportTransactionsService.ts:40 | an all-white-space cell trims to empty at the start |
| ImportTransactions.TrimPadded | src/services/ImportTransactionsService.ts:40 | white-space padding on either side of a cell does not change its trimmed text |
| ImportTransactions.TrimIdempotent | src/services/ImportTransactionsService.ts:40 | trimming twice is trimming once |
| ImportTransactions.AcceptIff | src/services/ImportTransactionsService.ts:40-47 | `Accept`, the row filter, drops a row exactly when its title, type or value is blank (missing or all white space), whatever its category; a kept row becomes the record of its trimmed cells |
| ImportTransactions.FlatMapAppend | src/services/ImportTransactionsService.ts:39-47 | accumulating row by row distributes over splitting the rows |
| ImportTransactions.FlatMapFrom | src/services/ImportTransactionsService.ts:39-47 | every accumulated item comes from one row |
| ImportTransactions.FlatMapHas | src/services/ImportTransactionsService.ts:39-47 | every item a row contributes is accumulated |
| ImportTransactions.SurvivingAppend | src/services/ImportTransactionsService.ts:39-47 | records come out in file order: two stretches of rows read as the first stretch's records followed by the second's |
| ImportTransactions.SurvivingStep | src/services/ImportTransactionsService.ts:39-47 | reading one more data line appends exactly that line's contribution to the records read so far |
| ImportTransactions.CategoriesOfAppend | src/services/ImportTransactionsService.ts:46 | the category list of a longer record list extends the category list of the shorter one |
| ImportTransactions.SurvivingMember | src/services/ImportTransactionsService.ts:39-47 | a record is read exactly when some data row is accepted as that record |
| ImportTransactions.HeaderIgnored | src/services/ImportTransactionsService.ts:29-32 | `Records` starts reading at the second line: the first line never contributes a record, whatever it holds |
| ImportTransactions.HandleCsvFile | src/services/ImportTransactionsService.ts:26-53 | the loop returns exactly the records of the file, plus the category text of each record in the same order, duplicates kept |
| ImportTransactions.Existing | src/services/ImportTransactionsService.ts:77-81 | the existing categories are exactly the stored categories whose title is among the requested titles |
| ImportTransactions.Without | src/services/ImportTransactionsService.ts:84-85 | the first filter keeps exactly the titles that are not existing titles |
| ImportTransactions.KeepFirstsSpec | src/services/ImportTransactionsService.ts:86 | the `indexOf` filter over a prefix keeps exactly that prefix's elements, in first-occurrence order |
| ImportTransactions.FirstOccurrencesSpec | src/services/ImportTransactionsService.ts:86 | the `indexOf` filter keeps every element exactly once, in first-occurrence order |
| ImportTransactions.WithoutOrder | src/services/ImportTransactionsService.ts:84-85 | the first filter keeps the relative first-occurrence order of what it keeps |
| ImportTransactions.NewTitlesSpec | src/services/ImportTransactionsService.ts:83-86 | `NewTitles`, the titles to create, are distinct, are exactly the candidates that are not existing titles, and follow the candidates' first-occurrence order |
| ImportTransactions.PoolCovers | src/services/ImportTransactionsService.ts:77-94 | every category text of the file titles some category of `Pool`, the returned new-then-existing list, so the later `find` never fails |
| ImportTransactions.SavedFresh | src/services/ImportTransactionsService.ts:83-92 | `Saved`, the created categories, have distinct titles, each a candidate, none already stored |
| ImportTransactions.SavedKeepsStore | src/services/ImportTransactionsService.ts:88-92 | saving the created categories keeps stored titles unique and ids positional |
| ImportTransactions.MaterialiseSpec | src/services/ImportTransactionsService.ts:60-67 | `Materialise` gives one transaction per record, in order and with fresh ids, keeping the record's title, type and converted value. A transaction has no category exactly when no pool category carries its record's category title; otherwise it is linked to the first pool category with that title |
| ImportTransactions.ImportRecords | src/services/ImportTransactionsService.ts:55-72 | an import only appends: the saved categories to the category store, and exactly one transaction per record to the transaction store |
| ImportTransactions.ImportSpec | src/services/ImportTransactionsService.ts:55-94 | every imported transaction keeps its record's fields and is linked to a stored category titled by the record's category. The created categories are distinct file categories that were not stored before |
| ImportTransactions.ImportConsistent | src/services/ImportTransactionsService.ts:55-94 | an import preserves the repository invariant: unique category titles, positional ids, and every transaction linked to a stored category |
| ImportTransactions.LinkedToStoredCategory | src/services/ImportTransactionsService.ts:58-65 | every imported transaction is linked to the one category the store holds afterwards with its record's category title, whether that category existed before or was created by the import; records with the same category text therefore share one category |
| ImportTransactions.SaveUniqueCategories | src/services/ImportTransactionsService.ts:74-96 | the method returns the pool of new categories followed by existing ones, and saves exactly the new categories in one save |
| ImportTransactions.SaveTransactions | src/services/ImportTransactionsService.ts:55-72 | the method saves categories first and then exactly the materialised transactions, returning those transactions |
| ImportTransactions.Execute | src/services/ImportTransactionsService.ts:16-24 | the method returns the transactions `ImportRecords` specifies for the file's records and leaves the store in its post-import state, with the invariant kept. The journal holds the category save, then the transaction save, then the file removal, in that order |
| Scenarios.TrimPlain | src/services/ImportTransactionsService.ts:40 | a cell with no white space at either end is unchanged by trimming |
| Scenarios.TrimLeadingSpace | src/services/ImportTransactionsService.ts:40 | a cell with a leading space trims to its text without the space |
| Scenarios.TrimTrailingSpace | src/services/ImportTransactionsService.ts:40 | a cell with a trailing space trims to its text without the space |
| Scenarios.AcceptSalary | src/services/ImportTransactionsService.ts:40-47 | a row whose type and value are padded with spaces is kept, with the padding removed |
| Scenarios.AcceptRent | src/services/ImportTransactionsService.ts:40-47 | a row without padding is kept as it is |
| Scenarios.AcceptBlankTitle | src/services/ImportTransactionsService.ts:42-44 | a row with an empty title is dropped |
| Scenarios.RecordsOfThree | src/services/ImportTransactionsService.ts:29-47 | a header and three rows read as the three rows' contributions in order |
| Scenarios.ExampleRecords | src/services/ImportTransactionsService.ts:26-53 | a concrete file with any header, two good rows and one blank-title row reads as exactly the two good records |
| Scenarios.ExampleCategories | src/services/ImportTransactionsService.ts:74-96 | importing those records into an empty store creates "Job" then "Housing", with ids 0 and 1 |
| Scenarios.ExampleBalance | src/services/ImportTransactionsService.ts:55-72 | after that import the balance total is 5000 - 1200 |
| Scenarios.ExampleBoundary | src/services/CreateTransactionService.ts:20-25 | with a total of 3800, an outcome of 3800 is created and an outcome of 3801 is refused without any change |

## Left out

- Streams and parsing: reading the file is out of scope. The parser's quoting and escaping rules are out of scope too. The file is given as its lines, already split into cells.
- A row with fewer than four cells: its missing cells read as the empty string. In the code a missing cell is `undefined`, which the emptiness test treats the same way. A missing category would be looked up as `undefined` instead of "".
- Exceptions from the file system, the database and `unlink`: the model assumes every save and the removal succeed. It does not model an import that fails after its categories were saved.
- Asynchronous execution: both services run to completion in the model. It does not model two requests interleaving between the lookup and the save, such as two creations of the same category title.
- Balance query: the repository's `getBalance` is not part of this model. Its total is taken to be the sum of "income" values minus the sum of "outcome" values.
- Database ids: the database generates ids (UUIDs). The model gives each new row the next position in its repository instead.
- Number conversion: the conversion of the imported value text into the numeric column is the parameter `toValue`. JavaScript number semantics and floating point are not modelled, and amounts are unbounded integers.
- `In` with an empty list: a file with no records looks up existing categories with an empty `In` list. The model takes that to find no categories, and then saves nothing new. A database that rejects an empty `IN` list would fail instead.
- Order of existing categories: the order in which the database returns them is unspecified. The model returns them in store order. This matters only for `find`, which sees new categories before existing ones, and titles are unique anyway.
- CreateTransaction.Create: the value is not checked for positivity, and the type is not checked to be "income" or "outcome". The code checks neither; a type other than "outcome" skips the balance guard.
- ImportTransactions.ImportRecords: no balance guard applies to imported outcomes, because the import path has none.
- HTTP routing, request validation, middleware and the error handler are outside the two services.
