# Student-order data access, modelled in Dafny

This project models the data-access core of a student marriage-order registry
written in Java on JDBC and PostgreSQL. The core has four parts.

- **Area directory.** `DictionaryDaoImpl.buildParam` turns a 12-digit
  administrative-area code into a SQL `LIKE` pattern for the next level of the
  country / region / district / town tree. `findAreas` runs
  `area_id like ? and area_id <> ?` with that pattern and the code itself.
- **Listing orders in one query.** `StudentOrderDaoImpl.getStudentOrdersOneSelect`
  reads joined rows, one per child. It keeps an id-to-order map, an ordered
  result list and a row counter. When the counter reaches the limit, it drops
  the last order, whose children may have been cut off.
- **Attaching children in a second query.** `findChildren` builds an `IN (...)`
  list from the orders' ids. It indexes the orders with `Collectors.toMap` and
  appends every fetched child to its order.
- **Saving an order.**
  - `saveStudentOrder` and `saveChildren` run a transaction. They insert the
    header, take the generated key and batch one row per child. Then they
    commit, or roll back on any failure.
  - `setParamsForAdult`, `setParamsForChild`, `setParamForPerson` and
    `setParamsForAddress` fill the numbered statement slots.
  - The decoders `getFullStudentOrder`, `fillAdult` and `fillChild` read an
    order back.

Modules:
- `Wrappers`: Option and Result.
- `Jdbc`: values, column labels, rows read by label, and a `PreparedStatement`
  class whose slots are an array filled in place.
- `Domain`: the records.
- `AreaCodes`: buildParam, trim, `_` matching, the area tree and the findAreas filter.
- `OrderParams`: the column lists of INSERT_ORDER and INSERT_CHILD and the
  setParams methods.
- `OrderDecode`: the decoders and the label layout of SELECT_ORDERS_FULL.
- `AdultReads`: the typed getters fillAdult applies to one adult's columns.
- `Aggregation`: the one-query loop and a reference grouping.
- `IdList`: the IN-list text and how it reads back.
- `Children`: findChildren.
- `OrderWriter`: a `Connection` class with committed and pending rows, and the
  save methods.
- `ReadAfterWrite`: what the listing returns for a saved order, as written and with the child-office labels corrected.

Environment-dependent inputs are parameters:
- the current time (`now`);
- the row limit read from the configuration;
- the rows a query returns, or the child table it reads;
- which database operations fail, and whether a generated key comes back.

Ids and numbers are unbounded integers.

## Model

| member | source | states |
|---|---|---|
| AreaCodes.TrimEmpty | src/main/java/edu/javacourse/studentorder/dao/DictionaryDaoImpl.java:125 | `trim()` of a string is empty exactly when every character is at most U+0020 |
| AreaCodes.BuildParam | src/main/java/edu/javacourse/studentorder/dao/DictionaryDaoImpl.java:123-137 | every pattern buildParam produces has 12 characters |
| AreaCodes.BlankIsRoot | src/main/java/edu/javacourse/studentorder/dao/DictionaryDaoImpl.java:125-126 | a null or blank code gives `__0000000000`; a non-blank 12-character code never does |
| AreaCodes.BuildParamCases | src/main/java/edu/javacourse/studentorder/dao/DictionaryDaoImpl.java:127-134 | the branches in priority order: 10 zeros, then 7, then 4, each with its pattern. The 4-zero branch throws for a code shorter than 8. The code is rejected with an error exactly when it does not end in `0000` |
| AreaCodes.AllZeroCode | src/main/java/edu/javacourse/studentorder/dao/DictionaryDaoImpl.java:127-128 | `000000000000` takes the 10-zero branch (`00___0000000`), not the blank-input pattern |
| AreaCodes.TestInputs | src/test/java/edu/javacourse/studentorder/dao/DictionaryDaoImplTest.java:50-57 | each of the four test inputs takes a non-error branch, one per level |
| AreaCodes.CodeRejectedIffLeaf | src/main/java/edu/javacourse/studentorder/dao/DictionaryDaoImpl.java:131-134 | a well-formed code is rejected exactly when it is a bottom-level code (its last four digits are not all zero) |
| AreaCodes.PatternMatchesCode | src/main/java/edu/javacourse/studentorder/dao/DictionaryDaoImpl.java:126-132 | an accepted 12-character code gets a 12-character pattern that equals the code wherever it is not `_`, so the pattern matches the code |
| AreaCodes.LikeLevel | src/main/java/edu/javacourse/studentorder/dao/DictionaryDaoImpl.java:28-29 | a pattern of kept prefix, wildcards and zeros matches a code exactly when the code has that prefix and that zero tail |
| AreaCodes.ChildrenAreParented | src/main/java/edu/javacourse/studentorder/dao/DictionaryDaoImpl.java:104-107 | a code matches the pattern and differs from the input exactly when its parent in the area tree is the input |
| AreaCodes.ParentOfRegionChild | src/main/java/edu/javacourse/studentorder/dao/DictionaryDaoImpl.java:127-128 | the children of a region are the district codes with its first 2 digits |
| AreaCodes.ParentOfDistrictChild | src/main/java/edu/javacourse/studentorder/dao/DictionaryDaoImpl.java:129-130 | the children of a district are the town codes with its first 5 digits |
| AreaCodes.ParentOfTownChild | src/main/java/edu/javacourse/studentorder/dao/DictionaryDaoImpl.java:131-132 | the children of a town are the other codes with its first 8 digits |
| AreaCodes.MatchingMembers | src/main/java/edu/javacourse/studentorder/dao/DictionaryDaoImpl.java:28-29 | the filter keeps exactly the table codes that match the pattern and are not equal to the exclusion |
| AreaCodes.NotOwnChild | src/main/java/edu/javacourse/studentorder/dao/DictionaryDaoImpl.java:104-107 | findAreas never returns the code it was given |
| AreaCodes.MatchingIsChildren | src/main/java/edu/javacourse/studentorder/dao/DictionaryDaoImpl.java:28-29 | for an accepted code, the filter returns exactly the code's children in the tree, in table order |
| AreaCodes.FindAreasChildren | src/main/java/edu/javacourse/studentorder/dao/DictionaryDaoImpl.java:100-121 | findAreas on a well-formed code lists its children, or fails for a bottom-level code |
| AreaCodes.RootPatternRegions | src/main/java/edu/javacourse/studentorder/dao/DictionaryDaoImpl.java:126 | `__0000000000` matches exactly the codes without a parent, the regions |
| AreaCodes.MatchingIsRegions | src/main/java/edu/javacourse/studentorder/dao/DictionaryDaoImpl.java:28-29 | with the root pattern and a blank exclusion, the filter returns the regions |
| AreaCodes.FindAreasBlank | src/main/java/edu/javacourse/studentorder/dao/DictionaryDaoImpl.java:100-121 | findAreas on a blank code lists every region |
| AreaCodes.NullExclusionKeepsNothing | src/main/java/edu/javacourse/studentorder/dao/DictionaryDaoImpl.java:29 | `area_id <> NULL` is never true, so a null exclusion keeps no row |
| AreaCodes.FindAreasNull | src/main/java/edu/javacourse/studentorder/dao/DictionaryDaoImpl.java:104-107 | findAreas(null) returns the empty list, whatever the table holds |
| AreaCodes.FindAreasNullSafeRegions | src/main/java/edu/javacourse/studentorder/dao/DictionaryDaoImpl.java:104-107 | with a blank exclusion for null, findAreas(null) lists the regions and every other input is unchanged |
| Jdbc.GetFirst | src/main/java/edu/javacourse/studentorder/dao/StudentOrderDaoImpl.java:297-298 | reading a column by label returns the first column with that label |
| Jdbc.PreparedStatement.constructor | src/main/java/edu/javacourse/studentorder/dao/StudentOrderDaoImpl.java:110 | a new statement has every slot unbound and an empty batch |
| Jdbc.PreparedStatement.Set | src/main/java/edu/javacourse/studentorder/dao/StudentOrderDaoImpl.java:140 | setX binds one slot and leaves the others and the batch as they were |
| Jdbc.PreparedStatement.AddBatch | src/main/java/edu/javacourse/studentorder/dao/StudentOrderDaoImpl.java:114 | addBatch queues the current values as one more row |
| OrderParams.HeaderShape | src/main/java/edu/javacourse/studentorder/dao/StudentOrderDaoImpl.java:23-32 | the header values fill the 35 columns of INSERT_ORDER, status and date first, husband in slots 3-17, wife in 18-32 |
| OrderParams.HeaderIgnoresServerFields | src/main/java/edu/javacourse/studentorder/dao/StudentOrderDaoImpl.java:82-83 | the order's own id, status, date and children never reach the header statement |
| OrderParams.ChildRowShape | src/main/java/edu/javacourse/studentorder/dao/StudentOrderDaoImpl.java:34-38 | a child row fills the 13 columns of INSERT_CHILD with the order id in slot 1 |
| OrderParams.SetParamForPerson | src/main/java/edu/javacourse/studentorder/dao/StudentOrderDaoImpl.java:139-144 | binds the four person values from `start`, each slot once, and nothing else |
| OrderParams.SetParamsForAddress | src/main/java/edu/javacourse/studentorder/dao/StudentOrderDaoImpl.java:146-153 | binds the five address values from `start`, each slot once, and nothing else |
| OrderParams.SetPassport | src/main/java/edu/javacourse/studentorder/dao/StudentOrderDaoImpl.java:122-125 | binds the passport series, number, issue date and office id to the four slots from `at`, each once, and nothing else |
| OrderParams.SetStudent | src/main/java/edu/javacourse/studentorder/dao/StudentOrderDaoImpl.java:127-128 | binds the university id and the student number to the two slots from `at`, each once, and nothing else |
| OrderParams.SetParamsForAdult | src/main/java/edu/javacourse/studentorder/dao/StudentOrderDaoImpl.java:120-129 | binds the 15 adult values from `start`, in column order, each slot once |
| OrderParams.SetParamsForChild | src/main/java/edu/javacourse/studentorder/dao/StudentOrderDaoImpl.java:131-137 | binds the 12 child values to slots 2-13, each once |
| OrderParams.SetSpouses | src/main/java/edu/javacourse/studentorder/dao/StudentOrderDaoImpl.java:85-86 | binds the husband's 15 values and then the wife's to the 30 slots from `at`, each once |
| OrderParams.SetMarriage | src/main/java/edu/javacourse/studentorder/dao/StudentOrderDaoImpl.java:88-90 | binds the certificate id, the marriage office id and the marriage date to three slots, each once |
| OrderParams.BindHeader | src/main/java/edu/javacourse/studentorder/dao/StudentOrderDaoImpl.java:82-90 | afterwards all 35 slots are bound, each exactly once, to the header values |
| OrderDecode.AdultColumnFirst | src/main/java/edu/javacourse/studentorder/dao/StudentOrderDaoImpl.java:57 | in a SELECT_ORDERS_FULL row, each `h_`/`w_` label first occurs at the adult's own column |
| OrderDecode.LabelsShape | src/main/java/edu/javacourse/studentorder/dao/StudentOrderDaoImpl.java:57-60 | the first 43 labels of a SELECT_ORDERS_FULL row are the order's own columns with the `h_` and `w_` columns in INSERT_ORDER's order, then the marriage-office and the two passport-office join columns, then the child row's `student_order_id` |
| OrderDecode.OfficeColumnsFirst | src/main/java/edu/javacourse/studentorder/dao/StudentOrderDaoImpl.java:58-59 | the aliased passport-office labels first occur at their own join's columns |
| OrderDecode.OrderColumnsFirst | src/main/java/edu/javacourse/studentorder/dao/StudentOrderDaoImpl.java:57 | the header labels and the unaliased `r_office_*` labels first occur in `so.*` and the `ro` join |
| OrderDecode.ChildColumnFirst | src/main/java/edu/javacourse/studentorder/dao/StudentOrderDaoImpl.java:60 | each `c_` label first occurs in `soc.*` |
| OrderDecode.AliasedOfficeFirst | src/main/java/edu/javacourse/studentorder/dao/StudentOrderDaoImpl.java:60 | with `ro_c` aliased, its labels first occur at the last two columns |
| OrderDecode.FillAdultFrom | src/main/java/edu/javacourse/studentorder/dao/StudentOrderDaoImpl.java:241-266 | a row holding an adult's values under the prefixed labels decodes to that adult, with street and university names empty |
| AdultReads.AdultPersonReads | src/main/java/edu/javacourse/studentorder/dao/StudentOrderDaoImpl.java:243-246 | where each adult label holds the value bound for it, the name and date-of-birth getters return the saved person's fields |
| AdultReads.AdultPassportReads | src/main/java/edu/javacourse/studentorder/dao/StudentOrderDaoImpl.java:247-250 | under the same condition, the passport getters return the saved series, number, issue date and office id |
| AdultReads.AdultAddressReads | src/main/java/edu/javacourse/studentorder/dao/StudentOrderDaoImpl.java:256-261 | under the same condition, the address getters return the saved post code, street code, building, extension and apartment |
| AdultReads.AdultStudentReads | src/main/java/edu/javacourse/studentorder/dao/StudentOrderDaoImpl.java:263-265 | under the same condition, the university id and student number getters return the saved values |
| OrderDecode.ReadBackAdult | src/main/java/edu/javacourse/studentorder/dao/StudentOrderDaoImpl.java:241-266 | the husband and wife read back from a stored row equal those saved, except the street and university names, which come back empty |
| OrderDecode.ReadBackOrder | src/main/java/edu/javacourse/studentorder/dao/StudentOrderDaoImpl.java:215-239 | getFullStudentOrder on a stored row gives the key, the save time, status START, both adults, no children, the marriage fields and the marriage office |
| OrderDecode.FillChildFrom | src/main/java/edu/javacourse/studentorder/dao/StudentOrderDaoImpl.java:285-311 | a row holding a child's values decodes to that child, with the office area and name read from the given labels |
| OrderDecode.ReadBackChildAsWritten | src/main/java/edu/javacourse/studentorder/dao/StudentOrderDaoImpl.java:285-311 | fillChild on a SELECT_ORDERS_FULL row gives the child with the marriage office's area and name |
| OrderDecode.ChildOfficeMixup | src/main/java/edu/javacourse/studentorder/dao/StudentOrderDaoImpl.java:297-298 | the child reads back as saved exactly when its office has the marriage office's area and name |
| OrderDecode.ReadBackChild | src/main/java/edu/javacourse/studentorder/dao/StudentOrderDaoImpl.java:285-311 | with `ro_c` aliased and fillChild reading the aliases, the child reads back as saved, except the street name |
| Aggregation.Find | src/main/java/edu/javacourse/studentorder/dao/StudentOrderDaoImpl.java:174 | the position of the first occurrence of an id, or the length when the id is absent |
| Aggregation.StepByMap | src/main/java/edu/javacourse/studentorder/dao/StudentOrderDaoImpl.java:172-180 | one turn of the loop, using the map, does what the list-only step does and keeps the map pointing at each id's order |
| Aggregation.GetStudentOrdersOneSelect | src/main/java/edu/javacourse/studentorder/dao/StudentOrderDaoImpl.java:161-192 | the loop returns the fold of the rows, minus the last order when the counter reached the limit, or fails on an empty list |
| Aggregation.Dedup | src/main/java/edu/javacourse/studentorder/dao/StudentOrderDaoImpl.java:173-176 | the distinct ids, each once, in first-seen order |
| Aggregation.Group | src/main/java/edu/javacourse/studentorder/dao/StudentOrderDaoImpl.java:174-179 | the order an id makes up carries that id |
| Aggregation.GroupSnoc | src/main/java/edu/javacourse/studentorder/dao/StudentOrderDaoImpl.java:174-179 | one more row either creates its order from its own header and child, or appends its child to the existing order |
| Aggregation.FoldIsGroups | src/main/java/edu/javacourse/studentorder/dao/StudentOrderDaoImpl.java:172-180 | the loop's list holds one order per distinct id, in first-seen order. Each order is built from its id's first row and holds the children of all that id's rows, in row order |
| Aggregation.DedupAscendingLast | src/main/java/edu/javacourse/studentorder/dao/StudentOrderDaoImpl.java:67 | for rows ordered by id, the last order is that of the last row |
| Aggregation.DedupPrefix | src/main/java/edu/javacourse/studentorder/dao/StudentOrderDaoImpl.java:67 | the orders of a cut-off prefix of the rows are a prefix of the orders of all rows |
| Aggregation.GroupPrefix | src/main/java/edu/javacourse/studentorder/dao/StudentOrderDaoImpl.java:67 | an order none of whose rows lies past the cut is the same before and after it |
| Aggregation.OneSelectComplete | src/main/java/edu/javacourse/studentorder/dao/StudentOrderDaoImpl.java:182-183 | rows are sorted by id and cut at a limit of at least 1. Then the result is a prefix of the unlimited result, every returned order is complete, and nothing is dropped when the limit was not reached |
| Aggregation.OneSelectFails | src/main/java/edu/javacourse/studentorder/dao/StudentOrderDaoImpl.java:182-183 | the listing fails (remove(-1)) exactly when there are no rows and the limit is at most 0 |
| Aggregation.FoldOneOrder | src/main/java/edu/javacourse/studentorder/dao/StudentOrderDaoImpl.java:172-180 | rows of a single order fold into that one order holding every row's child, in row order |
| IdList.NatText | src/main/java/edu/javacourse/studentorder/dao/StudentOrderDaoImpl.java:270 | a nonnegative id prints as a nonempty run of decimal digits |
| IdList.IdText | src/main/java/edu/javacourse/studentorder/dao/StudentOrderDaoImpl.java:270 | an id's text holds no comma |
| IdList.InList | src/main/java/edu/javacourse/studentorder/dao/StudentOrderDaoImpl.java:270-271 | the IN list is wrapped in parentheses |
| IdList.ParseIdText | src/main/java/edu/javacourse/studentorder/dao/StudentOrderDaoImpl.java:270 | String.valueOf of an id reads back as that id |
| IdList.SplitJoin | src/main/java/edu/javacourse/studentorder/dao/StudentOrderDaoImpl.java:271 | joining comma-free texts with "," and splitting again gives them back |
| IdList.InListRoundTrip | src/main/java/edu/javacourse/studentorder/dao/StudentOrderDaoImpl.java:270-271 | a nonempty IN list names exactly the ids, in order; the empty one is `()`, which is not a list |
| Children.IndexById | src/main/java/edu/javacourse/studentorder/dao/StudentOrderDaoImpl.java:273-274 | toMap succeeds exactly when the ids are distinct, and then maps each id to its order; otherwise it fails with a duplicate key |
| Children.Selected | src/main/java/edu/javacourse/studentorder/dao/StudentOrderDaoImpl.java:50-54 | the query returns only rows whose order id is in the list |
| Children.Attach | src/main/java/edu/javacourse/studentorder/dao/StudentOrderDaoImpl.java:277-281 | attaching children keeps the orders' ids |
| Children.AttachChildren | src/main/java/edu/javacourse/studentorder/dao/StudentOrderDaoImpl.java:277-281 | the attaching loop computes Attach, stopping at the first row without an order |
| Children.AttachSucceeds | src/main/java/edu/javacourse/studentorder/dao/StudentOrderDaoImpl.java:277-281 | the loop succeeds exactly when every row's id has an order |
| Children.AttachContents | src/main/java/edu/javacourse/studentorder/dao/StudentOrderDaoImpl.java:277-281 | with distinct ids, each order gains exactly the children of its rows, in row order |
| Children.SelectedChildren | src/main/java/edu/javacourse/studentorder/dao/StudentOrderDaoImpl.java:50-54 | for a listed id, the query returns all of that id's children from the table |
| Children.FindChildren | src/main/java/edu/javacourse/studentorder/dao/StudentOrderDaoImpl.java:269-283 | repeated ids fail with a duplicate key, and no orders fail on the `()` query. Otherwise every order gains all its children from the table, in table order |
| OrderWriter.Connection.constructor | src/main/java/edu/javacourse/studentorder/dao/StudentOrderDaoImpl.java:69-71 | a fresh connection has auto-commit on and no pending rows |
| OrderWriter.Connection.SetAutoCommit | src/main/java/edu/javacourse/studentorder/dao/StudentOrderDaoImpl.java:79 | switching auto-commit off keeps everything else; switching it on commits the pending rows |
| OrderWriter.Connection.ExecuteInsert | src/main/java/edu/javacourse/studentorder/dao/StudentOrderDaoImpl.java:91-95 | a successful insert takes the next key, pending or committed by auto-commit, and returns the key if the driver does; a failed one changes nothing |
| OrderWriter.Connection.ExecuteBatch | src/main/java/edu/javacourse/studentorder/dao/StudentOrderDaoImpl.java:116 | the whole batch is written, or nothing is |
| OrderWriter.Connection.Commit | src/main/java/edu/javacourse/studentorder/dao/StudentOrderDaoImpl.java:97 | pending rows become committed; a failed commit, or one under auto-commit, changes nothing |
| OrderWriter.Connection.Rollback | src/main/java/edu/javacourse/studentorder/dao/StudentOrderDaoImpl.java:98-100 | pending rows are discarded, the committed ones and the key sequence are kept |
| OrderWriter.ChildRows | src/main/java/edu/javacourse/studentorder/dao/StudentOrderDaoImpl.java:111-114 | one 13-value row per child, in child order, with the order id first and the child's values after it |
| OrderWriter.BindChildRow | src/main/java/edu/javacourse/studentorder/dao/StudentOrderDaoImpl.java:112-113 | one turn of the loop binds all 13 slots, each once more, to the order id followed by the child's values |
| OrderWriter.SaveChildren | src/main/java/edu/javacourse/studentorder/dao/StudentOrderDaoImpl.java:109-118 | the executed batch holds one row per child, in child order, each the order id followed by the child's 12 values; it is committed or left pending as auto-commit says, and nothing else changes |
| OrderWriter.SaveStudentOrder | src/main/java/edu/javacourse/studentorder/dao/StudentOrderDaoImpl.java:74-107 | succeeds exactly when insert, batch and commit succeed. It then commits the header and one row per child and returns the key, or -1 if none came back. On any failure the committed tables are unchanged and the transaction is rolled back |
| ReadAfterWrite.SavedRowReadsBack | src/main/java/edu/javacourse/studentorder/dao/StudentOrderDaoImpl.java:215-266 | with `ro_c` aliased and fillChild reading the aliases (the correction in Findings), each joined row of a saved order decodes to the saved header and that child |
| ReadAfterWrite.SavedRowReadsBackAsWritten | src/main/java/edu/javacourse/studentorder/dao/StudentOrderDaoImpl.java:215-311 | as written, each joined row of a saved order decodes to the saved header and that child, except that the child's register office carries the marriage office's area and name |
| ReadAfterWrite.OrderListedAlone | src/main/java/edu/javacourse/studentorder/dao/StudentOrderDaoImpl.java:161-192 | the rows of one order, listed alone, give that order with all its decoded children when there are fewer than the limit. They give nothing when there are no rows, or at least `limit` of them |
| ReadAfterWrite.SavedOrderListed | src/main/java/edu/javacourse/studentorder/dao/StudentOrderDaoImpl.java:161-192 | with the corrected query and decoder, a saved order listed alone comes back whole when it has fewer children than the limit. It is absent when it has no children, or when it has at least `limit` children |
| ReadAfterWrite.SavedOrderListedAsWritten | src/main/java/edu/javacourse/studentorder/dao/StudentOrderDaoImpl.java:161-192 | as written, the same holds except that every listed child's register office carries the marriage office's area and name |

## Left out

- Connecting to the database, reading the row limit from the configuration, logging, closing resources, and wrapping exceptions in DaoException. Every failure is a `Failure` value; the model does not separate checked from unchecked exceptions.
- SQL execution. The rows a query returns are inputs. SELECT_ORDERS_FULL's `ORDER BY` and `LIMIT` become the requirements of `Aggregation.OneSelectComplete`: rows sorted by id and cut at `limit`.
- The child query's result order. `Children.Selected` keeps table order, because the query has no `ORDER BY`.
- The contents of `so.*` and `soc.*`. `so.*` is taken to be the key followed by the INSERT_ORDER columns. `soc.*` is taken to be the INSERT_CHILD columns. Columns the code never reads, such as the child row's own key, are not modelled.
- The transaction engine. The model has committed and pending rows only; isolation is not modelled. PostgreSQL's key sequence is a counter that a rollback does not reset. A failing rollback, and the connection discarding pending rows on close, are not modelled.
- Java date and time. `LocalDateTime.now`, `Timestamp.valueOf`, `Date.valueOf` and `toLocalDate` are opaque values; the current time is the parameter `now`.
- Null fields and the NullPointerExceptions they would raise in the setParams helpers. `StudentOrderStatus.fromValue` is not modelled: the status stays its ordinal.
- 64-bit `long` range. Ids are unbounded integers.
- `LIKE`'s `%` wildcard and escapes. buildParam's patterns contain only `_` and the code's own characters.
- `findStreets`, `findPassportOffices` and `findRegisterOffices`: single-table lookups with no logic of their own.
- `getStudentOrders` and the queries of `getStudentOrdersTwoSelect`, which is unreachable. Only `findChildren` is modelled from that path.
- Aggregation.GetStudentOrdersOneSelect: takes rows that are already decoded, so a decoding failure in the middle of the loop is not modelled. What the rows of a saved order decode to is proved as written (ReadAfterWrite.SavedRowReadsBackAsWritten, where each child takes the marriage office's area and name) and for the corrected query (ReadAfterWrite.SavedRowReadsBack).
- Aggregation.GetStudentOrdersOneSelect: Java's map shares order objects with the result list. Here that sharing is a map from id to list position, over values.
- AreaCodes.ChildrenAreParented: the tree lemmas assume well-formed codes (`AreaCodes.IsCode`): 12 digits, with no non-zero level below a zero level. Codes that skip a level are outside the area tree.
- AreaCodes.BuildParam: its own contract states only the length of the pattern. The branch-by-branch behaviour is stated by AreaCodes.BuildParamCases.
- The test file's expected result counts, which depend on fixture data.

## Findings

| source | as written | input that shows it | evidently intended | confidence | as-written member | corrected member |
|---|---|---|---|---|---|---|
| src/main/java/edu/javacourse/studentorder/dao/DictionaryDaoImpl.java:104-107 | buildParam treats a null code like a blank one and returns the root pattern. findAreas still binds the null code as the `<>` operand, and `area_id <> NULL` is never true, so no row is returned | `findAreas(null)` on any table | the regions, as `findAreas("")` returns | not executed | AreaCodes.FindAreasNull | AreaCodes.FindAreasNullSafeRegions |
| src/main/java/edu/javacourse/studentorder/dao/StudentOrderDaoImpl.java:297-298 | fillChild reads `r_office_area_id` and `r_office_name`. In SELECT_ORDERS_FULL these labels first belong to the marriage office's join (`ro`), not the child's (`ro_c`), so every child gets the marriage office's area and name | a child registered at an office other than the marriage office | the child's own office area and name, e.g. through aliased `ro_c` columns | not executed | OrderDecode.ChildOfficeMixup | OrderDecode.ReadBackChild |

On the two-query path, the child query joins only the child's office, so fillChild reads the right columns there.
