# APRE sales reports and user routes, modelled in Dafny

This project models the part of APRE, an analytics-and-reporting web
application, that holds real logic. It has three parts.

- **The sales report routes of the server.** `GET /regions` and
  `GET /categories` return the distinct regions and categories of the `sales`
  collection.
- **The two report pipelines.** `GET /regions/:region` and
  `GET /categories/:category` run fixed aggregation pipelines of four stages:
  `$match`, then `$group` with `$sum`, then `$project`, then `$sort`.
- **The code around them.** On the client, the sales-data table component and
  the sales-by-category chart component take in the report rows. On the
  server, the user routes build the commands they send to the `users`
  collection.

The `sales` collection is a sequence of `Sale` records
`{region, category, salesperson, amount}`. Each stage is a function on that
sequence. The `$sort` on names uses the store's default binary string
order, which is code-point order.

Files and modules:

- `js_values.dfy` (`JsValues`): JSON-like values, objects as string-keyed
  maps, `undefined` for a missing key, JavaScript truthiness, and `${}` of a
  form value.
- `string_order.dfy` (`StringOrder`): the string order used by `$sort`.
  The lemmas prove it is a strict total order, and that it is the
  first-difference order.
- `sales_pipeline.dfy` (`SalesPipeline`): the stages `$match`,
  `$group`/`$sum`, both `$project` shapes, both `$sort` orders, and
  `distinct`.
- `sales_reports.dfy` (`SalesReports`): the four routes as compositions of
  those stages, with the properties each report promises.
- `sales_data_view.dfy` (`SalesDataView`): the `SalesDataComponent` class.
  `salesData` is an array, and the response handler's loop adds the
  `'Total Sales'` and `'Sales Person'` keys to each row in place.
- `sales_by_category_view.dfy` (`SalesByCategoryView`): the
  `SalesByCategoryComponent` class. Its state is `totalSales`,
  `selectedCategory`, `categories` and the form control. The file also
  holds the `map` to `totalSales`.
- `users_routes.dfy` (`UsersRoutes`):
  - `GET /users/:id` validates the id before it looks anything up.
  - `PUT` builds its `updateFields` step by step.
  - `POST` changes the `user` object in place.
  - `PUT` and `DELETE` check the id only by building `new ObjectId(id)`
    inside the store callback. An id the driver does not accept makes that
    constructor throw, so no command and no response go out. Any other id is
    updated or deleted, and the response repeats it.

Some behaviour of the code, kept as written:

- The `$group` stage comes with no order promise. `GroupBy` lists the groups
  in order of first occurrence. `RegionReportIndependentOfGroupOrder`
  proves that the region report is the same for every order of the groups.
- `new Error(400, 'Invalid parameter')` passes `400` as the error
  *message*, so the rejection modelled by `GetUserById` carries the
  message "400".
- The category component's `onSubmit` does not check whether the form is
  valid. With nothing selected it interpolates `null` and asks for the
  category "null" (`Submit`, `SubmitWithNothingSelected`).
- No code assigns `selectedCategory`, so it stays `''`. `OnReport` and the
  other handlers leave it unchanged.
- `POST` reads the clock twice, so `createdAt` and `updatedAt` are two
  separate parameters.
- The sales routes do no checking of their own. They pass `req.params`
  straight into `$match`, so an unknown region or category gives an empty
  report, not an error.
- The `'Sales Person'`/`'Total Sales'` aliasing happens in the client's
  `SalesDataComponent`, not on the server.
- The comment on `GET /categories/:category` says the data is "grouped by
  salesperson" (apre-server/src/routes/reports/sales/index.js:110). The
  pipeline groups by `$category` (line 124), which gives one row per
  category. The model follows the pipeline.

## Model

| member | source | states |
|---|---|---|
| `JsValues.Truthy` | apre-server/src/routes/users/index.js:190-193 | a value passes `if (v)` exactly when it is not one of `undefined`, `null`, `false`, `0` and `''` |
| `JsValues.Interpolate` | apre-client/src/app/reports/sales/sales-by-category/sales-by-category.component.ts:83-84 | a selected value goes into the URL unchanged; the text is "null" both with nothing selected and with the option "null" selected, so the server cannot tell them apart |
| `StringOrder.Less` | apre-server/src/routes/reports/sales/index.js:70 | the binary string order `$sort` uses on `salesperson`; its properties are the `StringOrder` lemmas below |
| `StringOrder.LessIsFirstDifference` | apre-server/src/routes/reports/sales/index.js:70 | one name sorts before another exactly when it is a proper prefix of it, or has the smaller code point where the two first differ |
| `SalesReports.SalesByRegion` | apre-server/src/routes/reports/sales/index.js:51-79 | `GET /regions/:region` runs the four stages in order; it yields at most one row per sale; its other properties are the `RegionReport` lemmas below |
| `SalesReports.SalesByCategory` | apre-server/src/routes/reports/sales/index.js:117-145 | `GET /categories/:category` runs the four stages in order; it yields at most one row per sale; its other properties are the `CategoryReport` lemmas below |
| `SalesPipeline.SumAmounts` | apre-server/src/routes/reports/sales/index.js:59 | `$sum: '$amount'` over the records; when no amount is negative, the sum is not negative either |
| `SalesPipeline.Accumulate` | apre-server/src/routes/reports/sales/index.js:57-59 | adding one record to the groups adds a group exactly when its key has none yet, and otherwise keeps the number of groups |
| `SalesPipeline.GroupBy` | apre-server/src/routes/reports/sales/index.js:56-61 | `$group` gives no more groups than there are records |
| `SalesPipeline.ProjectSalesperson` | apre-server/src/routes/reports/sales/index.js:62-68 | `$project` gives exactly one row per group |
| `SalesPipeline.ProjectCategory` | apre-server/src/routes/reports/sales/index.js:128-134 | `$project` gives exactly one row per group |
| `SalesPipeline.Match` | apre-server/src/routes/reports/sales/index.js:55 | a record is in the `$match` output exactly when it is in the input and its field equals the parameter |
| `SalesPipeline.MatchShrinks` | apre-server/src/routes/reports/sales/index.js:55 | `$match` never yields more records than it was given |
| `SalesPipeline.MatchConcat` | apre-server/src/routes/reports/sales/index.js:121 | matching distributes over concatenation, so `$match` keeps the store's order |
| `SalesPipeline.MatchIdempotent` | apre-server/src/routes/reports/sales/index.js:54-55 | applying the same `$match` twice gives the result of applying it once |
| `SalesPipeline.MatchSkipsOther` | apre-server/src/routes/reports/sales/index.js:120-121 | a record whose field differs from the parameter can be removed from any position without changing the match |
| `SalesPipeline.SumConcat` | apre-server/src/routes/reports/sales/index.js:59 | `$sum` of `amount` over a concatenation is the sum of the two parts |
| `SalesPipeline.IdsMembership` | apre-server/src/routes/reports/sales/index.js:58 | a key is among the group ids exactly when some group has that `_id` |
| `SalesPipeline.AccumulateIds` | apre-server/src/routes/reports/sales/index.js:57-58 | adding a record opens a group for its key if none exists and keeps all other keys |
| `SalesPipeline.AccumulateUnique` | apre-server/src/routes/reports/sales/index.js:58 | adding a record never creates a second group for a key |
| `SalesPipeline.AccumulateTotalFor` | apre-server/src/routes/reports/sales/index.js:59 | adding a record raises its own key's total by its amount and leaves every other key's total as it was |
| `SalesPipeline.AccumulateGrandTotal` | apre-server/src/routes/reports/sales/index.js:125 | adding a record raises the sum of all group totals by its amount |
| `SalesPipeline.GroupByUnique` | apre-server/src/routes/reports/sales/index.js:56-58 | the `$group` output has no two groups with the same `_id` |
| `SalesPipeline.GroupByIds` | apre-server/src/routes/reports/sales/index.js:123-124 | the group `_id`s are exactly the values the grouping field takes in the input |
| `SalesPipeline.GroupByTotalFor` | apre-server/src/routes/reports/sales/index.js:57-60 | the `totalSales` kept for a key is the sum of the amounts of the input records with that key |
| `SalesPipeline.GroupByGrandTotal` | apre-server/src/routes/reports/sales/index.js:122-126 | the group totals add up to the sum of all input amounts, so nothing is lost or invented |
| `SalesPipeline.TotalForMember` | apre-server/src/routes/reports/sales/index.js:56-60 | when ids are unique, a group's own `totalSales` is the total recorded for its key |
| `SalesPipeline.TotalForAbsent` | apre-server/src/routes/reports/sales/index.js:122-125 | a key that has no group has total 0 |
| `SalesPipeline.ProjectSalespersonRows` | apre-server/src/routes/reports/sales/index.js:63-67 | `$project` gives one `{salesperson, totalSales}` row per group, in the same order, with `_id` renamed to `salesperson` and the same total |
| `SalesPipeline.ProjectCategoryRows` | apre-server/src/routes/reports/sales/index.js:129-133 | `$project` gives one `{category, totalSales}` row per group, in the same order, with `_id` renamed to `category` and the same total |
| `StringOrder.LessIrreflexive` | apre-server/src/routes/reports/sales/index.js:69 | no name sorts before itself |
| `StringOrder.LessAsymmetric` | apre-server/src/routes/reports/sales/index.js:70 | two names are never each before the other |
| `StringOrder.LessTransitive` | apre-server/src/routes/reports/sales/index.js:69-71 | the name order is transitive |
| `StringOrder.LessTotal` | apre-server/src/routes/reports/sales/index.js:64-70 | of two different names, one sorts before the other |
| `StringOrder.NotLessTransitive` | apre-server/src/routes/reports/sales/index.js:68-71 | the "not after" relation is transitive |
| `SalesPipeline.InsertBySalesperson` | apre-server/src/routes/reports/sales/index.js:70-71 | inserting a row adds exactly that row to the multiset of rows |
| `SalesPipeline.SortBySalesperson` | apre-server/src/routes/reports/sales/index.js:70 | `$sort: {salesperson: 1}` returns a permutation of its input |
| `SalesPipeline.InsertBySalespersonSorted` | apre-server/src/routes/reports/sales/index.js:69-70 | inserting into rows ascending by salesperson keeps them ascending |
| `SalesPipeline.SortBySalespersonSorted` | apre-server/src/routes/reports/sales/index.js:70-72 | `$sort: {salesperson: 1}` puts any input in ascending order of salesperson |
| `SalesPipeline.InsertBySalespersonStrict` | apre-server/src/routes/reports/sales/index.js:69-71 | inserting a row with a new name into strictly ascending rows keeps them strictly ascending |
| `SalesPipeline.SortBySalespersonStrict` | apre-server/src/routes/reports/sales/index.js:62-71 | when no two rows share a name, the sorted rows are strictly ascending |
| `SalesPipeline.FirstIsLeast` | apre-server/src/routes/reports/sales/index.js:70 | in strictly ascending rows, every row other than the first sorts after the first |
| `SalesPipeline.StrictlySortedUnique` | apre-server/src/routes/reports/sales/index.js:70 | two strictly ascending orderings of the same rows are equal |
| `SalesPipeline.InsertByTotal` | apre-server/src/routes/reports/sales/index.js:136-137 | inserting a row adds exactly that row to the multiset of rows |
| `SalesPipeline.SortByTotal` | apre-server/src/routes/reports/sales/index.js:136 | `$sort: {totalSales: 1}` returns a permutation of its input |
| `SalesPipeline.InsertByTotalSorted` | apre-server/src/routes/reports/sales/index.js:135-137 | inserting into rows ascending by total keeps them ascending |
| `SalesPipeline.SortByTotalSorted` | apre-server/src/routes/reports/sales/index.js:135-138 | `$sort: {totalSales: 1}` puts any input in ascending order of total |
| `SalesPipeline.Distinct` | apre-server/src/routes/reports/sales/index.js:30 | `distinct` lists every value of the field exactly once and no other value |
| `SalesReports.DistinctRegions` | apre-server/src/routes/reports/sales/index.js:27-32 | `GET /regions` has no duplicates and holds exactly the regions present in the records |
| `SalesReports.DistinctCategories` | apre-server/src/routes/reports/sales/index.js:93-98 | `GET /categories` has no duplicates and holds exactly the categories present in the records |
| `SalesReports.RegionReportStrictlySorted` | apre-server/src/routes/reports/sales/index.js:54-72 | region rows are strictly ascending by salesperson, so no salesperson has two rows |
| `SalesReports.RegionReportRowTotals` | apre-server/src/routes/reports/sales/index.js:55-66 | each row's `totalSales` is the sum of `amount` over the records with that region and that salesperson |
| `SalesReports.RegionReportSalespeople` | apre-server/src/routes/reports/sales/index.js:54-67 | a salesperson has a row exactly when some record of the region names them |
| `SalesReports.InsertRowsTotal` | apre-server/src/routes/reports/sales/index.js:70 | inserting a row adds its total to the column total |
| `SalesReports.SortRowsTotal` | apre-server/src/routes/reports/sales/index.js:69-71 | sorting does not change the sum of `totalSales` |
| `SalesReports.ProjectRowsTotal` | apre-server/src/routes/reports/sales/index.js:62-68 | projection does not change the sum of `totalSales` |
| `SalesReports.RegionReportTotal` | apre-server/src/routes/reports/sales/index.js:54-71 | the `totalSales` column adds up to the sum of `amount` over all records of the region |
| `SalesReports.RegionReportEmpty` | apre-server/src/routes/reports/sales/index.js:51-73 | the report is empty, and not an error, exactly when no record has the region |
| `SalesReports.RegionReportIgnoresOtherRegions` | apre-server/src/routes/reports/sales/index.js:53-55 | adding or removing a record of another region, at any position, leaves the report unchanged |
| `SalesReports.RegionReportOnlyMatching` | apre-server/src/routes/reports/sales/index.js:54-56 | the report over only the region's records is the report over all records |
| `SalesReports.UniqueNamesPermutation` | apre-server/src/routes/reports/sales/index.js:57-58 | reordering rows with distinct salespeople keeps the salespeople distinct |
| `SalesReports.AtMostOnce` | apre-server/src/routes/reports/sales/index.js:58 | in rows with distinct salespeople, each row occurs once |
| `SalesReports.RegionReportIndependentOfGroupOrder` | apre-server/src/routes/reports/sales/index.js:56-71 | whatever order `$group` emits its groups in, the sorted report is the same sequence |
| `SalesReports.CategoryReportShape` | apre-server/src/routes/reports/sales/index.js:120-138 | the category report has at most one row; it is empty exactly when no record has the category; otherwise its row is `{category, totalSales}` with the summed amount |
| `SalesReports.CategoryReportSorted` | apre-server/src/routes/reports/sales/index.js:136 | category rows are ascending by `totalSales`, with no tie-break promised |
| `SalesReports.CategoryReportIgnoresOtherCategories` | apre-server/src/routes/reports/sales/index.js:121 | records of other categories, at any position, never affect the category report |
| `SalesReports.RegionReportExample` | apre-server/src/routes/reports/sales/index.js:46-73 | a north-region sale by Alice (20) and one by Bob (15) give the rows Alice 20 then Bob 15, ordered by name |
| `SalesReports.CategoryReportExample` | apre-server/src/routes/reports/sales/index.js:112-139 | accessories sales of 10 and 25 plus one electronics sale give the single row accessories 35 |
| `SalesDataView.WithAliases` | apre-client/src/app/reports/sales/sales-data/sales-data.component.ts:87-88 | after one pass of the loop body, `'Total Sales'` equals the row's `totalSales` and `'Sales Person'` its `salesperson`; the row gains exactly those two keys and every other key keeps its value |
| `SalesDataView.WithAliasesIdempotent` | apre-client/src/app/reports/sales/sales-data/sales-data.component.ts:86-89 | adding the aliases twice gives the same row as adding them once |
| `SalesDataView.SalesDataComponent.ShowsTable` | apre-client/src/app/reports/sales/sales-data/sales-data.component.ts:29 | the template shows the table exactly when `salesData` has at least one row |
| `SalesDataView.SalesDataComponent.constructor` | apre-client/src/app/reports/sales/sales-data/sales-data.component.ts:61 | `salesData` starts empty, so no table is shown |
| `SalesDataView.SalesDataComponent.OnSalesDataLoaded` | apre-client/src/app/reports/sales/sales-data/sales-data.component.ts:70-74 | the initial response becomes `salesData` as it arrived; the table shows exactly when it is non-empty |
| `SalesDataView.SalesDataComponent.OnReport` | apre-client/src/app/reports/sales/sales-data/sales-data.component.ts:84-89 | `salesData` becomes the response array itself, same rows and order, and each row is its old value with the two aliases added in place; the table (line 29) shows exactly when it is non-empty |
| `SalesDataView.ReportTwice` | apre-client/src/app/reports/sales/sales-data/sales-data.component.ts:85-89 | running the alias loop a second time over the same rows changes nothing |
| `SalesByCategoryView.ReportBody` | apre-server/src/routes/reports/sales/index.js:139 | the JSON the category route sends has one object per row, with exactly the keys `category` and `totalSales`, holding that row's values |
| `SalesByCategoryView.TotalsOf` | apre-client/src/app/reports/sales/sales-by-category/sales-by-category.component.ts:86 | the `map` result has one element per response row, and element i is row i's `totalSales` |
| `SalesByCategoryView.ChartDataOfReport` | apre-client/src/app/reports/sales/sales-by-category/sales-by-category.component.ts:84-86 | after the category report arrives, `totalSales` is the category's summed amount when some sale has that category and is empty otherwise |
| `SalesByCategoryView.SalesByCategoryComponent.constructor` | apre-client/src/app/reports/sales/sales-by-category/sales-by-category.component.ts:55-61 | the component starts with empty `totalSales`, `selectedCategory` `''`, no categories and a null control, so the form is invalid and no chart is drawn |
| `SalesByCategoryView.SalesByCategoryComponent.OnCategoriesLoaded` | apre-client/src/app/reports/sales/sales-by-category/sales-by-category.component.ts:68-71 | the categories response becomes the select's options and nothing else changes |
| `SalesByCategoryView.SalesByCategoryComponent.Select` | apre-client/src/app/reports/sales/sales-by-category/sales-by-category.component.ts:19-23 | choosing an option sets the control's value; the form is then valid exactly when that value is non-empty |
| `SalesByCategoryView.SalesByCategoryComponent.FormValid` | apre-client/src/app/reports/sales/sales-by-category/sales-by-category.component.ts:60 | `Validators.required` holds exactly when the control has a value and that value is not the empty string |
| `SalesByCategoryView.SalesByCategoryComponent.ShowsChart` | apre-client/src/app/reports/sales/sales-by-category/sales-by-category.component.ts:30 | the template draws the chart exactly when `totalSales` has at least one element |
| `SalesByCategoryView.SalesByCategoryComponent.Submit` | apre-client/src/app/reports/sales/sales-by-category/sales-by-category.component.ts:83-84 | the path segment after `categories/` is the selected value as text, unencoded, or "null" when nothing is selected |
| `SalesByCategoryView.SalesByCategoryComponent.OnReport` | apre-client/src/app/reports/sales/sales-by-category/sales-by-category.component.ts:85-92 | `totalSales` becomes the rows' totals; the chart (line 30) is drawn exactly when the response is non-empty; `selectedCategory`, `categories` and the control are unchanged |
| `SalesByCategoryView.SubmitWithNothingSelected` | apre-client/src/app/reports/sales/sales-by-category/sales-by-category.component.spec.ts:34-49 | a fresh form submitted with nothing selected is still invalid |
| `UsersRoutes.GetUserById` | apre-server/src/routes/users/index.js:90-105 | an id that fails the objectid check is rejected with no store command; a valid id leads to `findOne` on exactly that id |
| `UsersRoutes.UpdateFieldsForUnique` | apre-server/src/routes/users/index.js:187-195 | the description of `updateFields` fixes the document completely: a body, a hash and a time allow only one document |
| `UsersRoutes.BuildUpdateFields` | apre-server/src/routes/users/index.js:187-195 | building fails exactly when `password` is truthy but not a string, which bcrypt refuses; otherwise `username`, `role` and `email` are present exactly when the request value is truthy, and then carry that value; `passwordHash` is present exactly when `password` is truthy, and then is its hash; `updatedAt` is always the given time; no other key appears, plaintext `password` included |
| `UsersRoutes.IdResponse` | apre-server/src/routes/users/index.js:203-205 | the answer of `PUT` and `DELETE` is an object with the single key `id`, holding the id from the path |
| `UsersRoutes.UpdateUser` | apre-server/src/routes/users/index.js:184-206 | `PUT` fails with no command and no response exactly when bcrypt refuses the password or the driver rejects the id, and the password failure comes first; otherwise it issues `updateOne` on that id whose `$set` document is exactly `updateFields` as described (so no plaintext `password`), and answers `{id}` with the same id |
| `UsersRoutes.DeleteUser` | apre-server/src/routes/users/index.js:229-238 | `DELETE` fails with no command and no response exactly when the driver rejects the id; otherwise it issues `deleteOne` on that id and answers `{id}` with the same id |
| `UsersRoutes.CreateUser` | apre-server/src/routes/users/index.js:138-153 | `POST` replaces the submitted `passwordHash` with its hash and sets `createdAt` and `updatedAt`; every other field is unchanged; it inserts the changed user; a body without `user` fails before the insert, and so does a `passwordHash` that is not a string, missing included, which bcrypt refuses before anything is changed |

## Left out

- Express routing, the `mongo(...)` connection wrapper, `async`/`await`,
  `try`/`catch` and forwarding errors through `next`. These are I/O
  plumbing. The `sales` collection is an input sequence, and a user route
  returns the command it would send to the `users` collection.
- MongoDB behaviour beyond the stages written out. Amounts are integers.
  `$sum` over missing, non-numeric or floating-point `amount` values is not
  modelled, and neither are documents that lack a grouping field.
- `JsValues.Value` has no object, array or fractional-number case. A
  request field or row value of those kinds cannot be represented. In
  JavaScript `{}`, `[]` and `0.5` are truthy, and `PUT` would store them
  as given. The model covers only `undefined`, `null`, booleans, integers
  and strings.
- `UsersRoutes.UpdateUser`, `UsersRoutes.DeleteUser` and
  `UsersRoutes.GetUserById` share one parameter, `isValidObjectId`. It
  stands for `ObjectId.isValid` and also for whether the `ObjectId`
  constructor accepts the id. The model assumes the driver's check and its
  constructor agree.
- The order of `distinct` results. The store promises none. `Distinct`
  happens to list values by first occurrence, but its contract and the
  contracts of `DistinctRegions` and `DistinctCategories` state no order.
- `SalesPipeline.SortByTotal`: rows with equal totals come in no promised
  order. The contract states only sortedness and permutation, as the store
  does.
- bcrypt, the clock and `ObjectId.isValid` are parameters. bcrypt salts
  each call at random, so `hash` stands for whatever value that one call
  returns. bcrypt's refusal of a value that is not a string is modelled as
  a failure in `BuildUpdateFields`/`UpdateUser` (`password`) and in
  `CreateUser` (`passwordHash`). The error bcrypt raises is not modelled
  beyond that.
- `GET /users`, which lists the collection with no logic of its own.
- The `insertedId` that `POST` sends back. It comes from the store.
- The `user` object of `POST` may be missing. `CreateUser` models that case
  as a failure, and likewise a `passwordHash` that bcrypt refuses. Other malformed bodies are not modelled, for example a
  request with no body for `PUT`.
- `SalesByCategoryComponent.Submit`: URL encoding is not modelled, and
  neither is how Express matches and decodes the path. The model promises
  only the text that goes after `categories/`, not that the server's
  `req.params.category` equals it. Categories with these characters do not
  arrive intact:
  - `/` gives a path that no route matches;
  - `?` or `#` cuts the category off at that character;
  - a bare `%` makes the decode fail with status 400;
  - the empty option asks for `/categories/`, which the `distinct` route
    answers, so `totalSales` fills with `undefined`.
- Angular's HTTP subscriptions, templates, change detection
  (`markForCheck`/`detectChanges`) and console logging. The template
  conditions appear only as the predicates `ShowsTable` and `ShowsChart`.
- Form-library internals. `Validators.required` is modelled as "the value
  is a non-empty string".
- The sales-data component's form control and the request `onSubmit`
  sends. No server code for the sales-data endpoint appears here, so the
  model covers only how the response is handled.
- Aliasing between row objects: `salesData` holds rows as map values in an
  array. If one object appeared twice in a response, JavaScript would
  update it twice. The result is the same because adding the aliases is
  idempotent.
- The call-duration report component. Only its UI test file exists, and
  there is no server code for it, so its date-range checks cannot be
  modelled from source.
