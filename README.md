# Work-order query and projection model

A Dafny model of the read-only work-order ("munkalap") endpoints of a
plumbing-service API, and proofs about them. The service keeps work orders,
each joined to a location ("hely": town and street) and a technician
("szerelo": name). It offers four queries:

- list all (`GetMunkalapok`);
- get by id (`GetMunkalap`);
- search by location id and technician id (`KeresMunkalapok`);
- list by repair year (`GetMunkalapokByEv`).

Every query projects the rows it keeps, in the same way, to the client view
`MunkalapDto`. The view holds the work-order id and both dates as midnight
timestamps. It also holds the display string `"<town>, <street>"`, the
technician's name, the labour hours and the material cost.

Files and modules:

- `DateConverter.dfy` (module `Converters`): `DateOnly` as a subset type of
  valid Gregorian days (years 1 to 9999), `DateTime` as a timestamp, and
  `DateOnlyToDateTime`.
- `Linq.dfy` (module `Linq`): the query operators `Where`, `Select` and
  `FirstOrDefault`. `Where` is specified by `IsFilterOf`: the result is an
  order-preserving subsequence that keeps every matching row exactly as often
  as it is stored and drops every other row. `FilterUnique` proves that this
  specification determines the result.
- `Models.dfy` (module `Models`): the entities `Hely`, `Szerelo`, `Munkalap`,
  the search request `MunkalapKeresesDto` and the view `MunkalapDto`. It also
  has the primary-key predicate `UniqueIds` and the join predicate
  `JoinsResolved`.
- `MunkalapokController.dfy` (module `MunkalapokController`): the projection
  `ToDto` and the four endpoints. Each endpoint returns a
  `Response` = `Ok(value)` | `NotFound(id)` | `BadRequest`.
  `HasId`, `MatchesSearch` and `RepairedIn` are the `Where` conditions at
  MunkalapokController.cs:75, :122 and :158. The contracts of `GetMunkalap`,
  `KeresMunkalapok` and `GetMunkalapokByEv` state each one in full.

The table is a `seq<Munkalap>` passed to each endpoint as a value. Every
endpoint is a function, so no call can change the stored rows.

Get-by-id takes the first matching row (`FirstOrDefault`). `GetMunkalap`
returns that row's view. `GetMunkalapOfStoredId` proves that this row is the
only match when `id` is the primary key.

## Model

| member | source | states |
|---|---|---|
| Converters.DateOnlyToDateTime | Vizvezetek.API/Converters/DateConverter.cs:8-11 | For every valid date the result is a valid timestamp. It has the same year, month and day as the input, and its time is 00:00:00.000. |
| Converters.DateOfDateOnlyToDateTime | Vizvezetek.API/Converters/DateConverter.cs:10 | Taking the calendar day of the converted timestamp gives back the input date. Nothing of the date is lost. |
| Converters.DateOnlyToDateTimeOfMidnight | Vizvezetek.API/Converters/DateConverter.cs:10 | Every valid midnight timestamp is the conversion of its own day. So the conversion is onto the midnight timestamps. |
| Converters.DateOnlyToDateTimeInjective | Vizvezetek.API/Converters/DateConverter.cs:8-11 | Two dates convert to the same timestamp if and only if they are equal. |
| Linq.Where | Vizvezetek.API/Controllers/MunkalapokController.cs:122 | The result is a subsequence of the input in the input's order. Each element satisfying the condition occurs as often as in the input, and no other element occurs. An element is in the result if and only if it is in the input and satisfies the condition. |
| Linq.Select | Vizvezetek.API/Controllers/MunkalapokController.cs:39-48 | The result has one element per input element, at the same position, and that element is the projection of the input element. |
| Linq.FirstOrDefault | Vizvezetek.API/Controllers/MunkalapokController.cs:86 | The result is None exactly for an empty sequence. Otherwise it holds the first element. |
| Linq.WhereHeadIsFirstMatch | Vizvezetek.API/Controllers/MunkalapokController.cs:75-86 | If the filtered sequence is non-empty, its first element is the input element at the lowest index that satisfies the condition. |
| Linq.FilterUnique | Vizvezetek.API/Controllers/MunkalapokController.cs:119-133 | The filter specification has only one solution. Two sequences that are both order-preserving, exact filters of the same input are equal. |
| Linq.SelectPreservesSubsequence | Vizvezetek.API/Controllers/MunkalapokController.cs:155-169 | Projecting a subsequence gives a subsequence of the projected whole. So filtering before projecting keeps storage order. |
| Linq.SelectWhereMembership | Vizvezetek.API/Controllers/MunkalapokController.cs:119-133 | A view is in the projected filter result if and only if it is the projection of some stored row that satisfies the condition. |
| MunkalapokController.Helyszin | Vizvezetek.API/Controllers/MunkalapokController.cs:44 | The display string is the town, then ", ", then the street. Its length is the sum of the three, so nothing else is added. |
| MunkalapokController.ToDto | Vizvezetek.API/Controllers/MunkalapokController.cs:39-48 | The view copies the id, the technician's name, the labour hours and the material cost unchanged. Its display string is the location's `Helyszin`. Each date becomes a midnight timestamp whose calendar day is the stored date. |
| MunkalapokController.FilteredViews | Vizvezetek.API/Controllers/MunkalapokController.cs:119-133 | The result is the projection of the exact, order-preserving filter of the table. A view is in it if and only if it comes from a matching row. It is a subsequence of the list-all result and no longer than the table. |
| MunkalapokController.GetMunkalapok | Vizvezetek.API/Controllers/MunkalapokController.cs:36-51 | The result is always a success. It has exactly one view per stored row, and the view at index i projects row i. An empty table gives an empty list. |
| MunkalapokController.GetMunkalap | Vizvezetek.API/Controllers/MunkalapokController.cs:72-93 | The result is either Ok or NotFound carrying the requested id. It is NotFound if and only if no row has that id. Ok holds the projection of the first row with that id. |
| MunkalapokController.KeresMunkalapok | Vizvezetek.API/Controllers/MunkalapokController.cs:114-135 | The result is BadRequest if and only if the request body is missing, and it is never NotFound. Otherwise the result is the projection of exactly the rows with both the requested location id and technician id, in storage order. |
| MunkalapokController.GetMunkalapokByEv | Vizvezetek.API/Controllers/MunkalapokController.cs:155-171 | The result is always a success. It is the projection of exactly the rows whose repair date's year is `ev`, in storage order, and a subsequence of the list-all result. |
| MunkalapokController.ProjectsFilterUnique | Vizvezetek.API/Controllers/MunkalapokController.cs:119-169 | The endpoints' filter-and-project contract allows a single result, so the contracts above fix the list each endpoint returns. |
| MunkalapokController.GetMunkalapOfStoredId | Vizvezetek.API/Models/vizvezetekContext.cs:51 | When `id` is the primary key, asking for a stored row's id returns that row's view. |
| MunkalapokController.GetMunkalapIsListed | Vizvezetek.API/Controllers/MunkalapokController.cs:72-93 | A view found by id is one of the views that list-all returns. |
| MunkalapokController.KeresMunkalapokNullIgnoresStorage | Vizvezetek.API/Controllers/MunkalapokController.cs:114-117 | A missing search body gives BadRequest whatever the table holds, so the storage is not consulted. |
| MunkalapokController.KeresMunkalapokNoMatch | Vizvezetek.API/Controllers/MunkalapokController.cs:119-135 | A search that no row matches gives `Ok([])`, not an error. |
| MunkalapokController.KeresMunkalapokShowsRequestedJoins | Vizvezetek.API/Controllers/MunkalapokController.cs:119-129 | When every row's joins match its foreign keys, each search result comes from a row joined to the requested location and technician. It shows that location's display string and that technician's name. |
| MunkalapokController.GetMunkalapokByEvListsEveryDay | Vizvezetek.API/Controllers/MunkalapokController.cs:158 | Every stored work order is listed for the year of its repair date, whatever the month and day. |
| MunkalapokController.GetMunkalapokByEvOutOfRange | Vizvezetek.API/Controllers/MunkalapokController.cs:155-171 | A year outside 1..9999 gives an empty success. |
| MunkalapokController.ExampleProjection | Vizvezetek.API/Controllers/MunkalapokController.cs:39-48 | The example row (Budapest, Fő utca; Kovács János; 2023-01-10 and 2023-01-15; 3.5 hours; 12000) projects to the expected view. |
| MunkalapokController.ExampleListAll | Vizvezetek.API/Controllers/MunkalapokController.cs:36-49 | On the one-row example table, list-all gives exactly the example view. |
| MunkalapokController.ExampleGetById | Vizvezetek.API/Controllers/MunkalapokController.cs:72-91 | On the example table, id 1 gives the example view and id 999 gives NotFound(999). |
| MunkalapokController.ExampleByYear | Vizvezetek.API/Controllers/MunkalapokController.cs:155-169 | On the example table, year 2023 gives the example view and year 2022 gives an empty list. |
| MunkalapokController.ExampleSearch | Vizvezetek.API/Controllers/MunkalapokController.cs:119-133 | On the example table, location 1 with technician 1 gives the example view, and technician 2 gives an empty list. |

## Left out

- The `catch (Exception ex)` paths that return status 500 with the exception message are not modelled. They arise only from storage or connectivity faults, which the model cannot produce. `Response` has no storage-failure case for the same reason.
- The messages of the NotFound and BadRequest responses are not modelled. `NotFound` carries only the requested id, which is the only input the message contains.
- Entity Framework is not modelled: `Include`, `ToListAsync`, `FirstOrDefaultAsync`, async execution and the translation to SQL. Rows are held already joined, and a query is a function on the sequence of rows.
- Row order: the model fixes one row order, the order of the table sequence, and every query returns rows in that order. The SQL queries have no `ORDER BY`, so the database guarantees no order, and two queries may return rows in different orders. The "in storage order" and subsequence-of-list-all clauses hold only under this single fixed order.
- The database configuration is configuration, not query logic, so it is not modelled. This covers the connection string, server version, collation, character set, delete behaviour and key generation. The primary key appears only as the `UniqueIds` precondition of `GetMunkalapOfStoredId`.
- Program.cs (dependency injection, OpenAPI, HTTPS redirection, routing) is not part of this model. Neither are the routing attributes or the serialisation of status codes.
- `munkaora` and `anyagar` are only copied. `real` stands in for a numeric type the model does not fix, and their numeric semantics are not modelled. The other field types (integer ids, text, `DateOnly` dates) follow their use in the controller.
- Null navigation properties and a null foreign key are not modelled. Every row carries its location and technician. The two are tied to the foreign keys only by the `JoinsResolved` precondition of `KeresMunkalapokShowsRequestedJoins`.
- `DateTime` is not modelled beyond a valid calendar day and a time of day. There is no tick count, no `DateTimeKind` and no calendar arithmetic.
- The framework's own request-body validation is not modelled. A missing search body is an `Option` of `None`, handled by the controller's own null check.
- Ids, the requested `id` and the year `ev` are 32-bit `int` in C#; the model uses unbounded `int`. The queries only compare these values for equality and do no arithmetic on them, so no behaviour is lost.
