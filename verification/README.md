# Social Network Visualizer — a Dafny model

The Social Network Visualizer keeps a list of personal contacts. Each contact has a type, a relationship status, notes, an optional location and a list of other contacts' ids. It draws those people as a network map.

- **Backend.** A C# minimal API serves the contacts from a SQLite table that is reset to eight seed rows at every start.
- **Frontend.** A React page lists the contacts, filters them by status and type, and edits them in a dialog. It draws the filtered list as a graph: one node per person, and one directed edge per id in that person's connections list.

The model is a set of pure functions over immutable datatypes:

| file | module | what it models |
|---|---|---|
| `nullable.dfy` | `Nullable` | `Option`, for C# nullable strings and optional TypeScript fields |
| `people.dfy` | `People` | the `Person` record, the status and type strings, C#'s `??` and JavaScript's `\|\|` on optional strings |
| `person_store.dfy` | `PersonStore` | the seven HTTP handlers as transitions on a table `map<int, Person>` plus the autoincrement counter |
| `seed.dfy` | `Seed` | the `HasData` rows and the startup reset |
| `int_array_json.dfy` | `IntArrayJson` | a parser and a formatter for JSON integer arrays, with their round trip |
| `connection_graph.dfy` | `ConnectionGraph` | `getNodeColor`, the grid layout of nodes, edge derivation from the connections text |
| `person_form.dfy` | `PersonForm` | the dialog's default form, its prefill from a person, the submit guard |
| `people_view.dfy` | `PeopleView` | the status/type filter feeding the map, the create-or-update save dispatch, client/backend round trips |
| `seed_scenarios.dfy` | `SeedScenarios` | concrete facts about the state right after startup |

How the model handles the parts it cannot see:

- **`JSON.parse`.** The map component's call is a parameter `parse: string -> Parsed`, with `Parsed = Fail | Ok(seq<int>)`. Every graph property holds for any parser.
- **Seed scenarios.** These use the reference parser `IntArrayJson.ParseIntArray`. It accepts JSON arrays whose elements are integer literals written without fraction or exponent, and on those it yields the list `JSON.parse` yields. It reads back every list written by `JSON.stringify` (`IntArrayJson.ParseFormatRoundTrip`); other texts `JSON.parse` accepts may be refused.
- **Server clock.** `MetSince` is an opaque `Timestamp`. The clock reading is a parameter: `now` for a create, `startup` for the seed.
- **Autoincrement key.** It is the `nextId` field of the store: one past every key ever handed out, deleted rows included.

Two behaviours of the handlers shape the model:

- **No validation.** The handlers validate no field: there is no 400 branch for a missing field. A request is modelled as a record whose required strings are present. The only name/notes check is the dialog's submit guard.
- **Listing order.** The listing query has no ordering clause. `GetAll` lists rows in ascending id order. Ids only grow, so this is also insertion order. It is the order SQLite returns for a plain table scan, but the source does not guarantee it.

## Model

| member | source | states |
|---|---|---|
| PersonStore.GetAll | backend/DataCenterAPI/Program.cs:36-39 | the listing holds every stored row exactly once and nothing else, one entry per row, in ascending id order |
| PersonStore.GetById | backend/DataCenterAPI/Program.cs:42-46 | the reply is Ok with the stored row exactly when the id is present, NotFound otherwise |
| PersonStore.Create | backend/DataCenterAPI/Program.cs:49-66 | adds exactly one row under an id that was never handed out; all other rows are unchanged; the fields come from the request; MetSince is the current clock; missing connections become "[]"; the reply is Created with the new row |
| PersonStore.Update | backend/DataCenterAPI/Program.cs:69-84 | an absent id gives NotFound and no change; otherwise only that row is replaced; Id and MetSince are kept; the other fields come from the request, with missing connections stored as "[]" |
| PersonStore.UpdateStatus | backend/DataCenterAPI/Program.cs:99-108 | an absent id gives NotFound and no change; otherwise the row equals the old row with only the status replaced, and no other row changes |
| PersonStore.Delete | backend/DataCenterAPI/Program.cs:87-96 | a present id is removed and the reply is NoContent; an absent id gives NotFound and no change; the id counter never moves back |
| PersonStore.GetStats | backend/DataCenterAPI/Program.cs:111-121 | total is the table size; each of the three counts is the size of the set of ids with exactly that status; the three counts together never exceed total |
| PersonStore.StatusCountIsFilter | backend/DataCenterAPI/Program.cs:116-118 | counting a status over the listing equals filtering the table by that status |
| PersonStore.DistinctStatusCountsBounded | backend/DataCenterAPI/Program.cs:116-118 | counts of three distinct statuses over any list add up to at most its length |
| PersonStore.GetAfterCreate | backend/DataCenterAPI/Program.cs:49-66 | reading back the id a create returned yields the created row |
| PersonStore.DeletedIdStaysGone | backend/DataCenterAPI/Program.cs:87-96 | after a delete the id reads as NotFound, and a later create never reuses it |
| PersonStore.DeleteTwice | backend/DataCenterAPI/Program.cs:89-90 | a second delete of the same id answers NotFound and changes nothing |
| PersonStore.StatsTotalIsListLength | backend/DataCenterAPI/Program.cs:115 | total always equals the length of the listing |
| PersonStore.UnknownStatusCountsOnlyInTotal | backend/DataCenterAPI/Program.cs:113-119 | creating a row whose status is none of the three known ones raises total by one and no status count |
| PersonStore.UpdateStatusMovesOneRow | backend/DataCenterAPI/Program.cs:101-104 | a status change moves exactly that id into the new status's set and out of every other status's set |
| Seed.SeedRow | backend/DataCenterAPI/Data/AppDbContext.cs:20-107 | the seed row at position i has id i+1 |
| Seed.SeedRows | backend/DataCenterAPI/Data/AppDbContext.cs:19-108 | there are eight seed rows with ids 1 to 8, pairwise distinct |
| Seed.Startup | backend/DataCenterAPI/Program.cs:125-130 | after startup the table holds exactly the seed rows, each under its own id, with keys 1 to 8; the state is well formed and the next id is 9 |
| IntArrayJson.ParseFormatRoundTrip | frontend/src/components/EquipmentFlow.tsx:108 | parsing the JSON text of any integer list gives back that list |
| ConnectionGraph.NodeColor | frontend/src/components/EquipmentFlow.tsx:21-32 | green, blue and orange correspond one-to-one to the three known statuses; every other string is grey |
| ConnectionGraph.GridPositionBounds | frontend/src/components/EquipmentFlow.tsx:92-95 | every node sits in one of three columns (x = 50, 270 or 490) and at or below the top margin |
| ConnectionGraph.GridIndexOfPosition | frontend/src/components/EquipmentFlow.tsx:92-95 | the input index can be recovered from the node's position |
| ConnectionGraph.GridPositionInjective | frontend/src/components/EquipmentFlow.tsx:92-95 | distinct indices are drawn at distinct positions |
| ConnectionGraph.Nodes | frontend/src/components/EquipmentFlow.tsx:88-101 | one node per person in input order, with the person's id, name and record; node i sits at grid cell i (three per row, 220 by 200 apart), so no two nodes share a position |
| ConnectionGraph.EdgesFrom | frontend/src/components/EquipmentFlow.tsx:109-117 | one edge per target, in list order, each from the source with its colour |
| ConnectionGraph.PersonEdges | frontend/src/components/EquipmentFlow.tsx:105-121 | missing or empty connections text, or a failed parse, gives no edges; otherwise exactly one edge per parsed target, in order, repeats kept, coloured by the source's status |
| ConnectionGraph.Edges | frontend/src/components/EquipmentFlow.tsx:103-124 | every person's edges, people taken in input order; the number of edges equals the total length of the successfully parsed lists |
| ConnectionGraph.EdgesOfConcat | frontend/src/components/EquipmentFlow.tsx:105-122 | the edges of a joined list are the edges of the first part followed by those of the second |
| ConnectionGraph.EdgeMembership | frontend/src/components/EquipmentFlow.tsx:103-124 | an edge is derived if and only if some person's parsed list holds its target, and it starts at that person with that person's colour |
| ConnectionGraph.EdgeSourcesAreNodes | frontend/src/components/EquipmentFlow.tsx:110-113 | every edge source is the id of a drawn node; targets are not checked |
| ConnectionGraph.RepeatedTargetRepeatsEdge | frontend/src/components/EquipmentFlow.tsx:109-117 | for any person, two equal entries at positions i < j of the parsed list give the same edge at positions i and j of that person's edges: duplicates are not removed |
| ConnectionGraph.EdgeHasLister | frontend/src/components/EquipmentFlow.tsx:109-116 | every derived edge starts at a listed person whose parsed list holds its target |
| ConnectionGraph.NoReverseEdgeAdded | frontend/src/components/EquipmentFlow.tsx:109-117 | for any listing, an edge from b to a is derived only if a person with id b lists a: an edge a to b does not add its reverse |
| PersonForm.Prefill | frontend/src/components/EquipmentDialog.tsx:31-51 | a new dialog gets the default form; editing copies the person's fields, with a missing or empty location shown as "" and missing or empty connections shown as "[]"; connections text is never empty |
| PersonForm.Submit | frontend/src/components/EquipmentDialog.tsx:144-148 | submitting is possible exactly when name and notes are both non-empty, and then the form goes to onSave unchanged |
| PersonForm.EmptyFormCannotSubmit | frontend/src/components/EquipmentDialog.tsx:42-49 | a fresh "Add New Person" form cannot be submitted |
| PersonForm.PrefilledFormSubmits | frontend/src/components/EquipmentDialog.tsx:32-40 | a dialog opened on a person can be submitted at once exactly when that person has a name and notes |
| PeopleView.FilterPeople | frontend/src/App.tsx:89-93 | a person is kept iff its status and its type each match the filter or the filter is "all"; each kept person occurs in the result exactly as often as in the input, and the result is an order-preserving subsequence of the input |
| PeopleView.FilterAllKeepsEveryone | frontend/src/App.tsx:90-91 | with both filters at "all" the list is unchanged |
| PeopleView.FilterIdempotent | frontend/src/App.tsx:89-93 | filtering twice equals filtering once |
| PeopleView.FiltersCompose | frontend/src/App.tsx:90-92 | filtering by status and then by type equals filtering by both |
| PeopleView.FilteredEdgesAreEdges | frontend/src/App.tsx:213 | every edge of the filtered map is an edge of the unfiltered map |
| PeopleView.SaveCall | frontend/src/App.tsx:63-69 | save sends an update of the selected person's id iff a person is selected, a create otherwise; the body carries every form field |
| PeopleView.Perform | backend/DataCenterAPI/Program.cs:49-84 | the backend's handling of the page's save call (`App.tsx:65-69`): a create call stores the body's fields under a fresh id, adds exactly that row and answers Created; an update call to an absent id answers NotFound and changes nothing, and to a present id answers Ok and replaces exactly that row with the body's fields, keeping its id; both keep the table well formed |
| PeopleView.SaveUneditedKeepsRow | frontend/src/components/EquipmentDialog.tsx:32-40 | opening a person and saving without edits stores the same row, with a missing location now "" and missing or empty connections now "[]" |
| PeopleView.SaveUneditedIsNoOp | frontend/src/components/EquipmentDialog.tsx:38-39 | when the person has non-empty location and connections, saving without edits leaves the table unchanged |
| PeopleView.CreatedRowReopensAsSubmitted | frontend/src/components/EquipmentDialog.tsx:33-39 | a created row, reopened in the dialog, shows the submitted form, with empty connections shown as "[]" |
| SeedScenarios.SeedConnectionsText | backend/DataCenterAPI/Data/AppDbContext.cs:29-106 | every seeded connections text is the JSON array of a concrete integer list |
| SeedScenarios.SeedConnectionsParse | backend/DataCenterAPI/Data/AppDbContext.cs:29-106 | every seeded connections text parses, and the map reads that list from it |
| SeedScenarios.SeedTargetsAreOtherSeededIds | backend/DataCenterAPI/Data/AppDbContext.cs:29-106 | every seeded connection names a seeded row, and no one lists themselves |
| SeedScenarios.StartupListing | backend/DataCenterAPI/Data/AppDbContext.cs:19-108 | right after startup the listing is the seed rows in declaration order |
| SeedScenarios.StartupStatusGroups | backend/DataCenterAPI/Data/AppDbContext.cs:19-108 | the seeded best friends are ids 1, 2 and 5, the friends 3, 4, 7 and 8, the acquaintance 6 |
| SeedScenarios.StartupStats | backend/DataCenterAPI/Program.cs:111-121 | right after startup the statistics are total 8, best friends 3, friends 4, acquaintances 1 |
| SeedScenarios.StartupEdgeCount | frontend/src/components/EquipmentFlow.tsx:103-124 | the map of the seed rows has 12 edges |
| SeedScenarios.StartupEdgesOfAlice | backend/DataCenterAPI/Data/AppDbContext.cs:29 | the map of the seed rows has the green edges 1 to 2 and 1 to 3 |
| SeedScenarios.FrankDrawsNoEdges | backend/DataCenterAPI/Data/AppDbContext.cs:84 | person 6 contributes no edges |
| SeedScenarios.AliceEdgesDrawn | frontend/src/components/EquipmentFlow.tsx:105-117 | any listing that shows Alice draws her edges to ids 2 and 3, whoever else is listed |
| SeedScenarios.DeleteLeavesDanglingEdge | backend/DataCenterAPI/Program.cs:87-96 | deleting person 3 leaves Alice's edge to id 3 in the map, with no node of id 3 |
| SeedScenarios.FilterShowsGroup | frontend/src/App.tsx:89-93 | filtering the listing to one status shows exactly that status's ids |
| SeedScenarios.BestFriendFilterShows | frontend/src/App.tsx:89-93 | filtering the seed to best friends shows ids 1, 2 and 5 |
| SeedScenarios.NoNodeForUnlisted | frontend/src/components/EquipmentFlow.tsx:89-90 | a person missing from the list has no node |
| SeedScenarios.BestFriendFilterDangles | frontend/src/App.tsx:213 | the best-friend map still derives Alice's edge to id 3, whose person is not shown |
| SeedScenarios.NotAnArrayFails | frontend/src/components/EquipmentFlow.tsx:107-108 | any text whose first non-blank character is not `[` fails to parse as a JSON array |
| SeedScenarios.NotAnArrayDrawsNoEdges | frontend/src/components/EquipmentFlow.tsx:107-120 | a person whose connections text is not an array contributes no edges, and the derivation continues with the remaining people unchanged |
| SeedScenarios.NotJsonDrawsNoEdges | frontend/src/components/EquipmentFlow.tsx:118-120 | the text "not json" yields no edges |

## Left out

- **HTTP plumbing.** Routing, CORS, OpenAPI and the status-code machinery are left out. Each reply is one of Ok, Created, NoContent or NotFound.
- **Entity Framework and SQLite.** Change tracking, transactions and the SQL are left out. The table is a map, and the autoincrement key is the `nextId` counter. Its claim is only that a new key is fresh and never reused.
- **Missing required fields.** The handlers read the required strings of a request without checking them: the four of `CreatePersonRequest` and `UpdatePersonRequest` (`Program.cs:136-152`) and the `Status` of `UpdateStatusRequest` (`Program.cs:134`), which reaches `person.Status` unchecked at `Program.cs:104`. What the JSON binder or the database does when one is missing happens outside the handlers and is not modelled.
- **Clock values.** `DateTime.UtcNow` and the seed's `AddYears` and `AddMonths` are opaque timestamps; no date arithmetic is modelled.
- **`JSON.parse`.** Its quirks are not modelled:
  - Non-integer array elements still produce edges.
  - A `null` element throws mid-loop and leaves the edges already pushed in place.
  - Numbers such as `1e2` or `1.5` are read as numbers.
  - `[1e2]` and `[1.0]` are integer arrays (`[100]` and `[1]`) under `JSON.parse` but `Fail` for the reference parser, which reads only integer literals without fraction or exponent.
  - The model's parser is an abstract parameter, and the reference parser reads only integer arrays.
- **Integer width.** Ids are unbounded integers. The 32-bit width of C# `int` and the double precision of JavaScript numbers are not modelled.
- **Edge and node ids.** Ids built from strings (`${source}-${target}`, `id.toString()`) are kept as the numbers they come from. Repeated pairs therefore stay visibly repeated rather than sharing one string id.
- **Fetch wrappers.** `services/api.ts` only turns a non-success response into a thrown error; its calls are represented by `PeopleView.ApiCall`.
- **Presentation.** React state, effects and re-fetching, ReactFlow rendering (including how it drops dangling edges), `StatsCard`, the card component's icons and colours, and `main.tsx` theming are left out. So are the page's loading and error banners.
- **Concurrency.** Concurrent requests from several clients (last writer wins) are not modelled; handlers are applied one at a time.
- **PersonStore.DeletedIdStaysGone:** requires the id to be present before the delete. For an id never handed out, a later create may legitimately receive it.
- **SeedScenarios.BestFriendFilterDangles:** states only that the edge is drawn. That person 3 is not listed is `BestFriendFilterShows`, and that an unlisted person has no node is `NoNodeForUnlisted`.
