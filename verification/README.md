# Gallery: photo naming and equality queries

The gallery scrapes project records from a portfolio API, stores them in an
embedded database, downloads each project's cover photo, and answers
`POST /q` with the first stored record for each query object. This Dafny
project models the two pieces of that program that are pure logic, both in
`main.go`:

- **Photo naming** (`getFilename`). A cover URL is split on `/` and its last
  piece names the photo. That name is stored in the record's `filename`
  field and is also the name of the file written to the photo directory.
  `GoStrings` models Go's `strings.Split` and `strings.Join` for a
  one-character separator. `Filenames` models `getFilename`, including its
  `log.Fatalf` guard, as an `Outcome`. `Ingest` models how a fetched project
  becomes a `Data` record.
- **Query answering** (`queryJSON`). Each query object becomes a list of
  equality matchers, one for each non-empty field, in the order Title,
  Description, Filename, Src (`Matchers`). The store answers with its first
  passing record (`Store`). The response holds one slot per query object
  (`Handlers`). Each slot starts as the zero record.

Two things enter the model as inputs or assumptions rather than as code:

- The store is a `seq<Data>` in its iteration order. The behaviour of
  `Select(...).First` is an assumption about the store library, whose code is
  not part of this model. The assumption is that `First` returns the
  lowest-index record passing every matcher, or reports "not found" and leaves
  the destination untouched. An empty matcher list therefore picks the first
  record.
- The JSON decoding done by the HTTP framework enters as its outcome. It is
  `None` for a malformed body and `Some(queries)` otherwise.

Strings are `seq<char>`. Go strings are bytes, but the only separator is the
ASCII `/`, so the difference does not matter here.

## Model

| member | source | states |
|---|---|---|
| GoStrings.Split | main.go:204 | `strings.Split` on `/` yields one more piece than there are slashes, so always at least one piece, and no piece contains the separator |
| GoStrings.JoinSplit | main.go:204 | joining the pieces of a split with the separator gives back the original string |
| GoStrings.SplitJoin | main.go:204 | splitting a join of one or more separator-free pieces gives back exactly those pieces |
| Filenames.GetFilename | main.go:203-208 | the `len(url) < 1` fatal branch never fires, and the returned name contains no `/` |
| Filenames.GetFilenameIsLastSegment | main.go:204-208 | the name is a suffix of the URL that is either the whole URL (when the URL has no `/`) or begins right after a `/`; when the URL has a `/`, the URL is some prefix, then `/`, then the name |
| Filenames.LastSegmentUnique | main.go:204-208 | a slash-free suffix that starts at the beginning of the URL or right after a `/` is unique, so `getFilename` returns exactly the text after the last `/` |
| Filenames.EmptyUrlEmptyName | main.go:204-208 | the empty URL names the empty file rather than reaching the fatal branch |
| Filenames.ExampleName | main.go:203-208 | the name of `https://cdn.example/folder/image123.png` is `image123.png` |
| Matchers.BuildMatchers | main.go:118-131 | every matcher compares a non-empty query field with its own value, there are at most four, and the fields come in the order Title, Description, Filename, Src, each at most once |
| Matchers.BuildMatchersFields | main.go:118-131 | the list holds the equality for a field if and only if that field is non-empty, and it is empty if and only if every field of the query is empty |
| Matchers.BuildMatchersMeaning | main.go:118-133 | for every record, the record passes every built matcher if and only if it equals the query on each of the query's non-empty fields |
| Store.FirstMatchIndex | main.go:133 | assumed store behaviour: the lowest index whose record passes every matcher, with no earlier record passing; none when no record passes |
| Store.SelectFirst | main.go:133 | assumed store behaviour: `First` yields the lowest-index stored record that passes every matcher, with no earlier record passing, and reports not-found exactly when no stored record passes |
| Handlers.Answer | main.go:132-134 | one slot, filled from a fresh zero record, holds the first stored record satisfying its query object, or the zero record when none does |
| Handlers.AnswersQueryUnique | main.go:132-134 | the intended answer depends only on the store and that slot's query object, so a slot never holds an earlier query's result |
| Handlers.NoMatchGivesZero | main.go:132-134 | a query object that no stored record satisfies is answered with the zero record |
| Handlers.EmptyQueryGivesFirst | main.go:118-133 | under the store assumption, a query object with every field empty is answered with the first stored record |
| Handlers.QueryJSON | main.go:108-136 | a malformed body, and only a malformed body, yields the fixed 400 message; otherwise the response has one slot per query object, and slot `i` is the intended answer to query object `i` |
| Ingest.MakeRecord | main.go:161-166 | the ingested record keeps the project's title, description and cover URL, its filename is the last segment of that URL, and its id is left for the store to assign |
| Ingest.PhotoFileName | main.go:198-199 | the name `fetchPhotos` passes to `filepath.Join` is the last segment of its URL, and it contains no `/` |
| Ingest.RecordNamesItsPhoto | main.go:161-166 | a record's filename is the name its photo is written under, so the database entry and the photo file agree |

## Left out

- Network access in `fetchData` and `fetchPhotos` is left out. This covers the HTTP requests, JSON decoding of the responses, the 3-second dial timeout and the fixed 10-page loop. All of it is I/O with nothing pure to state.
- The file written by `fetchPhotos` is left out, and so is the `filepath.Join` path handling that places it in `./photos`. Only the file name is modelled.
- Ingest.PhotoFileName: does not promise that the photo lands directly in `./photos`. `filepath.Join` cleans the names empty, `.` and `..`, which come from the URLs "", "." and ".." and from URLs ending in `/`, `/.` or `/..`. On Windows, which the program supports, `filepath.Join` also treats `\` as a separator, and a `\` stays inside the modelled name.
- The fire-and-forget goroutines (`go fetchPhotos`, `go db.Save`) are left out. They are unsynchronised concurrency with no ordering to state.
- Handlers.QueryJSON: treats the store as unchanged for the whole request. In the program, saves started by ingestion are not awaited before the server starts, so they can still land while a request is answered, and two slots of one response can then see different store contents.
- The store's own behaviour is assumed, not verified. This covers auto-increment ids, `db.All`, the order of `Select(...).First` and its indexes, because the library's code is not part of this model. The `Store` functions state the assumption.
- The `GET /` handler `queryFull` and its `results.json` write are left out. They are a full-table dump followed by file I/O.
- JSON decoding by the HTTP framework enters `Handlers.QueryJSON` only as its outcome. Routing, static serving of `/imgs` and the serialisation of responses are framework code.
- `openUrl` is left out. It launches operating-system processes.
- Runtime faults that depend on the shape of upstream JSON are left out. These are the unchecked `projList.Projects[0]` and the `.(string)` assertion on `covers["original"]`. `Ingest.ProjectParsed` assumes the cover URL is a string.
