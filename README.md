# Chess puzzle API: request checks and import pipelines in Dafny

This project models the core of a chess-puzzle service. It covers the request checks of
the random-puzzle endpoint and the three batch scripts that fill its database from the
Lichess puzzle CSV. It then proves properties of the model.

- **`RandomRoute`**: `GET /api/v1/random`. It checks the API key, parses and bounds-checks
  the optional `ratingMin`/`ratingMax` parameters, enforces min ≤ max, and splits, trims and
  caps the comma-separated `themes` list. The result is an error response (500, 401 or
  400 with its message) or the `where` filter for the database query. `Decide` is the
  reference definition. `Get` is the handler as written: early returns, with the rating
  condition (built by `BuildRatingCondition`) and the filter filled in one field at a time.
  It is proved equal to `Decide`.
- **`ImportPuzzles`**: `scripts/importPuzzles.ts`. It filters and normalises each row,
  batches records 1000 at a time, keeps a running counter and flushes what is left at the
  end. Each batch is written with `createMany({ skipDuplicates: true })`, modelled as
  insert-or-skip on a table keyed by fen.
- **`ConnectThemes`**: `scripts/connectThemes.ts`. It filters and splits each row,
  batches records 500 at a time and keeps `totalProcessed`. Per batch, `processBatch`
  looks up puzzles by fen and themes by slug, builds one connect operation per record
  that resolves, and applies them all in one all-or-nothing transaction.
- **`ImportThemes`**: `scripts/importThemes.ts`. It builds the vocabulary (a
  JavaScript `Set` of all space-split tokens, in insertion order) and derives a display
  name from each slug. Seeding is upsert-if-absent into the catalogue.
- **Shared modules.** `JsStrings` holds the JavaScript string semantics the code relies
  on:
  - truthiness of `string | undefined`;
  - ECMAScript whitespace, `trim`, `split` on one character and `join`;
  - `parseInt(s, 10)`, with `None` standing for `NaN`;
  - `.filter(Boolean)`.

  `Batching` holds the batcher's chunking of a record stream. `CsvRows` holds the decoded
  CSV row, whose fields may be missing.

The scripts' `main` functions keep mutable state: the pending batch, the counters, the
`Set`, and the database behind the Prisma client. Each is modelled as a class with
methods whose loops carry invariants. The database is a map field, and a ghost log
records the calls the script makes. Every method is specified by a function of the
inputs, and the properties are proved about those functions.

## Model

| member | source | states |
|---|---|---|
| RandomRoute.Get | src/app/api/v1/random/route.ts:9-111 | The handler with its early returns and field-by-field filter building gives exactly the response `Decide` specifies, for every request |
| RandomRoute.BuildRatingCondition | src/app/api/v1/random/route.ts:34-81 | The rating block with its early returns and field-by-field `ratingCondition` gives exactly the result `CheckRatings` specifies: the first failing check's message, or the checked bounds |
| RandomRoute.UnconfiguredIs500 | src/app/api/v1/random/route.ts:10-16 | With `API_KEY` missing or empty, the answer is 500 "Server configuration error", whatever the header and query |
| RandomRoute.WrongKeyIs401 | src/app/api/v1/random/route.ts:18-25 | With a key configured, a 401 "Unauthorized" comes exactly when the header is missing or differs from the key. Changing any query parameter then leaves it a 401 |
| RandomRoute.EmptyParamIsAbsent | src/app/api/v1/random/route.ts:36-87 | An empty `ratingMin`, `ratingMax` or `themes` parameter gives the same response as an absent one |
| RandomRoute.BadRatingIs400 | src/app/api/v1/random/route.ts:36-71 | A `ratingMin` whose `parseInt` is NaN gives the "must be a number" 400, and one outside [0, 5000] gives the "must be between 0 and 5000" 400. A bad `ratingMax` also gives a 400 |
| RandomRoute.RatingBoundInRange | src/app/api/v1/random/route.ts:46-51 | A rating parameter that passes its checks lies within [0, 5000] |
| RandomRoute.CheckRatingsSpec | src/app/api/v1/random/route.ts:36-81 | Accepted bounds are `parseInt` of the given non-empty parameters and absent otherwise. Each lies within [0, 5000], and gte ≤ lte when both are present |
| RandomRoute.BoundsOrdered | src/app/api/v1/random/route.ts:73-78 | In an accepted filter every bound is within [0, 5000] and gte ≤ lte. This holds also when ratingMin is 0 and the comparison is skipped. A valid ratingMax below a valid ratingMin gives the "greater than or equal" 400 |
| RandomRoute.RatingConditionIff | src/app/api/v1/random/route.ts:53-85 | An accepted filter has a rating condition exactly when a non-empty rating parameter was given, and its bounds are then the parsed parameters |
| RandomRoute.ErrorOrder | src/app/api/v1/random/route.ts:36-98 | A ratingMin error is reported whatever ratingMax and themes are. A ratingMax or ordering error is reported whatever themes are |
| RandomRoute.ThemeClauses | src/app/api/v1/random/route.ts:87-110 | With valid ratings, more than 10 listed themes (duplicates counted) exactly gives the "Too many themes" 400. Otherwise the AND list is the listed themes in order, or absent when there are none |
| RandomRoute.ThemeSlugsTrimmed | src/app/api/v1/random/route.ts:88-91 | Every listed theme is non-empty and has no surrounding whitespace |
| RandomRoute.ThemeSlugsJoin | src/app/api/v1/random/route.ts:88-91 | Trimmed, comma-free, non-empty slugs joined with commas are read back one for one, in order |
| RandomRoute.TrimAll | src/app/api/v1/random/route.ts:90 | Trimming the split pieces keeps their number and trims each piece in place |
| JsStrings.Trim | src/app/api/v1/random/route.ts:90 | `trim` returns a slice of the input with no whitespace at either end, and everything outside the slice is whitespace |
| JsStrings.TrimIdempotent | src/app/api/v1/random/route.ts:90 | Trimming twice is trimming once |
| JsStrings.DropEmpty | src/app/api/v1/random/route.ts:91 | `.filter(Boolean)` keeps exactly the non-empty strings and no empty one |
| JsStrings.DropEmptyAppend | src/app/api/v1/random/route.ts:91 | `.filter(Boolean)` keeps order: filtering two parts one after the other gives the two filtered parts in order |
| JsStrings.DropEmptyMultiset | src/app/api/v1/random/route.ts:91 | `.filter(Boolean)` keeps duplicates: every non-empty string occurs as often as before, the empty string not at all |
| JsStrings.Split | scripts/connectThemes.ts:86 | `split` on a character yields at least one piece, and no piece contains the separator |
| JsStrings.JoinSplit | scripts/importPuzzles.ts:51 | Joining the pieces of a split with the separator gives the original string back |
| JsStrings.SplitJoin | scripts/connectThemes.ts:86 | Splitting separator-free pieces joined by the separator gives the pieces back |
| JsStrings.ParseIntDecimal | src/app/api/v1/random/route.ts:37 | `parseInt` of an integer's decimal form, followed by anything not starting with a digit, is that integer |
| JsStrings.ParseIntSkipsWhitespace | src/app/api/v1/random/route.ts:37 | Leading whitespace does not change what `parseInt` returns |
| JsStrings.ParseIntNoDigits | src/app/api/v1/random/route.ts:39 | A string without digits parses to NaN |
| Batching.FlattenChunks | scripts/importPuzzles.ts:54-62 | Batching loses, duplicates and reorders no record: the batches laid end to end are the input |
| Batching.ChunkSizes | scripts/importPuzzles.ts:58 | K records in batches of C form K / C full batches, then one batch of K % C records exactly when K % C > 0. No batch is empty |
| Batching.ChunksOfFlushed | scripts/importPuzzles.ts:74-77 | Full batches already sent, plus a short pending batch flushed only if non-empty, give exactly the chunking of all records seen |
| ImportPuzzles.Normalize | scripts/importPuzzles.ts:45-53 | A row is kept exactly when FEN, Moves and Rating are non-empty. Its moves join back to Moves, no move contains a space, and its rating is `parseInt` of Rating |
| ImportPuzzles.Accepted | scripts/importPuzzles.ts:45-47 | No more records than rows are produced |
| ImportPuzzles.AcceptedMembers | scripts/importPuzzles.ts:44-53 | A record is collected exactly when some row normalizes to it |
| ImportPuzzles.AcceptedAppend | scripts/importPuzzles.ts:44-53 | Rows are handled in order and independently: the records of two parts of the input are the records of each part, in order |
| ImportPuzzles.CreateManySpec | scripts/importPuzzles.ts:59 | Insert-or-skip: afterwards every fen of the batch is stored and stored records are unchanged. Each new record comes from the batch under its own fen |
| ImportPuzzles.CreateManyConcat | scripts/importPuzzles.ts:59-75 | Writing two batches in turn stores what writing both as one batch would |
| ImportPuzzles.CreateManyStored | scripts/importPuzzles.ts:59 | A batch whose fens are all stored changes nothing |
| ImportPuzzles.ImportStoresAll | scripts/importPuzzles.ts:21-77 | After a run the table holds exactly the old fens plus every accepted fen, and old records are untouched |
| ImportPuzzles.ImportIdempotent | scripts/importPuzzles.ts:21-77 | Importing the same rows a second time leaves the table as it is |
| ImportPuzzles.PuzzleImport.CreateManySkipDuplicates | scripts/importPuzzles.ts:59 | One `createMany` call applies insert-or-skip to the table and is logged |
| ImportPuzzles.PuzzleImport.AddRow | scripts/importPuzzles.ts:44-62 | A malformed row changes nothing. An accepted record is pushed and counted, and a batch reaching 1000 is sent and emptied. The pending batch stays below 1000 |
| ImportPuzzles.PuzzleImport.FlushRemaining | scripts/importPuzzles.ts:74-77 | The final `createMany` is sent only when records are pending, and with exactly those records |
| ImportPuzzles.PuzzleImport.Run | scripts/importPuzzles.ts:21-77 | The calls made are exactly the chunks of the accepted records. `counter` ends as their number, and the table ends as `Import` describes |
| ConnectThemes.Normalize | scripts/connectThemes.ts:82-87 | A row is kept exactly when FEN and Themes are non-empty. Its slugs are the non-empty, space-free pieces of Themes split on spaces, and no others, each as often as it occurs there |
| ConnectThemes.OnlySpacesGivesNoSlugs | scripts/connectThemes.ts:86 | A Themes value of only spaces is accepted with no slugs |
| ConnectThemes.ThemesRoundTrip | scripts/connectThemes.ts:86 | Non-empty, space-free slugs joined with spaces are read back one for one, in order |
| ConnectThemes.Accepted | scripts/connectThemes.ts:82 | No more records than rows are produced |
| ConnectThemes.AcceptedMembers | scripts/connectThemes.ts:82-87 | A record is collected exactly when some row normalizes to it |
| ConnectThemes.AcceptedAppend | scripts/connectThemes.ts:82-87 | Rows are handled in order and independently: the records of two parts of the stream are the records of each part, in order |
| ConnectThemes.FenLookup | scripts/connectThemes.ts:18-28 | The fen lookup holds exactly the stored puzzles whose fen occurs in the batch, with their ids |
| ConnectThemes.SlugLookup | scripts/connectThemes.ts:16-29 | The slug lookup holds exactly the stored themes whose slug occurs in some record of the batch (the set union), with their ids |
| ConnectThemes.ResolveSlugs | scripts/connectThemes.ts:41-43 | The resolved ids are exactly the looked-up ids of the record's known slugs. Unknown slugs are dropped and the list grows no longer |
| ConnectThemes.ResolveSlugsAppend | scripts/connectThemes.ts:41-43 | `map` then `filter` keeps order: the ids of two lists of slugs are the ids of each list, in order |
| ConnectThemes.PlanWellFormed | scripts/connectThemes.ts:37-57 | Every operation has a non-empty theme-id list, a resolved puzzle id and resolved theme ids, with at most one operation per record |
| ConnectThemes.PlanAppend | scripts/connectThemes.ts:37-57 | Operations appear in batch order: the plan of two pieces is the plan of the first followed by the plan of the second |
| ConnectThemes.PlanSingle | scripts/connectThemes.ts:38-56 | A record with an unknown fen, or with no known slug, contributes nothing and raises no error. Otherwise it contributes one operation with its resolved ids |
| ConnectThemes.BuildPayload | scripts/connectThemes.ts:34-57 | The payload loop builds exactly the plan for the batch |
| ConnectThemes.ApplyOpsAt | scripts/connectThemes.ts:47-55 | Connecting adds to each puzzle exactly the theme ids attached to it, and adds no puzzle |
| ConnectThemes.PlanAttached | scripts/connectThemes.ts:37-57 | The themes the plan attaches to a puzzle are the resolved slugs of all records whose fen resolves to it |
| ConnectThemes.ConsistentBatchSucceeds | scripts/connectThemes.ts:14-63 | On a store whose ids all refer to existing rows, a batch never fails and keeps that invariant. It keeps the puzzles and themes and only adds links |
| ConnectThemes.PlanApplicable | scripts/connectThemes.ts:16-57 | On a consistent store every planned operation names a stored puzzle and only stored themes, so the transaction finds every record it updates |
| ConnectThemes.BatchLinks | scripts/connectThemes.ts:14-63 | After a batch a puzzle's themes are its old ones plus exactly the known slugs of the batch's records with its fen |
| ConnectThemes.LookupAttached | scripts/connectThemes.ts:16-57 | Resolving fens and slugs through the batch's two lookup maps attaches to a puzzle the same themes as resolving them through the whole store |
| ConnectThemes.ConnectIdempotent | scripts/connectThemes.ts:70-110 | Running the same batches again over the result of a run changes nothing |
| ConnectThemes.ThemeConnector.ProcessBatch | scripts/connectThemes.ts:14-63 | The batch succeeds or fails as its specification says. On failure nothing is written (all or nothing). A transaction is logged only when the plan is non-empty |
| ConnectThemes.ThemeConnector.HandleRow | scripts/connectThemes.ts:81-95 | A skipped row changes nothing. An accepted record is pushed, and a batch reaching 500 is processed, counted into `totalProcessed` and reset |
| ConnectThemes.ThemeConnector.ConsumeRows | scripts/connectThemes.ts:81-95 | The row loop either stops at a failing batch, keeping the earlier batches' links (impossible on a consistent store), or ends with every full chunk of the accepted records sent and counted and the rest pending |
| ConnectThemes.ThemeConnector.FlushRemaining | scripts/connectThemes.ts:105-110 | The last batch is processed only when records are pending, with exactly those records, and on success they are counted and the batch emptied |
| ConnectThemes.ThemeConnector.Run | scripts/connectThemes.ts:70-110 | On a consistent store the run finishes. A finished run makes one call per chunk of the accepted records, and `totalProcessed` counts them all. A failing batch stops the run and keeps the earlier batches' links |
| ImportThemes.UpperAscii | scripts/importThemes.ts:42 | Upper-cases an ASCII small letter and leaves every other character alone |
| ImportThemes.SpaceBeforeCapitalsSpaces | scripts/importThemes.ts:42 | Inserting spaces before capitals adds no whitespace but spaces, and removing spaces undoes it |
| ImportThemes.DisplayNameSpaces | scripts/importThemes.ts:42 | For a whitespace-free slug, the name without its spaces is the slug with its first character upper-cased. The empty slug has the empty name |
| ImportThemes.DisplayNameShape | scripts/importThemes.ts:42 | For a whitespace-free slug, trimming removes only the space put before a capital in second position |
| ImportThemes.DisplayNameAdvancedPawn | scripts/importThemes.ts:42 | `advancedPawn` is named `Advanced Pawn` |
| ImportThemes.DisplayNameXRayAttack | scripts/importThemes.ts:42 | `xRayAttack` is named `XRay Attack` |
| ImportThemes.DedupSpec | scripts/importThemes.ts:24 | The JavaScript `Set` insertion order holds each token once, holds every token and nothing else, and is ordered by first occurrence |
| ImportThemes.VocabularyFailure | scripts/importThemes.ts:23 | The pass throws exactly when some row has no Themes field, and then at the first such row |
| ImportThemes.VocabularyIsDedup | scripts/importThemes.ts:22-25 | A successful pass yields the distinct tokens of all rows, in stream order |
| ImportThemes.VocabularySpec | scripts/importThemes.ts:22-25 | The vocabulary has no slug twice, holds a slug exactly when it is a token of some row, and is in first-seen order |
| ImportThemes.EmptyThemesGivesEmptySlug | scripts/importThemes.ts:23-24 | An empty Themes field puts the empty slug into the vocabulary |
| ImportThemes.SeedAllSpec | scripts/importThemes.ts:36-45 | After seeding the catalogue holds the old slugs and every seeded slug, and no other. Old names are untouched and new slugs have their derived names |
| ImportThemes.SeedIdempotent | scripts/importThemes.ts:36-45 | Seeding twice gives the same catalogue as seeding once |
| ImportThemes.ThemeSeeder.CollectThemes | scripts/importThemes.ts:22-25 | The nested loops build `Vocabulary(rows)`, or stop at the row it names as failing |
| ImportThemes.ThemeSeeder.UpsertTheme | scripts/importThemes.ts:37-44 | One upsert: an absent slug is inserted with its derived name and an existing one is left as is |
| ImportThemes.ThemeSeeder.SeedCatalog | scripts/importThemes.ts:36-45 | Every slug of `allThemes` is upserted once, in order |
| ImportThemes.ThemeSeeder.Run | scripts/importThemes.ts:9-48 | When every row has Themes, each vocabulary slug is upserted once in first-seen order. Otherwise nothing is seeded |

## Left out

- Reading the archive and the CSV: `fs`, `unzipper`, `csv-parser` and `entry.autodrain` are I/O through libraries. The input is a sequence of rows whose fields may be missing.
- importPuzzles resolves on the archive's `'finish'` event while the asynchronous entry handler may still be running. This is a concurrency race; the model runs the row loop to the end and then does the final flush.
- The Prisma client: `findMany`, `createMany`, `update`, `$transaction`, `upsert` and `$disconnect` are replaced by maps. Theme ids, puzzle ids and the order of `findMany` results are the database's business.
- The query and the random pick after the filter is built are left out; the model stops at the `where` filter. The route fetches at most 100 matching ids with `findMany` (src/app/api/v1/random/route.ts:113-117) and picks one with `Math.floor(Math.random() * length)`, which is floating-point randomness (126-127). It then loads that puzzle with `findUnique`, including its themes' slug and name (129-139).
- The responses after the filter are left out: the 404 "No puzzle found matching your criteria" when no id matches (src/app/api/v1/random/route.ts:119-124), the 404 "Could not retrieve puzzle, please try again" when the puzzle is gone (141-146), the `Cache-Control` header on success (148-152) and the 500 "Internal server error" for any thrown error (160-171). They depend on the database and the clock.
- The other routes are not part of this model: cron, daily, themes, puzzle by id, hint and solve.
- Console logging and process exit codes are left out. A failure in a script is the method returning `false` and stopping.
- ImportThemes.UpperAscii: models `toUpperCase` for ASCII letters only. Other characters stay as they are, although JavaScript maps some of them, sometimes to several characters.
- ImportPuzzles.Normalize: the rating is `parseInt` as an unbounded integer. JavaScript rounds integers beyond 2^53 (or gives Infinity). A value over 5000 stays over 5000 after rounding, so the route's [0, 5000] checks reject it either way. A NaN rating is kept as `None`; what the database does with it is left out.
- ImportPuzzles.CreateManySpec: within one batch the first record with a given fen wins. The database's choice among duplicates inside a single `createMany` is not documented.
- ImportPuzzles.PuzzleImport.Run: every `createMany` call succeeds. A database error would reject `main` and exit the process.
- ImportThemes.ThemeSeeder.Run: every `upsert` succeeds. In the script a failing `upsert` (scripts/importThemes.ts:37) rejects `main`, is caught by `.catch(console.error)` (scripts/importThemes.ts:51) and stops the seeding after the themes already written.
- ConnectThemes.ThemeConnector.HandleRow: the pending batch is promised below 500 records only when its batch succeeds; after a failure the run stops.
- ConnectThemes.Transaction: a failed transaction is modelled as any operation naming a missing puzzle or theme. Other database errors are left out.
- `scripts/connectThemes.ts` skips a record when `fenToIdMap.get` gives a falsy id. Puzzle ids are never empty, so the model tests only whether the fen was found.
