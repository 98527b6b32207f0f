# dynamo-signalk storage backend: request-handling core in Dafny

The storage backend of the DYNAMO network (a Flask service over a SignalK
position database) has four pieces of real logic in `app/routes.py`. This
project models them as pure functions over immutable data and proves what
each one promises.

- **Identity enrollment** (`POST /upload/publickey/<self_id>`), module `Identity`.
  - The credential allow-list `authenticate`.
  - The normalisation of a vessel identifier to the `vessels.` form.
  - The key-file path `os.path.join(root, id + "-public.pem")`.
  - The overwrite of that file. The file system is a `map` from path to content. A `key` that is not a JSON string leaves the file emptied, because the file is opened for writing before the write raises.
- **Time-window resolution** (`GET /position/<self_id>`), modules `TimeWindow`, `Timestamp` and `PyInt`.
  - The five optional query parameters `start`, `end`, `hours`, `minutes` and `seconds` become either a closed range of instants or the fifteen-minute look-back.
  - The look-back is what the handler falls back to whenever no branch applies or something inside the `try` block raises.
  - Timestamps follow `%Y%m%dZ%H%M%S`. They are counted in whole seconds on Python's proleptic Gregorian ordinal scale.
  - Durations follow Python's `int(x or 0)`.
- **Trajectory document** (`GET /position/<self_id>`), module `Trajectory`.
  - The rows of the normalised vessel inside the window, ascending by timestamp.
  - Rendered as a GPX document: one `trk`, one `trkseg`, and one `trkpt` per row. Each point takes `lat` from column 5, `lon` from column 4 and `time` from column 1.
- **Latest positions** (`GET /lastPosition`), module `LatestPosition`.
  - Each row of the query becomes a record.
  - Its `id` is `context.split(":")[-1]`.

Module `Store` models how a query's rows reach a handler. The cursor either delivers every row or fails after some number of them. In both read handlers a failure of `execute` or of the iteration is caught and logged, and the output built so far is still returned.

Inputs that the handlers take from their environment are parameters of the model:
- the store contents, as a `seq` of rows;
- the database clock `NOW()`, as `now` in seconds;
- the key root directory;
- the file system;
- the HTTP Basic credentials.

Where the handlers behave in ways a reader might not expect, the model follows the code:
- **Branch choice.** The branch is chosen by which parameters are present, not by which ones parse. With both `start` and `end` present and one of them unreadable, the look-back is used and the duration parameters are not consulted.
- **Look-back window.** The look-back is `timestamp >= NOW() - 15 minutes` with no upper bound, so rows stamped after `now` are kept.
- **Negative durations.** `int("-3")` succeeds, so negative durations are not clamped to zero. They can produce a window whose end precedes its start, and such a window selects nothing.
- **Store failures.** A store failure part-way through the cursor returns the points and records appended before it, not an empty result.

## Model

| member | source | states |
|---|---|---|
| Identity.Normalize | app/routes.py:104-107 | The result always starts with `vessels.` and ends with the given identifier. It is either the identifier itself or the identifier with the prefix added in front. |
| Identity.NormalizeIdempotent | app/routes.py:104-107 | Normalising an already normalised identifier returns it unchanged. |
| Identity.NormalizeBareAndPrefixed | app/routes.py:155-157 | An identifier carrying the prefix is returned unchanged. A bare identifier normalises to the same string as its prefixed form. |
| Identity.KeyFileName | app/routes.py:110 | The key-file name never starts with `/`, so `os.path.join` never discards the key root. |
| Identity.KeyFilePath | app/routes.py:110 | The key-file path is the key root, a `/` unless the root is empty or already ends in one, then the normalised identifier followed by `-public.pem`. So it starts with the root and ends with that file name. |
| Identity.JoinPathInjective | app/routes.py:110 | Under a fixed root, two relative names that join to the same path are the same name. |
| Identity.KeyFilePathsDistinct | app/routes.py:104-110 | Two identifiers share a key file if and only if they normalise to the same identifier. |
| Identity.Authenticate | app/routes.py:69-77 | Access is granted exactly when both username and password are present and the pair is (`admin`, `password`) or (`user`, `password`). |
| Identity.EmptyCredentialRefused | app/routes.py:70 | An absent or empty username or password is always refused. |
| Identity.Enroll | app/routes.py:91-118 | The request is rejected as unauthorized exactly when the credential check fails, and as malformed exactly when the credential passes and the body has no `key`; both leave the file system as it was. A `key` that is not a string empties the vessel's key file and fails. A string `key` is saved: it becomes the content of the vessel's key file, the acting user is reported, and every other file keeps its content. |
| Identity.FailedWriteErasesKey | app/routes.py:112-113 | A request whose `key` is not a string, following a successful enrollment, leaves that vessel's key file empty. |
| Identity.RefusedEnrollmentWritesNothing | app/routes.py:91-92 | A refused credential changes no file, whatever the identifier and key. |
| Identity.EnrollWrites | app/routes.py:110-113 | An accepted enrollment is one overwrite of the vessel's key file with the key. |
| Identity.ReEnrollmentReplaces | app/routes.py:112-113 | Enrolling a vessel twice leaves the files as if only the second enrollment had happened. |
| Identity.DistinctVesselsIndependent | app/routes.py:104-113 | Enrollments of vessels whose normalised identifiers differ commute, and both keys survive. |
| Identity.BareIdentifierPath | app/routes.py:104-110 | `abc123` is saved as `vessels.abc123-public.pem` under the root, the same file as for `vessels.abc123`. |
| PyInt.ParseInt | app/routes.py:183-184 | A string is accepted exactly when it is ASCII digits, or a `+` or `-` followed by at least one digit. Its value is the decimal value of the digits, negated after `-`. Every other string makes `int` raise. |
| PyInt.ParseIntExact | app/routes.py:183-184 | `int` reads a string as `n` if and only if the string is an integer literal of value `n`. |
| PyInt.ParseFormatInt | app/routes.py:183-184 | Every integer written in decimal reads back as itself. |
| PyInt.NegativeIsAccepted | app/routes.py:183-184 | `int("-3")` yields -3 rather than raising. |
| PyInt.SignAloneIsRejected | app/routes.py:183-184 | A lone sign, the empty string and `1h` all make `int` raise. |
| Timestamp.Parse | app/routes.py:177-178 | Only date-times that a `datetime` can hold are accepted. |
| Timestamp.ParseFormat | app/routes.py:177-178 | Every valid date-time is read back from its canonical rendering. |
| Timestamp.FormatParse | app/routes.py:177-178 | Every accepted string is the canonical rendering of its value, up to the case of the `Z` separator. |
| Timestamp.ParseTimestamp | app/routes.py:177-178 | An accepted timestamp lies between the first and last instants a `datetime` can hold. |
| Timestamp.SecondsInRange | app/routes.py:183-184 | Every valid date-time, counted in seconds, lies within the range of `datetime`. |
| Timestamp.SecondsOrderIff | app/routes.py:179 | One date-time precedes another exactly when its instant is smaller. Distinct date-times never share an instant. |
| Timestamp.HourLater | app/routes.py:183-184 | One hour later on the same day is 3600 seconds later. |
| Timestamp.OneHourApart | app/routes.py:177-178 | Two timestamps naming consecutive hours of one day are read as instants 3600 seconds apart. |
| Timestamp.ExampleTimestamps | app/routes.py:177-178 | `20240101Z000000` and `20240101Z010000` are read as instants one hour apart. |
| TimeWindow.ResolveWindow | app/routes.py:169-197 | A range's ends lie within the range of `datetime`. A range requires `start` or `end` to be present. A present `start` or `end` is the parsed value of that parameter. |
| TimeWindow.BothGivenIsExact | app/routes.py:176-179 | With both timestamps present and readable, the window is exactly [start, end]. |
| TimeWindow.BothGivenUnreadableFallsBack | app/routes.py:176-178 | With both timestamps present and either one unreadable, the look-back is used, durations or not. |
| TimeWindow.DurationsIgnoredWhenBothGiven | app/routes.py:176-179 | With both timestamps present, the duration parameters do not affect the window. |
| TimeWindow.StartPlusDuration | app/routes.py:181-185 | With only `start` and some duration present, the window is [start, start + 3600h + 60m + s]. Absent or empty components count as 0. An end outside `datetime`'s range selects the look-back. |
| TimeWindow.EndMinusDuration | app/routes.py:187-191 | With only `end` and some duration present, the window is [end - (3600h + 60m + s), end]. Absent or empty components count as 0. A start outside `datetime`'s range selects the look-back. |
| TimeWindow.NoTimestampFallsBack | app/routes.py:193-194 | With neither timestamp present (no parameters, or durations alone), the look-back is used. |
| TimeWindow.LoneTimestampFallsBack | app/routes.py:181-194 | A single timestamp without any duration parameter selects the look-back. |
| TimeWindow.NonIntegerDurationFallsBack | app/routes.py:181-197 | A single timestamp with a duration component that `int` rejects selects the look-back. |
| TimeWindow.BranchesAgree | app/routes.py:176-191 | `start` plus a duration, `end` minus it, and both endpoints given directly all resolve to the same window. |
| TimeWindow.NegativeDurationReverses | app/routes.py:181-185 | `start` with `hours=-1` resolves to a window that ends an hour before it starts. |
| Store.Delivered | app/routes.py:201-210 | The rows a handler sees are a prefix of the query's rows. A complete cursor delivers all of them; a failed one delivers as many as it yielded before failing. |
| Trajectory.Matching | app/routes.py:159-197 | A row is kept as often as it is stored when it belongs to the vessel and lies in the window, and otherwise not at all. |
| Trajectory.Insert | app/routes.py:199 | Inserting into an ascending sequence keeps it ascending and adds exactly the one row. |
| Trajectory.SortByTime | app/routes.py:199 | The result is ascending by timestamp and a permutation of the input. |
| Trajectory.Select | app/routes.py:159-199 | The query result is ascending by timestamp. It holds each stored row of the vessel inside the window exactly as often as it is stored, and no other row. |
| Trajectory.SortedUnique | app/routes.py:199 | With distinct timestamps, two ascending orderings of the same rows are equal, so the order is fully determined. |
| Trajectory.SelectCount | app/routes.py:159-199 | The query returns as many rows as the filter keeps. |
| Trajectory.SelectComplete | app/routes.py:159-199 | Every stored row of the vessel inside the window appears in the result. |
| Trajectory.SelectSound | app/routes.py:159-199 | Every row in the result is a stored row of the vessel inside the window. |
| Trajectory.BuildTrack | app/routes.py:203-205 | The document carries the GPX 1.1 namespace and has one point per row, in row order. Each point takes `lat`, `lon` and `time` from that row. |
| Trajectory.Position | app/routes.py:153-212 | The whole handler: normalise the identifier, resolve the window, run the query, and render the rows the cursor delivers. The document carries the GPX 1.1 namespace and its points ascend in time. It has at most as many points as the stored rows of the vessel inside the window, and exactly that many with a complete cursor. |
| Trajectory.PositionAscending | app/routes.py:199-205 | The points of the document ascend in time, however many rows the cursor delivered. |
| Trajectory.PositionExact | app/routes.py:153-205 | With a complete cursor there is one point per matching stored row. Every such row has its point, every point comes from such a row, and each row's point occurs exactly as often as the row is stored, duplicates included. |
| Trajectory.PositionEmpty | app/routes.py:165-167 | An empty store, or a cursor failing before its first row, gives a well-formed document with no points. |
| Trajectory.PositionPartialIsPrefix | app/routes.py:201-210 | A cursor failing after `n` rows gives exactly the first `n` points of the full document, or all of them when the query returned fewer rows. |
| Trajectory.PositionIdentifierForms | app/routes.py:155-159 | A bare identifier and its `vessels.` form give the same document. |
| Trajectory.ReversedWindowIsEmpty | app/routes.py:179-191 | A window whose end precedes its start gives a document with no points. |
| Trajectory.LookbackScenario | app/routes.py:193-194 | With no parameters, a row stamped `now` or later is kept and one stamped twenty minutes ago is not. |
| Trajectory.RangeScenario | app/routes.py:176-205 | For a one-hour range, with rows on both bounds, one row inside and one row just outside each bound, stored in any order, the document holds the three rows inside, ascending. |
| LatestPosition.Split | app/routes.py:138 | Splitting gives at least one piece, and no piece contains the separator. |
| LatestPosition.JoinSplit | app/routes.py:138 | Joining the pieces of a split with the separator gives the string back. |
| LatestPosition.SplitJoin | app/routes.py:138 | Splitting the join of separator-free pieces gives the pieces back. |
| LatestPosition.JoinLast | app/routes.py:138 | With two or more pieces, the joined string ends with the separator followed by the last piece. |
| LatestPosition.ContextId | app/routes.py:138 | The `id` contains no `:` and is a suffix of the context. It is either the whole context or preceded by `:`, so it is the text after the last `:`. A context without `:` is its own `id`. |
| LatestPosition.LastPositions | app/routes.py:136-148 | There is one record per delivered row, in row order. Each record carries its row's timestamp, info and position, and the `id` projected from its context. A complete cursor yields one record per row. A cursor failing after `n` rows yields exactly the first `n` records, or all of them when there are fewer rows; failing at once yields none. |

## Left out

- SQL text, engine creation and connections (`app/routes.py:126-135`, `159-163`, `201-210`). The store is a sequence of rows and `NOW()` is a parameter. The `WHERE` and `ORDER BY` clauses are modelled by their meaning.
- `engine.connect()` (`app/routes.py:128`, `163`) runs outside the `try`, so an unreachable store makes both read handlers raise instead of returning an empty result. `Delivery` describes only failures of `execute` and of the iteration, so this case is not modelled.
- The per-vessel maximum and `LIMIT 1` of the latest-position query belong to the database. `LastPositions` projects whatever rows the query returns.
- Ordering among rows with equal timestamps is left to the database. The model fixes one such order, a stable sort, for each query result. The lemmas comparing results state only that timestamps ascend, except `Trajectory.PositionPartialIsPrefix` and `Trajectory.PositionIdentifierForms`. The first compares a failed delivery with a complete delivery of the same ordered result, so for the source it holds within one execution of the query. The second equates the documents of two requests that issue the same query, so for the source it holds up to the order of rows with equal timestamps. Two executions need not order such rows alike.
- The identifier is pasted into the SQL string unescaped (`app/routes.py:159`). The model treats the `WHERE context = ...` clause as an equality test, so quoting effects are not modelled.
- File writing, `send_file` for `/publickey`, Flask and restx routing, and `auth.current_user()` are I/O and framework calls. The file system is a map, and the acting user is taken to be the username that was accepted.
- The `app/__init__.py` configuration, CORS and the start-up connectivity check are not part of this model. Logging (`app/routes.py:16-31`) is left out too.
- `ET.tostring` byte serialisation and `str()` of the coordinate values are left out. Coordinates are opaque text carried from row to point, and `time` is the row's instant.
- Timezones are not modelled. Both the query parameters and the column are taken as naive instants on the same clock.
- All instants are whole seconds. For the query parameters this is exact, since their pattern has no fractional part. Stored row timestamps and PostgreSQL's `NOW()` can carry microseconds; the model takes them as whole seconds. So a row at `end` plus half a second, which `timestamp <= end` excludes, cannot be represented.
- Timestamp.Parse: accepts exactly two digits per field (four for the year), ASCII only. Python's `strptime` also takes one-digit fields, a space-padded day (`202401 1Z000000` reads as 2024-01-01) and non-ASCII digits. The separator `Z` is matched ignoring case, as `strptime` does.
- PyInt.ParseInt: accepts an optional sign and ASCII digits. Python's `int` also allows surrounding whitespace, underscores between digits and non-ASCII digits, and rejects inputs longer than 4300 digits.
- The `self_id` route converter rejects `/`. The model allows any identifier, so its path lemmas cover a superset of the inputs.
- A body without a `key` makes the handler raise (`app/routes.py:95`). This is modelled as the `MalformedBody` outcome, which writes nothing. A `key` that is not a string is modelled as the `WriteFailed` outcome, with the key file emptied. The framework's status codes are not modelled, and neither is a failure of `open` itself (a missing directory, for example).
