# Email simulation service and code-tag normaliser, in Dafny

This project models two parts of a course repository on agentic AI.

**The email simulation service** (`M3_tools_email/email_server`) keeps one table, `emails`. Each row has `id`, `sender`, `recipient`, `subject`, `body`, `timestamp` and `read`. HTTP endpoints query and change the table:

- send, list, search, filter, unread, get, mark read, mark unread and delete;
- a startup seed routine, which the reset endpoint reruns, fills the table with six sample messages.

**The code-tag normaliser** `ensure_execute_python_tags` (`M2_reflection_chart/utils/utils.py`) takes code text from a language model, strips it and removes Markdown code fences, then wraps it in `<execute_python>` tags unless the opening tag already occurs in it.

Files:

- `wrappers.dfy`: `Option` and `Result`.
- `email_models.dfy` (`EmailModels`): the row datatype, the insert arguments with defaulted columns, and the column defaults (`Materialize`). Also the primary-key invariant (`PrimaryKey`) and the engine's choice of a new id (`NextId`).
- `ordering.dfy` (`Ordering`): `ORDER BY timestamp DESC`. It builds a deterministic listing (newest first, ties broken by smaller id) of the rows that satisfy a predicate. The contract promises only what SQL promises: timestamps never increase, and the listing is a permutation of the matching rows.
- `sql_like.dfy` (`SqlLike`): SQLite's case-insensitive `LIKE`, with the `%` and `_` wildcards and ASCII case folding. It proves that `'%q%'` is a case-insensitive substring test when `q` has no wildcard.
- `email_service.dfy` (`EmailService`):
  - the read-only queries, as functions over the table (a `map<int, Email>`);
  - the `EmailStore` class, whose `emails` field the endpoints change;
  - the filter endpoint, as a method that adds one constraint at a time, as the source does;
  - the seed routine.

  Error replies are values: `NotFound("Email not found")` for 404 and `InvalidArgument(...)` for 400.
- `email_properties.dfy` (`EmailProperties`): lemmas that relate several operations.
- `code_tags.dfy` (`CodeTags`): the normaliser and its properties.

How the external inputs are modelled:

- The current time is an `int` parameter (`now`).
- The shuffled seed list is a parameter that must be a permutation of the six samples.
- The `YYYY-MM-DD` parser is a function parameter, `parseDate: string -> Option<int>`. It yields midnight of the day, or nothing when the text does not parse.

## Model

| member | source | states |
|---|---|---|
| EmailModels.Materialize | M3_tools_email/email_server/email_models.py:8-14 | A stored row copies the given recipient, subject and body. A missing sender becomes `default@demo.com`, a missing timestamp becomes the insertion time, and a missing read flag becomes false. |
| EmailModels.PrimaryKey | M3_tools_email/email_server/email_models.py:8 | The primary-key invariant: every row is stored under its own id. Has no contract of its own: `EmailModels.IdsAreUnique` draws its consequence, and every store operation keeps it. |
| EmailModels.IdsAreUnique | M3_tools_email/email_server/email_models.py:8 | In a table keyed by its primary key, two different keys hold rows with different ids, hence different rows. |
| EmailModels.NextId | M3_tools_email/email_server/email_service.py:114-116 | The id the engine assigns to a new row is not in use, exceeds every id in use, and is 1 on an empty table. |
| Ordering.OrderedRows | M3_tools_email/email_server/email_service.py:121 | Listing the whole table in timestamp order gives timestamps that never increase, and a permutation of the table's rows. |
| Ordering.Restrict | M3_tools_email/email_server/email_service.py:128-131 | A `WHERE` clause keeps the primary key, and its rows are exactly the rows meeting the predicate. |
| Ordering.Select | M3_tools_email/email_server/email_service.py:128-132 | A filtered, ordered query returns non-increasing timestamps and a permutation of the matching rows. A row appears iff it is stored and meets the predicate. |
| SqlLike.Fold | M3_tools_email/email_server/email_service.py:129-131 | ASCII-only lower-casing, the case folding behind SQLite's case-insensitive `LIKE`. Has no contract of its own: `SqlLike.Like` compares characters through it. |
| SqlLike.Like | M3_tools_email/email_server/email_service.py:129-131 | SQLite `LIKE` with ASCII case folding, where `%` matches any run and `_` any one character. Has no contract of its own: `SqlLike.ContainsPatternIsSubstring`, `SqlLike.PrefixPattern` and `SqlLike.LeadingPercent` characterise it. |
| SqlLike.ContainsPattern | M3_tools_email/email_server/email_service.py:129-131 | The pattern `f"%{q}%"` is `q` between two `%` signs. |
| SqlLike.PercentMatchesAll | M3_tools_email/email_server/email_service.py:129 | The pattern `%` matches every string. |
| SqlLike.PrefixPattern | M3_tools_email/email_server/email_service.py:129 | For a wildcard-free `q`, `LIKE 'q%'` holds iff the text begins with `q`, ignoring ASCII case. |
| SqlLike.LeadingPercent | M3_tools_email/email_server/email_service.py:129 | `LIKE '%p'` holds iff some suffix of the text matches `p`. |
| SqlLike.ContainsPatternIsSubstring | M3_tools_email/email_server/email_service.py:129-131 | For a wildcard-free `q`, `ILIKE '%q%'` holds iff `q` occurs in the text, ignoring ASCII case. |
| SqlLike.EmptyPatternMatchesAll | M3_tools_email/email_server/email_service.py:129 | `ILIKE '%%'`, the pattern for an empty query, matches every string. |
| EmailService.ListEmails | M3_tools_email/email_server/email_service.py:119-121 | Every stored row is listed and nothing else, as a permutation of the table, newest first. |
| EmailService.UnreadEmails | M3_tools_email/email_server/email_service.py:162-164 | Exactly the rows with `read == false`, as a permutation of those rows, newest first. |
| EmailService.SearchHit | M3_tools_email/email_server/email_service.py:128-131 | The three `ilike` tests joined by `or`. Has no contract of its own: `EmailProperties.SearchIsSubstringSearch` characterises it. |
| EmailService.SearchEmails | M3_tools_email/email_server/email_service.py:123-132 | Exactly the rows whose subject, body or sender matches `ILIKE '%q%'`, as a permutation of those rows, newest first. |
| EmailService.GetEmail | M3_tools_email/email_server/email_service.py:166-171 | Returns the row stored under the id, which carries that id. It fails with NotFound("Email not found") iff no stored row has the id. |
| EmailService.Supplied | M3_tools_email/email_server/email_service.py:143-153 | A parameter counts only when present and non-empty, as Python's truth test treats it. |
| EmailService.BadDate | M3_tools_email/email_server/email_service.py:146-158 | A date parameter that is supplied (non-empty) but does not parse. Has no contract of its own: `EmailService.EmailStore.FilterEmails` maps it to the two InvalidArgument replies. |
| EmailService.DateBound | M3_tools_email/email_server/email_service.py:146-156 | The bound a date parameter sets: midnight of the parsed day when supplied, none otherwise. Has no contract of its own: `EmailService.EmailStore.FilterEmails` and `EmailProperties.LaterOnEndDayExcluded` use it. |
| EmailService.FilterHit | M3_tools_email/email_server/email_service.py:143-156 | The supplied constraints joined by `and`: exact recipient, timestamp at or after the lower bound, and timestamp at or before the upper bound. Has no contract of its own: `EmailProperties.LaterOnEndDayExcluded` and `EmailProperties.EmptyFilterParametersKeepAll` characterise it. |
| EmailService.FilterMatches | M3_tools_email/email_server/email_service.py:141-156 | The stored rows meeting the filter predicate. `EmailService.EmailStore.FilterEmails` returns a permutation of them. |
| EmailService.WithRead | M3_tools_email/email_server/email_service.py:178 | Same ids. The target row gets the new read flag and keeps its id, timestamp, sender, recipient, subject and body. Every other row is unchanged. |
| EmailService.SamplesAreDistinct | M3_tools_email/email_server/email_service.py:78-97 | No two of the six sample messages are equal. |
| EmailService.SampleRow | M3_tools_email/email_server/email_service.py:79-96 | Has no contract of its own: `EmailService.Seeded` states the rows it yields, each with every column given, stamped `now` and unread. |
| EmailService.IdRange | M3_tools_email/email_server/email_service.py:99 | The ids the engine gives the six seed rows on an empty table are 1 to n, n of them. |
| EmailService.Seeded | M3_tools_email/email_server/email_service.py:77-99 | The seeded table is keyed by id and has one row per shuffled sample. Row k holds sample k. Every row is unread and stamped `now`. |
| EmailService.SeedRow | M3_tools_email/email_server/email_service.py:79-96 | The row stored for a sample inserted under an id carries that id and exactly the sample's sender, recipient, subject and body. It is unread and stamped `now`. |
| EmailService.SeedMap | M3_tools_email/email_server/email_service.py:98-99 | The body of `EmailService.Seeded`, with no contract of its own: `SeedMapRows` and `SeedMapKeys` state its rows and its ids. |
| EmailService.SeedMapRows | M3_tools_email/email_server/email_service.py:98-99 | The table built by the seed routine maps each id to the row for the sample at that position of the insertion order. |
| EmailService.SeedMapKeys | M3_tools_email/email_server/email_service.py:98-99 | The seed routine's ids are exactly 1 to the number of samples, as the engine numbers inserts into an empty table. |
| EmailService.SeededSize | M3_tools_email/email_server/email_service.py:78-99 | Whatever the shuffle, the seeded table holds six rows. |
| EmailService.SeededContents | M3_tools_email/email_server/email_service.py:78-99 | Whatever the shuffle, the seeded rows' sender, recipient, subject and body are exactly the six samples, as a set. |
| EmailService.SeededRowsDistinct | M3_tools_email/email_server/email_service.py:78-99 | Whatever the shuffle, no two seeded rows hold the same sample. |
| EmailService.RepeatCountsTwice | M3_tools_email/email_server/email_service.py:98 | A message at two positions of the shuffled list occurs in it at least twice. |
| EmailService.DistinctCountsOnce | M3_tools_email/email_server/email_service.py:78-98 | In a list without repeats, such as the sample list, every message occurs at most once. |
| EmailService.SampleIsSeeded | M3_tools_email/email_server/email_service.py:98-99 | Every sample lands in some row of the seeded table, whatever the shuffle. |
| EmailService.EmailStore.Valid | M3_tools_email/email_server/email_models.py:8 | The store's invariant is the primary-key invariant on its table. Has no contract of its own. The constructor establishes it. `SendEmail`, the two mark methods and `DeleteEmail` require and ensure it. `FilterEmails` requires it and cannot change the table. `PreloadEmails` and `ResetDatabase` establish it from any table. |
| EmailService.EmailStore.constructor | M3_tools_email/email_server/email_models.py:5-14 | Stands for a freshly created database: the `emails` table exists, is empty and satisfies the primary-key invariant. |
| EmailService.EmailStore.SendEmail | M3_tools_email/email_server/email_service.py:106-117 | Adds exactly one row under an id not used before. The row has the given recipient, subject and body, sender `you@mail.com`, timestamp `now`, and is unread. Every other row is unchanged. |
| EmailService.EmailStore.FilterEmails | M3_tools_email/email_server/email_service.py:134-160 | A supplied, unparsable `date_from` fails with InvalidArgument for `date_from`, before `date_to` is examined. Otherwise an unparsable `date_to` fails with InvalidArgument for `date_to`. Otherwise the result is a permutation of the rows meeting every supplied constraint (exact recipient, timestamp ≥ midnight of `date_from`, timestamp ≤ midnight of `date_to`), newest first. The table is never changed. |
| EmailService.EmailStore.MarkEmailAsRead | M3_tools_email/email_server/email_service.py:173-181 | On an absent id: NotFound, table unchanged. Otherwise only that row's read flag becomes true, and the updated row is returned. |
| EmailService.EmailStore.MarkEmailAsUnread | M3_tools_email/email_server/email_service.py:183-191 | On an absent id: NotFound, table unchanged. Otherwise only that row's read flag becomes false, and the updated row is returned. |
| EmailService.EmailStore.DeleteEmail | M3_tools_email/email_server/email_service.py:193-200 | On an absent id: NotFound, table unchanged. Otherwise exactly that row is removed and "Email deleted" is returned. |
| EmailService.EmailStore.PreloadEmails | M3_tools_email/email_server/email_service.py:70-102 | Whatever the table held, it ends up with exactly six rows. Their contents are the six samples, no two rows hold the same sample, and all are unread and stamped `now`. |
| EmailService.EmailStore.ResetDatabase | M3_tools_email/email_server/email_service.py:202-205 | Reruns the seed routine, with the same final table, so that no two rows hold the same sample, and returns "Database reset and emails reloaded". |
| EmailProperties.SearchIsSubstringSearch | M3_tools_email/email_server/email_service.py:123-132 | For a query without `%` or `_`, a row is a search hit iff the query is a case-insensitive substring of its subject, body or sender. |
| EmailProperties.QuarterlyHitsReport | M3_tools_email/email_server/email_service.py:128-131 | A search for "QUARTERLY" hits a row whose subject is "Quarterly Report", since the match ignores ASCII case. |
| EmailProperties.SeededQuarterlySearch | M3_tools_email/email_server/email_service.py:78-99 | After seeding, whatever the shuffle, searching for "QUARTERLY" returns the boss's "Quarterly Report" mail. |
| EmailProperties.EmptySearchListsAll | M3_tools_email/email_server/email_service.py:119-132 | Searching for the empty string returns the same rows as the list endpoint, as a multiset. The two listings are also equal as sequences, but only because both use the model's tie-break among equal timestamps, which SQL leaves open. |
| EmailProperties.UnreadAreListed | M3_tools_email/email_server/email_service.py:162-164 | Every row the unread endpoint returns is unread and also appears in the full listing. |
| EmailProperties.GetAfterSend | M3_tools_email/email_server/email_service.py:106-117 | After a send, fetching the new id returns the row exactly as stored, and the primary key still holds. |
| EmailProperties.GetAfterDelete | M3_tools_email/email_server/email_service.py:193-200 | After a delete, fetching that id fails with NotFound, and every other id answers as before. |
| EmailProperties.WithReadChangesOnlyTheFlag | M3_tools_email/email_server/email_service.py:173-191 | A mark changes only the target's read flag: same ids, other rows untouched, the target's other columns untouched, primary key kept. |
| EmailProperties.MarkIsIdempotent | M3_tools_email/email_server/email_service.py:173-191 | Marking a row read (or unread) twice is the same as marking it once. |
| EmailProperties.ReadThenUnreadRestores | M3_tools_email/email_server/email_service.py:173-191 | Marking an unread row read and then unread restores the table. |
| EmailProperties.EmptyFilterParametersKeepAll | M3_tools_email/email_server/email_service.py:141-160 | Empty or absent parameters are never rejected, and the filter then keeps every row. |
| EmailProperties.LaterOnEndDayExcluded | M3_tools_email/email_server/email_service.py:153-156 | The upper bound is midnight of the `date_to` day, so a mail stamped later than that is never kept. |
| CodeTags.IsSpace | M2_reflection_chart/utils/utils.py:189-191 | The characters Python's `str.isspace()` accepts, which `strip()` removes and `\s` matches. Has no contract of its own: it underlies `CodeTags.TrimStart`, `CodeTags.TrimEnd` and the fence lemmas. |
| CodeTags.TrimStart | M2_reflection_chart/utils/utils.py:189 | Removes exactly the longest wholly-whitespace prefix. |
| CodeTags.TrimEnd | M2_reflection_chart/utils/utils.py:189 | Removes exactly the longest wholly-whitespace suffix. |
| CodeTags.SpaceRunEnd | M2_reflection_chart/utils/utils.py:189 | The scan stops at the end of the whitespace run that starts at the given position. |
| CodeTags.SpaceRunStart | M2_reflection_chart/utils/utils.py:189 | The scan stops at the start of the whitespace run that ends at the given position. |
| CodeTags.StripParts | M2_reflection_chart/utils/utils.py:189 | Trimming the start and then the end leaves a stripped slice of the input with only whitespace around it. |
| CodeTags.Strip | M2_reflection_chart/utils/utils.py:189 | The result is a slice of the input with whitespace on either side and no surrounding whitespace of its own. |
| CodeTags.StripKeepsStripped | M2_reflection_chart/utils/utils.py:189-191 | Stripping text that has no surrounding whitespace leaves it as it is. |
| CodeTags.LeadingFenceLength | M2_reflection_chart/utils/utils.py:191 | The opening-fence match lies within the text, and it is empty iff the text does not start with three backticks. Its extent is stated by `CodeTags.LeadingFenceSpan`. |
| CodeTags.LeadingFenceSpan | M2_reflection_chart/utils/utils.py:191 | After a leading "```", the match covers `python` when the text goes on with it, then the whole run of whitespace after that, and stops at the first non-whitespace character or the end. |
| CodeTags.WithoutTrailingFence | M2_reflection_chart/utils/utils.py:191 | Text not ending with "```" is kept. Otherwise the result is a prefix of the text before the fence, only whitespace lies between the two, and the result does not end with whitespace. So the match starts at the leftmost point from which only whitespace and the final fence follow. |
| CodeTags.RemoveFences | M2_reflection_chart/utils/utils.py:191 | Has no contract of its own: `CodeTags.RemoveFencesCuts` states what the substitution cuts, and `CodeTags.FencesRemoved` its effect on fenced code. |
| CodeTags.TrailingFenceCut | M2_reflection_chart/utils/utils.py:191 | Applied after any position, the second alternative keeps a prefix of what follows that position and cuts at most the final fence and the whitespace run before it. |
| CodeTags.RemoveFencesCuts | M2_reflection_chart/utils/utils.py:191 | The result is the text just after the opening-fence match. When that text ends with "```", the fence and only whitespace before it are cut; otherwise nothing more is cut. |
| CodeTags.Normalize | M2_reflection_chart/utils/utils.py:189-191 | Has no contract of its own: `CodeTags.NormalizedIsStripped` shows it is stripped, and `CodeTags.FencedCodeRoundTrip` shows that it returns the code of a fenced block. |
| CodeTags.Wrap | M2_reflection_chart/utils/utils.py:193 | The result is `<execute_python>` and a newline, then the text, then a newline and `</execute_python>`. The text can be read back from its fixed position. |
| CodeTags.Contains | M2_reflection_chart/utils/utils.py:192 | Python's `p in s`: some position of `s` starts with `p`. Has no contract of its own: `CodeTags.EnsureExecutePythonTags` decides on it. |
| CodeTags.EnsureExecutePythonTags | M2_reflection_chart/utils/utils.py:187-194 | The output always contains `<execute_python>`. If the stripped, unfenced text already contains the tag, anywhere, it is returned as it is. Otherwise it is exactly `"<execute_python>\n" + text + "\n</execute_python>"`. |
| CodeTags.WrapHoldsTag | M2_reflection_chart/utils/utils.py:193 | The wrapped text starts with `<`, ends with `>` and holds the opening tag. |
| CodeTags.SurroundingSpaceIgnored | M2_reflection_chart/utils/utils.py:189 | Leading and trailing whitespace of the input does not affect the result. |
| CodeTags.NormalizedIsStripped | M2_reflection_chart/utils/utils.py:189-191 | The text after fence removal has no surrounding whitespace. |
| CodeTags.NoFenceNothingRemoved | M2_reflection_chart/utils/utils.py:191 | Stripped text that neither starts nor ends with three backticks is left as it is by the fence removal. |
| CodeTags.UnfencedIsNormal | M2_reflection_chart/utils/utils.py:189-191 | Non-empty text without surrounding whitespace, whose first and last characters are not backticks, comes through normalisation unchanged. |
| CodeTags.WrapIsNormal | M2_reflection_chart/utils/utils.py:189-193 | A wrapped block comes through normalisation unchanged. |
| CodeTags.WrappedIsFixedPoint | M2_reflection_chart/utils/utils.py:189-194 | Whenever the wrapper was added, applying the function again gives the same string. |
| CodeTags.OpeningFenceLength | M2_reflection_chart/utils/utils.py:191 | A leading "```" or "```python" is removed with all the whitespace after it. |
| CodeTags.ClosingFenceRemoved | M2_reflection_chart/utils/utils.py:191 | A trailing "```" is removed together with the whole run of whitespace before it, and the text up to that run is kept. |
| CodeTags.ClosingFenceLineRemoved | M2_reflection_chart/utils/utils.py:191 | A closing fence on a line of its own after stripped text is removed with its newline. |
| CodeTags.FencesRemoved | M2_reflection_chart/utils/utils.py:191 | For stripped code fenced on its own lines, the fence removal leaves exactly the code. |
| CodeTags.FencedCodeRoundTrip | M2_reflection_chart/utils/utils.py:189-191 | Normalising a fenced block ("```" or "```python", newline, code, newline, "```") gives back the code exactly, when the code has no surrounding whitespace. |
| CodeTags.FencedCodeIsWrapped | M2_reflection_chart/utils/utils.py:187-194 | A fenced block ends up as its code wrapped in the execute tags, or as the bare code if the code already holds the tag. |

## Left out

- Web plumbing is not modelled: the FastAPI app, CORS, static mounts, template serving of `/`, environment lookups (`email_service.py:17-58`) and the `/health` endpoint (`email_service.py:208-210`).
- ORM and resource plumbing is not modelled: `create_all` (which only creates the table when it is absent; the store's constructor stands for a freshly created database), the `get_db` session and its closing, and the HTTP status codes. Error replies are the `Error` values.
- The two commits in the seed routine are one step here. They differ only under concurrency, which is not modelled.
- `email_database.py` is not part of this model. The engine is taken to be SQLite: `ILIKE` becomes `lower(x) LIKE lower(p)` with ASCII-only folding, and a new rowid is one more than the largest.
- `EmailModels.NextId`: the contracts of `SendEmail` promise only that the id is fresh. The ids 1..n after a reset rely on SQLite numbering rows from 1 in an emptied table.
- `EmailService.SearchEmails`: `%` and `_` in the query act as wildcards, as in the source. The substring reading (`EmailProperties.SearchIsSubstringSearch`) is proved only for wildcard-free queries, and case folding covers ASCII letters only.
- The leniency of `datetime.strptime(..., "%Y-%m-%d")` is not modelled: the parser is a function parameter.
- `datetime.utcnow()` and `random.shuffle` are parameters: `now`, and a list that must be a permutation of the samples.
- Timestamps are integers. The map of a calendar day to its midnight belongs to the parser.
- Nullable columns are not modelled. `sender`, `timestamp` and `read` are always set by the operations modelled, and the non-null `recipient`, `subject` and `body` are plain strings.
- `email_schema.py` is not modelled. Only its field list is used: send takes recipient, subject and body. Its `EmailStr` check lives in a library that is not part of this model.
- `llm_service.py` is not modelled: it is an external language-model client with a tool loop.
- All of `utils.py` other than `ensure_execute_python_tags` is left out: CSV loading, display helpers and API calls.
- `CodeTags.WithoutTrailingFence`: the pattern's `$` is read as end-of-text. In Python it also matches before a final newline, but the text has been stripped just before, so none is left.
- `CodeTags.IsSpace`: whitespace is Python's `str.isspace` set, written out for the code points it covers. Other Unicode properties are not modelled.
