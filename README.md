# sparql-rc2-backend core, modelled in Dafny

The backend answers one question: which revisions were made to a set of
Wikidata entities in a time window, and by whom. Between its HTTP route and
its database query sits a pure pipeline, which this project models and proves
things about:

- **split**: `Splitter.split_entities` turns a comma-separated string into
  entity-id tokens. It strips each piece and drops the empty ones.
- **validate**: the pydantic `Validator` accepts the request parameters or
  rejects them. Its checks are the entity count, uniqueness, the id grammar,
  the timestamp grammar of both dates, and the dates' order.
- **aggregate**: `Aggregator.aggregate` folds the revision rows the database
  returns into one `Revisions` summary per page. A summary holds:
  - the page's first-seen page id and entity id;
  - its earliest and latest revision by string order of `rev_timestamp`;
  - an empty note;
  - one `UserCount` per user key `"<rev_user>|<rev_user_text>"`.

Next to the pipeline sit the patrol-state predicates of a `Revision` and the
grammars and limits of `config.py`.

Modules, one per concern:

- **Wrappers**: `Option` and `Result`.
- **Seqs**: distinctness, order-preserving deduplication, first index and
  occurrence counting.
- **Dicts**: Python's insertion-ordered `dict`.
  - A `Dict` is a key order plus a map.
  - `Put` is `d[k] = v`. A new key goes at the end, a known key keeps its place.
- **Strings**: Python's `str` operations used by the core:
  - `<` on strings;
  - `str(int)` and `int()`;
  - `split(c)` and `split(c, 1)`;
  - `c.join(parts)`;
  - `strip()`, with `isspace` as an explicit character set.
- **Config**: the constants and patterns of `config.py`.
- **RevisionRecord**: the `Revision` record and its patrol predicates.
- **SummaryRecords**: the `UserCount` and `Revisions` records.
- **Splitter**: the split as a function, plus a `Splitter` class whose method
  assigns `entities`.
- **Validator**: the validators as functions returning a `Result`.
  - `Validate` runs every field validator and collects their errors in field
    order, as pydantic does.
  - It runs the date-order check only when no field failed.
- **Aggregator**: the aggregation.
  - `Aggregate` is a method with the source's two loops. The first fills an
    insertion-ordered table keyed by `str(rev_page)`. The second appends one
    summary per table entry.
  - It is proved equal to `Aggregation`, a declarative reference. For each
    distinct page key, in order of first appearance, the reference summarises
    the rows with that key.
  - The lemmas about `Aggregation` and `PageSummary` state what a summary means:
    - one summary per page, in the order the pages first appear;
    - first-seen page and entity ids;
    - earliest and latest identified by timestamp, with ties going to the
      first-seen row;
    - per-user counts that add up to the page's row count;
    - user keys that decode back to their (id, name) pair.

The settings the validator reads are a value passed to it (`Config.Settings`).
`Config.DEFAULT_SETTINGS` holds the values of `config.py`. `Validator.TEST_SETTINGS`
holds the values the validator's own tests patch in: at most three entities,
`Q` ids only, eight-digit dates.

## Model

| member | source | states |
|---|---|---|
| Aggregator.Aggregate | models/aggregator.py:13-56 | The two loops return exactly `Aggregation(revisions)`: one summary per distinct page key, in order of first appearance, each the summary of that page's rows. |
| Aggregator.AddRevision | models/aggregator.py:15-35 | One step of the grouping loop. A row of an unseen page creates its entry; a row of a seen page advances that page's entry (`GroupStep`). |
| Aggregator.SummariseEntry | models/aggregator.py:38-55 | One step of the summary loop: the entry becomes its `Revisions` record, with users decoded in key order. |
| Aggregator.GroupingRepresents | models/aggregator.py:14-35 | After any prefix of rows, the table lists each page key once, in order of first appearance. Each key's entry is the entry of exactly the rows with that key. |
| Aggregator.NewPageStep | models/aggregator.py:19-28 | Inserting the first-row entry for an unseen page keeps the table representing the rows seen. |
| Aggregator.SeenPageStep | models/aggregator.py:30-35 | Replacing a seen page's entry by the entry of its rows plus the new row keeps the table representing the rows seen. |
| Aggregator.SummariesOfGrouping | models/aggregator.py:37-56 | Every user table in the grouping decodes, and summarising the table in key order gives `Aggregation(rows)`. |
| Aggregator.EntryOfFirstRow | models/aggregator.py:19-27 | A page's first row gives the entry with that row's page and entity ids, itself as earliest and latest, note `""`, and users `{user_key: 1}`. |
| Aggregator.EntryOfNextRow | models/aggregator.py:30-35 | One more row leaves the first-row fields alone. It replaces earliest only on a strictly smaller timestamp and latest only on a strictly greater one, and adds one to its user key's count. |
| Aggregator.EarliestIsFirstMinimum | models/aggregator.py:30-31 | The earliest row has the smallest timestamp of the page's rows, and every row before it has a strictly greater one, so ties keep the first-seen row. |
| Aggregator.LatestIsFirstMaximum | models/aggregator.py:32-33 | The latest row has the greatest timestamp of the page's rows, and every row before it has a strictly smaller one, so ties keep the first-seen row. |
| Aggregator.SummaryTimestamps | models/aggregator.py:30-33 | A summary's `earliest` and `latest` are the `Revision`s of the first minimum-timestamp row and the first maximum-timestamp row. |
| Aggregator.UsersOfIsTally | models/aggregator.py:35 | The user table built row by row is the tally of the rows' user keys. |
| Aggregator.UsersOfCounts | models/aggregator.py:17-35 | The user table lists each user key once, in order of first appearance, and maps it to the number of rows carrying it. |
| Aggregator.UserKeyOccurrences | models/aggregator.py:17 | Counting rows by user key is counting them by (rev_user, rev_user_text) pair. |
| Aggregator.SummaryUserCounts | models/aggregator.py:35-44 | Each `UserCount` in a summary counts exactly the page's rows with that (user id, username), and that count is at least one. |
| Aggregator.SummaryUsersDistinctAndComplete | models/aggregator.py:35-44 | A summary lists each (user id, username) pair at most once, and every user with a row on the page. |
| Aggregator.SummaryUsersOrder | models/aggregator.py:35-42 | A summary lists users in the order of their first rows on the page. |
| Aggregator.SummaryTotalCount | models/aggregator.py:35 | The counts in a summary add up to the number of the page's rows. |
| Aggregator.DecodeEncode | models/aggregator.py:42 | `split("\|", 1)` and `int()` recover the exact (id, name) pair from `f"{id}\|{name}"`, even when the name contains `\|`. |
| Aggregator.EncodeUserKeyInjective | models/aggregator.py:17 | Two user keys are equal exactly when their (id, name) pairs are. |
| Aggregator.EncodedIsUserKey | models/aggregator.py:42 | Every encoded user key decodes, and re-encoding gives it back. |
| Aggregator.UsersOfDecodable | models/aggregator.py:39-43 | Every key of a page's user table decodes, so the summary comprehension never fails. |
| Aggregator.UserCountsFrom | models/aggregator.py:39-44 | One `UserCount` per table key, in key order. Each carries the id and name its key encodes and that key's count. |
| Aggregator.PageKey | models/aggregator.py:16 | The key a row is grouped under: `str(rev_page)`, written with `Strings.IntToString`. |
| Aggregator.EncodeUserKey | models/aggregator.py:17 | The key a row's user is counted under: `str(rev_user)`, then `\|`, then `rev_user_text`. |
| Aggregator.DecodeUserKey | models/aggregator.py:40-42 | `u.split("\|", 1)` and `int()` of the first part. It gives `None` exactly where Python would raise: no `\|` in the key, or a first part that is not an integer. |
| Aggregator.Advance | models/aggregator.py:30-35 | What a later row of a known page does to the page's entry. It replaces `earliest` when the stored timestamp is strictly greater and `latest` when it is strictly smaller, and adds one to the row's user-key count. The other fields stay. |
| Aggregator.ToRevision | models/aggregator.py:50-51 | `Revision(**row)`: the row's revision fields, without `entity_id`. |
| Aggregator.Summarise | models/aggregator.py:46-55 | The `Revisions` record the second loop appends for one entry. It takes the entry's ids and note, `ToRevision` of its earliest and latest rows, and `UserCountsFrom` of its user table. |
| Aggregator.PageKeyIdentifiesPage | models/aggregator.py:16 | Two rows share a page key exactly when they share `rev_page`. |
| Aggregator.RowsWithKeyFirst | models/aggregator.py:19-27 | A key has rows exactly when some row carries it. The first of those rows is the first such row of the input. |
| Aggregator.PageRowsOfPage | models/aggregator.py:16-19 | The rows filed under a page are exactly the input rows with that `rev_page`, so counts never leak between pages. |
| Aggregator.AggregationAt | models/aggregator.py:37-56 | There is one summary per distinct page key. The n-th is for the n-th key in first-appearance order, and it is the summary of that page's rows alone. |
| Aggregator.AggregationFirstRowFields | models/aggregator.py:20-27 | A summary's page id and entity id are those of its page's first row, and its note is `""`. |
| Aggregator.AggregationEmpty | models/aggregator.py:13-56 | The result is empty exactly when the input is. |
| Aggregator.AggregationDistinctPages | models/aggregator.py:16-20 | No two summaries are for the same page. |
| Aggregator.AggregationCoversPages | models/aggregator.py:14-28 | Every input page has a summary, and every summary is for an input page. |
| Aggregator.AggregationOrder | models/aggregator.py:38 | Summaries follow first appearance: every row of a later summary's page comes after some row of an earlier summary's page. |
| Dicts.Put | models/aggregator.py:35 | `d[k] = v` stores `v` under `k`. A present key keeps its place; a new key goes last. |
| Dicts.PutValid | models/aggregator.py:14 | Storing a value keeps the key order listing every key exactly once. |
| Dicts.TallyKeys | models/aggregator.py:35 | The table `d[k] = d.get(k, 0) + 1` builds lists each key once, in order of first occurrence. |
| Dicts.TallyCounts | models/aggregator.py:35 | That table maps each key to its number of occurrences. |
| Dicts.TallyByIsTally | models/aggregator.py:35 | Counting elements by a key function is counting their keys. |
| Seqs.Dedup | models/aggregator.py:19 | The dict's key order: distinct, holds exactly the elements of the input, no longer than it. |
| Seqs.DedupSnoc | models/aggregator.py:19-20 | One more element extends the key order exactly when it is new. |
| Seqs.DedupFirstOccurrenceOrder | models/aggregator.py:38 | The key order is the order of first occurrence. |
| Seqs.SumCountsOfDedup | models/aggregator.py:35 | Summing each distinct element's occurrence count gives the length of the sequence. |
| Seqs.ElementsCardinality | models/validator.py:19 | `len(set(v)) == len(v)` exactly when `v` has no repeated element. |
| Strings.Less | models/validator.py:38 | Python's `<` on `str`: code point by code point, with a proper prefix less than the longer string. |
| Strings.LessIrreflexive | models/validator.py:38 | No string is less than itself, so equal dates are never out of order. |
| Strings.LessTransitive | models/aggregator.py:30-32 | String order is transitive. |
| Strings.LessTotal | models/aggregator.py:30-32 | Any two distinct strings are ordered one way or the other. |
| Strings.LessAsymmetric | models/aggregator.py:30-32 | String order is asymmetric. |
| Strings.IntToStringParses | models/aggregator.py:42 | `int(str(n)) == n` for every integer, negative ones included. |
| Strings.IntToStringInjective | models/aggregator.py:16 | Distinct integers have distinct `str` forms. |
| Strings.NatToStringValue | models/aggregator.py:16 | The decimal digits of a natural number denote that number. |
| Strings.Find | models/aggregator.py:42 | The position of the first occurrence of a character, or none when it does not occur. |
| Strings.Split | models/splitter.py:10 | `s.split(c)`: the pieces between occurrences of `c`, always at least one. |
| Strings.SplitOnce | models/aggregator.py:42 | `s.split(c, 1)`: the text before the first `c` and the rest. It is `[s]` when `c` does not occur. |
| Strings.ParseInt | models/aggregator.py:40 | `int(s)` on an optionally negated string of ASCII digits; `None` stands for the `ValueError` Python raises on anything else. |
| Strings.IntToString | models/aggregator.py:16 | `str(n)`: a `-` for a negative number, then the decimal digits of its magnitude. |
| Strings.SplitPieces | models/splitter.py:10 | `s.split(c)` has one more piece than `s` has `c`s, and no piece contains `c`. |
| Strings.SplitWithoutSeparator | models/splitter.py:10 | A string without the separator splits into itself. |
| Strings.SplitConcat | models/splitter.py:10 | Splitting `a + c + b` is splitting `a` and then `b`. |
| Strings.SplitJoin | models/splitter.py:10 | Joining separator-free pieces and splitting again gives the pieces back. |
| Strings.LStripSuffix | models/splitter.py:10 | `lstrip()` removes a run of leading whitespace and leaves no leading whitespace. |
| Strings.RStripPrefix | models/splitter.py:10 | `rstrip()` removes a run of trailing whitespace and leaves no trailing whitespace. |
| Strings.IsSpace | models/splitter.py:10 | The characters for which `str.isspace` holds, which `strip()` with no argument removes. |
| Strings.Strip | models/splitter.py:10 | `s.strip()`: `s` without its leading and trailing whitespace. |
| Strings.StripFacts | models/splitter.py:10 | `strip()` leaves no whitespace at either end, is empty exactly when `s` is all whitespace, keeps only characters of `s`, and leaves an already-stripped string unchanged. |
| Splitter.StripAndDropEmpty | models/splitter.py:9-11 | Stripping and dropping empty pieces never yields more tokens than pieces. |
| Splitter.StripAndDropEmptyGivesTokens | models/splitter.py:9-11 | Comma-free pieces give tokens: non-empty, no whitespace at either end, no comma. |
| Splitter.SplitEntityString | models/splitter.py:9-11 | Every token is non-empty, without surrounding whitespace and without a comma. There are at most one more tokens than the input has commas. |
| Splitter.StripAndDropEmptyConcat | models/splitter.py:10 | Normalising two lists of pieces one after the other is normalising their concatenation. |
| Splitter.StripAndDropEmptyKeepsTokens | models/splitter.py:10 | Normalising a list of tokens leaves it unchanged. |
| Splitter.SplitEntityStringConcat | models/splitter.py:9-11 | The tokens of `a + "," + b` are those of `a` followed by those of `b`, so order and duplicates are kept. |
| Splitter.SplitEntityStringIdempotent | models/splitter.py:9-11 | Joining the tokens with `","` and splitting again gives the same tokens. |
| Splitter.SplitEmptyString | tests/test_splitter.py:20-23 | The empty string gives no tokens. |
| Splitter.SplitWithSpacesAndEmptyPieces | tests/test_splitter.py:25-28 | `"  Q42 , , L1 ,, Q99 "` gives `["Q42", "L1", "Q99"]`. |
| Splitter.SplitWithInnerSpaces | tests/test_splitter.py:10-13 | `"Q42, L1 ,Q99"` gives `["Q42", "L1", "Q99"]`. |
| Splitter.SplitKeepsDuplicates | models/splitter.py:9-11 | `"Q1,Q1"` gives `["Q1", "Q1"]`: duplicates are not removed. |
| Splitter.Splitter.constructor | models/splitter.py:4-6 | A new splitter holds its string and no entities yet. |
| Splitter.Splitter.SplitEntities | models/splitter.py:8-11 | `entities` becomes the tokens of `entitiesString`, each a well-formed token, and nothing else changes. |
| RevisionRecord.IsPurgedFromRecentChanges | models/revision.py:20-24 | Exactly the source's `rc_patrolled is None` test. |
| RevisionRecord.IsManuallyPatrolled | models/revision.py:26-30 | Exactly the source's `rc_patrolled == 1` test. |
| RevisionRecord.IsAutopatrolled | models/revision.py:32-36 | Exactly the source's `rc_patrolled == 2` test. |
| RevisionRecord.IsUnpatrolled | models/revision.py:38-42 | Exactly the source's `rc_patrolled == 0` test. |
| RevisionRecord.WithoutPatrolState | models/revision.py:18-24 | A revision built without `rc_patrolled` is purged from recent changes and in none of the other three states. |
| RevisionRecord.PatrolStatesPartition | models/revision.py:20-42 | At most one patrol predicate holds. Exactly one holds when `rc_patrolled` is absent, 0, 1 or 2. |
| Config.EntityPattern | config.py:8 | The shape of `^[<letters>]\d+$`: exactly one of the given letters, then one or more ASCII digits, and nothing else. |
| Config.DigitsPattern | config.py:9-10 | The shape of `^\d{<width>}$`: exactly `width` ASCII digits and nothing else. |
| Config.IsEntityId | config.py:8 | Exactly `ENTITY_ID_PATTERN`: one of `Q`, `L`, `P`, `E`, then one or more digits. |
| Config.IsDateOnly | config.py:9 | Exactly `DATE_ONLY_PATTERN`: eight digits. |
| Config.IsTimestamp | config.py:10 | Exactly `TIMESTAMP_PATTERN`: fourteen digits. |
| Config.DefaultSettingsArePatterns | config.py:5-10 | The default settings hold the limit of 100, and their patterns are exactly `ENTITY_ID_PATTERN` and `TIMESTAMP_PATTERN`. |
| Config.EntityIdExamples | config.py:8 | `Q42`, `L1`, `P31`, `E7` are ids. `Q`, `X2`, `q1`, `Q4a` and `""` are not. |
| Config.TimestampExamples | config.py:9-10 | A 14-digit string is a timestamp and an 8-digit one a date. Dashed or short strings are neither. |
| Config.FixedWidthOrder | config.py:10 | For digit strings of equal width, string order is numeric order, and string equality is numeric equality. |
| Config.FixedWidthComparisons | config.py:10 | On two strings matching a fixed-width digit pattern, `<` and "not after" agree with the numbers they denote. |
| Config.TimestampOrderIsNumeric | config.py:10 | On two timestamps, string comparison is comparison of the numbers their digits spell (no calendar is modelled). |
| Validator.Message | models/validator.py:17-39 | The text of each `ValueError` the validators raise. The limit and the offending value are written into it, and a format error names its field. |
| Validator.FirstInvalidEntity | models/validator.py:21-23 | Finds the first id that fails the pattern, or none exactly when all match. |
| Validator.ValidateEntities | models/validator.py:16-24 | The checks run in order: count, then uniqueness, then each id; the first failure is the error. It succeeds, returning `v` unchanged, exactly when all three hold. |
| Validator.ValidateTimestampFormat | models/validator.py:27-31 | Succeeds with the value unchanged exactly when it is `timestampWidth` digits. Otherwise the error names the field and the value. |
| Validator.CheckDatesOrder | models/validator.py:34-40 | Rejects exactly when both dates are non-empty and the end is less than the start. Otherwise returns the parameters unchanged. |
| Validator.FieldErrors | models/validator.py:15-31 | At most one error per field validator, and none exactly when all three fields are valid. |
| Validator.FieldErrorsInOrder | models/validator.py:15-31 | The field errors come in field order. An entity error comes first exactly when the entities are unacceptable. |
| Validator.FieldErrorsFormats | models/validator.py:27-31 | A date's format error appears exactly when that date is not a timestamp. |
| Validator.Validate | models/validator.py:6-40 | A validated request carries exactly the given fields, with the declared defaults. A rejected one carries one to three errors. |
| Validator.ValidateErrorOrder | models/validator.py:15-40 | Errors come in validator order. The date-order error is reported only alone, that is, only when every field validator passed. |
| Validator.ValidateEntityErrorCause | models/validator.py:16-24 | A rejection starts with an entity error exactly when the entities are unacceptable. |
| Validator.ValidateFormatErrorCauses | models/validator.py:27-31 | A rejection names a date's format exactly when that date is not a timestamp. |
| Validator.ValidateAcceptsExactly | models/validator.py:15-40 | Acceptance holds exactly when: the entities are acceptable; both dates are timestamps; the number the start date's digits spell is at most the end date's. |
| Validator.MessageSignature | models/validator.py:18-39 | Three character positions of each message tell which check raised it. |
| Validator.MessagesIdentifyErrors | models/validator.py:18-39 | Two errors have the same message exactly when they are the same error. |
| Validator.EqualDatesAccepted | models/validator.py:38 | Equal valid dates with acceptable entities are accepted. |
| Validator.NoEntitiesAccepted | models/validator.py:16-24 | An empty entity list passes entity validation. |
| Validator.AcceptsValidInput | tests/test_validator.py:26-36 | `["Q1", "Q2"]`, 20230101 to 20231231, `no_bots` set: accepted unchanged, with the other fields at their defaults. |
| Validator.RejectsDuplicates | tests/test_validator.py:38-47 | `["Q1", "Q1"]` is rejected with the duplicates error alone. |
| Validator.RejectsTooManyEntities | tests/test_validator.py:49-55 | Four ids against a limit of three are rejected with the limit error. |
| Validator.RejectsInvalidEntityId | tests/test_validator.py:58-60 | `["Q1", "X2"]` is rejected, naming `X2`. |
| Validator.RejectsInvalidStartDate | tests/test_validator.py:62-65 | A dashed start date is rejected with the start-date format error alone. |
| Validator.RejectsInvalidEndDate | tests/test_validator.py:67-70 | A dashed end date is rejected with the end-date format error alone. |
| Validator.RejectsStartAfterEnd | tests/test_validator.py:72-77 | A start after the end is rejected with the date-order error alone. |
| Validator.AcceptsEqualDates | tests/test_validator.py:79-82 | Equal start and end dates are accepted. |

## Left out

- models/read.py (the MySQL query, credentials and SQL text) and main.py (the
  FastAPI route) are database and HTTP I/O; they are not part of this model.
  Namespace filtering, bot exclusion and the recent-changes join all happen
  inside SQL. main.py's inline aggregation loop is an older copy of
  `Aggregator.aggregate` and is not modelled a second time.
- `exclude_users` is validated as a list of strings but not used by any query.
  No username filter is modelled.
- pydantic's coercion and type checks are not modelled:
  - string `rev_page` and `rev_user` accepted as integers;
  - dropping the extra `entity_id` key in `Revision(**row)`, modelled as `ToRevision`;
  - rejecting a non-string `entities_string`.

  Fields carry their declared types instead.
- pydantic wraps each message as "Value error, ..." inside a `ValidationError`.
  The model keeps the raised errors, in order, as values, with their message
  text in `Validator.Message`.
- pydantic's order of work is modelled rather than its code: every field
  validator runs and contributes at most one error, and the model validator runs
  only when no field validator failed. The pydantic library itself is not part
  of this model.
- Python's `re` is not modelled. The grammars are exact matches over ASCII digits.
  `$` also matches before a trailing newline, and `\d` also matches non-ASCII
  Unicode digits; neither quirk is modelled.
- `int()` also accepts surrounding whitespace, a `+` sign and `_` separators.
  `Strings.ParseInt` accepts only an optional `-` followed by digits, which is
  all that `str(int)` produces, so the user-key round trip is unaffected.
- `str.strip()` uses the whitespace set of `str.isspace` as an explicit list of
  characters (`Strings.IsSpace`).
- `LOGLEVEL` (config.py:4) and logging are left out.
- In-place update of the nested `users` dict: each step replaces the page's
  entry by a new value (`Put` on `PageEntry.users`), not a dict mutated in
  place. The result is the same because no other reference to it exists.
- The bodies of the two aggregation loops are helper methods (`AddRevision`,
  `SummariseEntry`) called from the loops. This keeps each proof obligation small.
- A row is a `Dict[str, str | int]`, but it is modelled as a complete
  `RevisionRow` record. Two error paths are therefore not modelled:
  - A row missing a key makes the source raise. A missing `rev_page` or
    `rev_user` fails at models/aggregator.py:16-17. A missing `entity_id` on a
    page's first row fails at line 22. A missing `rev_timestamp` on a later row
    fails at line 30. A missing required `Revision` field fails the pydantic
    construction at lines 50-51.
  - An `rc_patrolled` key that is present with value `None`, which the LEFT JOIN
    in models/read.py yields, is refused by the declared `str | int` value type.
    `rcPatrolled == None` in `RevisionRow` stands for an absent key only.
- `revision.copy()` is modelled by storing the row value. Rows are values here,
  so there is no aliasing to model.
- The module-level constants the validator reads are passed as a `Settings`
  value. Tests patching `config` (a maximum of 3, `^Q\d+$`, eight-digit dates)
  become `Validator.TEST_SETTINGS`.
