# Chat-archive pipeline, modelled in Dafny

The system turns an exported WhatsApp group transcript into a two-table SQLite
store. It then enriches and inspects that store:

- **Store** (`processing/db.py`): a `users` table with unique handles and a
  `messages` table (author, timestamp, content, nullable type). It provides
  get-or-create of a user, insertion of a message, update of a message's type
  by id, and bounded listings.
  - The transcript's `DD/MM/YYYY HH:MM` timestamps are checked the way
    `strptime` checks them and stored as `YYYY-MM-DD HH:MM:00`.
- **Splitter** (`processing/split.py`): cuts the transcript at every
  `DD/MM/YYYY HH:MM - ` marker. It drops the text before the first marker and
  pairs segment *i* with marker *i*. It then splits each segment into sender and
  content and types stickers (4) and media (5) by a text heuristic.
- **Sticker audit** (`processing/fix_stk.py`): applies the same heuristic to
  stored messages again. It reports those whose stored type already agrees and
  writes nothing.
- **Anonymizer** (`processing/anonimizer.py`): renames every user to
  "Pessoa k", with k counted in ascending id order. It runs in one transaction
  that is rolled back when an UPDATE hits the UNIQUE constraint.
- **Classifier** (`processing/async_deepseek_classifier.py`): fetches up to 273
  untagged messages and cuts each text to 200 characters. It chunks them into
  batches of 25 and sends each batch to a language model. It strips markdown
  fences from the reply and decodes it. It then walks the results, writing
  back each object that has an `id` and an integer-like `codigo`, one
  committed UPDATE at a time. A result that is a number, a boolean or null,
  or a string or array holding both keys, ends that batch's walk.
- **Dashboard** (`app.py`):
  - turns a stored type into a category label;
  - decodes the page's query parameters;
  - restores the filter selection from them when a session starts;
  - writes the current selection back to the URL;
  - filters the rows.

## Modules

- `common.dfy`: `Option` and Python's `[:n]`.
- `strings.dfy`: the Python string operations the scripts use: `in`/`find`,
  `endswith`, `replace(pat, "")`, `strip()`, `str(int)`, `int(str)` and string
  order.
- `calendar.dfy`: `strptime` for `%d/%m/%Y %H:%M` and `%Y-%m-%d`, and
  `strftime` of the stored form.
- `heuristic.dfy`: the sticker/media heuristic shared by the splitter and the
  audit.
- `store.dfy`:
  - the tables as values, with the functions that specify each SQL statement;
  - the `Database` class, whose fields are the tables and whose methods are the
    db.py operations.
- `transcript.dfy`, `audit.dfy`, `anonymizer.dfy`, `classifier.dfy`: the four
  scripts. Each is a method over a `Database`, specified by a function on the
  tables.
- `dashboard.dfy`: label mapping, query parameters, the `Page` class
  (session state and URL), and the row filter.

## Behaviour of the code worth knowing

- **Pseudonym text.** The anonymizer names user k `f"Pessoa {index}"`
  (processing/anonimizer.py:22), so the handles become "Pessoa 1",
  "Pessoa 2", and so on.
- **Segments without a separator.** The splitter only skips a segment that
  holds no ':' at all (processing/split.py:14). A segment with a ':' but no
  ": " makes `s.split(": ")[1]` raise IndexError (processing/split.py:16).
  Nothing catches it, so the run ends there; rows stored before it stay
  committed.
- **Content extraction.** The content is `s.split(": ")[1][:-1]`
  (processing/split.py:16): the text between the first and second ": ",
  minus its last character whatever that character is. Nothing is stripped
  before the emptiness test at processing/split.py:18.
- **Media placeholder.** The placeholder literal at processing/split.py:24
  and processing/fix_stk.py:10 is "<MÃ­dia oculta>", the UTF-8 bytes of
  "<Mídia oculta>" read back as Latin-1. A line ending in the properly
  decoded "<Mídia oculta>" (or "<mídia oculta>") is left untyped.
- **Classifier codes.** `int(result["codigo"])`
  (processing/async_deepseek_classifier.py:143) is written without a range
  check: `"99"` is written as 99, and `"09"` as 9.
- **Results that end a batch.** For a result that is not a JSON object, the
  test `"id" in result` (processing/async_deepseek_classifier.py:142) either
  raises or looks for substrings or list elements. Whenever the pass raises,
  the handler's `result.get('id')` (line 145) raises AttributeError in turn.
  That leaves the loop for the outer `except` (line 149), and the batch's
  later results are never applied.
- **Empty content.** `store_message` (processing/db.py:78-116) does not
  refuse empty content. Only the splitter's own test at
  processing/split.py:18-19 skips it.

## Model

| member | source | states |
|---|---|---|
| Strings.Find | processing/split.py:14 | `s.find(pat)`: a found index is an occurrence with none before it; None means no occurrence anywhere |
| Strings.RemoveFenceComplete | processing/async_deepseek_classifier.py:112 | after `RemoveAll`, the model of `replace("```", "")`, no "```" is left anywhere in the text |
| Strings.RemoveAllKeepsPrefix | processing/async_deepseek_classifier.py:112 | `replace` of a pattern starting with a backtick keeps a backtick-free prefix unchanged in front of the rest: removal drops only the pattern |
| Strings.StripSlice | processing/async_deepseek_classifier.py:112 | `Strip`, the model of `strip()`, returns a slice of its input with only whitespace before and after it |
| Strings.StripKeepsAbsence | processing/async_deepseek_classifier.py:112 | stripping cannot create an occurrence of a pattern |
| Strings.ParseIntToString | processing/async_deepseek_classifier.py:143 | `ParseInt` (`int()` on a string) of `IntToString` (`str()`) gives back every integer, negative ones included |
| Strings.NatToStringValue | processing/anonimizer.py:22 | `str(n)` spells n in decimal |
| Calendar.DaysInMonth | processing/db.py:88 | 28 to 31 days; February has 29 exactly in Gregorian leap years |
| Calendar.ParseTimestamp | processing/db.py:88 | whatever `strptime("%d/%m/%Y %H:%M")` accepts is an existing date and a valid time |
| Calendar.ConvertTimestamp | processing/db.py:87-95 | on a timestamp written with ASCII digits, a conversion succeeds exactly when strptime succeeds, and yields 19 characters ending in ":00" |
| Calendar.ParseFixedWidth | processing/db.py:88 | on "DD/MM/YYYY HH:MM" digits strptime reads exactly those digit groups, and fails exactly when the calendar refuses them |
| Calendar.FormatIsoOfFields | processing/db.py:91 | `FormatIso`, the stored form, spells the same digits as "YYYY-MM-DD HH:MM:00" |
| Calendar.ConvertRearranges | processing/db.py:87-91 | a fixed-width timestamp converts iff its fields form a valid date-time, and then to the same day, month, year, hour and minute rearranged with seconds 00 |
| Calendar.ConvertRefusesApril31 | processing/db.py:88-95 | 31/04 is refused |
| Calendar.ConvertRefusesFeb29OfCommonYear | processing/db.py:88-95 | 29/02 of a common year is refused |
| Calendar.ConvertRefusesHour24 | processing/db.py:88-95 | hour 24 is refused |
| Calendar.ConvertLeapDay | processing/db.py:88-91 | 29/02/2024 23:59 is stored as 2024-02-29 23:59:00 |
| Calendar.RefusedExample | processing/db.py:93-95 | any fixed-width timestamp whose fields are not a calendar date-time converts to nothing |
| Calendar.IsoOrderIsChronological | processing/db.py:91 | comparing two stored timestamps as text is comparing them in time, and equal text means the same instant |
| Calendar.ParseDate | app.py:80 | whatever `strptime("%Y-%m-%d")` accepts is an existing date |
| Calendar.DateRoundTrip | app.py:168-169 | a date written with `FormatDate` (`strftime('%Y-%m-%d')`) reads back (line 80) as the same date |
| Heuristic.Classify | processing/split.py:21-25 | type 4 iff "STK" and ".webp" both occur; type 5 iff not a sticker and the text ends with either placeholder; no type otherwise |
| Heuristic.StickerBeforeMedia | processing/fix_stk.py:8-11 | a sticker line that also ends in the attachment placeholder gets 4: the sticker rule wins |
| Heuristic.StickerInContext | processing/split.py:22-23 | any text around a sticker file name stays a sticker |
| Heuristic.MediaSuffix | processing/split.py:24-25 | a non-sticker text ending in either placeholder gets 5 |
| Heuristic.ProperlyDecodedPlaceholderUntagged | processing/split.py:24 | "<Mídia oculta>" spelled with a real "í" gets no type |
| Heuristic.WebpAloneIsNotSticker | processing/split.py:22 | ".webp" without "STK" is not a sticker |
| Store.HandleIndex | processing/db.py:102 | `SELECT id FROM users WHERE ssn = ?` finds a row with that handle, or none exists |
| Store.RegisterSound | processing/db.py:100-103 | get-or-create keeps the tables well formed (unique handles, ordered ids), and the returned id holds the handle |
| Store.HandleIndexUnique | processing/db.py:13 | under the UNIQUE constraint the lookup of row i's handle finds row i |
| Store.RegisterTwice | processing/db.py:100-103 | registering the same handle again gives the same id and adds no row |
| Store.StoreInto | processing/db.py:86-95 | a refused timestamp is reported and changes nothing; otherwise the tables stay well formed |
| Store.StoreIntoAppends | processing/db.py:97-114 | an accepted timestamp registers the author and appends exactly one message with a fresh id, that author, the converted timestamp, the content and the type |
| Store.AppendMessageWellFormed | processing/db.py:109-114 | a row with the next id and an existing author keeps the tables well formed, and its id was not in use |
| Store.RefusedTimestampStoresNothing | processing/db.py:93-95 | a refused timestamp adds neither a user nor a message |
| Store.SetType | processing/db.py:67 | only the type of rows with the given id changes; every other row and field is unchanged |
| Store.SetTypeMissing | processing/db.py:70-71 | with no row of that id the UPDATE changes nothing |
| Store.SetTypeTwice | processing/db.py:67 | the later of two updates of one id wins |
| Store.UpdateStatusOf | processing/db.py:65-76 | the warning case is exactly a missing id; a value SQLite cannot bind is an overflow |
| Store.UpdateType | processing/db.py:57-76 | users and counters are untouched and no row is added or removed; when a row matches and both values fit 64 bits, exactly the messages with that id get the new type and every other row and field is unchanged; otherwise nothing changes |
| Store.UpdateTypeWellFormed | processing/db.py:67 | an update keeps the tables well formed |
| Store.Limited | processing/db.py:41 | `LIMIT n` keeps the first min(n, len) rows in order; a negative limit keeps all |
| Store.UntaggedRows | processing/db.py:41 | every listed row is the id and content of a message whose type is NULL |
| Store.UntaggedIdsAscending | processing/db.py:41 | on well-formed tables the listed ids are strictly ascending (rowid order), so `LIMIT` keeps the oldest untagged messages |
| Store.UntaggedRowsComplete | processing/db.py:41 | every message with a NULL type is listed |
| Store.UntaggedAfterSetType | processing/db.py:41 | after a type is set, the untagged listing is the old one without that id |
| Store.ListedRows | processing/db.py:54 | one (id, content, type) row per message, in rowid order |
| Store.Rename | processing/anonimizer.py:28 | `UPDATE users SET ssn = ? WHERE id = ?` changes the handle of that id's rows only |
| Store.RenameWellFormed | processing/anonimizer.py:28 | a rename that does not conflict keeps handles unique and ids unchanged |
| Store.Database.Connect | processing/db.py:6 | a connection to a file holding well-formed tables, or to a file without tables |
| Store.Database.Setup | processing/db.py:5-29 | afterwards the tables exist, and existing tables keep every row |
| Store.Database.GetUntaggedMessages | processing/db.py:31-42 | exactly `Limited(UntaggedRows(messages), limit)`: at most `limit` rows, each the (id, content) of a message with NULL type, with strictly ascending ids |
| Store.Database.GetMessages | processing/db.py:44-55 | the first `limit` messages as (id, content, type), in rowid order |
| Store.Database.UpdateMessageType | processing/db.py:57-76 | the new tables are `UpdateType` of the old, and the status says whether a row matched |
| Store.Database.StoreMessage | processing/db.py:78-116 | the new tables and the outcome are exactly `StoreInto` of the old tables |
| Store.Database.GetOrCreateUser | processing/db.py:100-103 | the users table and the id are `Register` of the old table; messages are untouched |
| Store.Database.InsertMessage | processing/db.py:109-114 | exactly one message row is appended, with the next id |
| Store.Database.SelectUserIds | processing/anonimizer.py:13-14 | the ids of all users, strictly ascending |
| Store.Database.RenameUser | processing/anonimizer.py:28 | a conflicting rename fails and changes nothing; otherwise only that handle changes |
| Store.Database.Rollback | processing/anonimizer.py:36 | the tables return to the state the transaction began in |
| Transcript.ScanFrom | processing/split.py:8 | the pieces are one more than the markers, and every marker matches the pattern |
| Transcript.FindAllFrom | processing/split.py:9 | every match matches the pattern |
| Transcript.ScanJoin | processing/split.py:8 | pieces and markers interleaved give back the text |
| Transcript.ScanMarkersAreFindAll | processing/split.py:8-9 | `re.split` and `re.findall` find the same markers |
| Transcript.ScanPiecesMarkerFree | processing/split.py:8 | no piece contains a marker |
| Transcript.SplitText | processing/split.py:8-9 | pieces = markers + 1, the markers are the `findall` result, the join is the text, and no piece holds a marker |
| Transcript.Segments | processing/split.py:8-10 | after `pop(0)` there is one segment per marker |
| Transcript.DropLast | processing/split.py:16 | `[:-1]` drops exactly the last character |
| Transcript.Extract | processing/split.py:14-19 | no ':' means skipped; a ':' without ": " means the IndexError; accepted content is never empty |
| Transcript.ExtractAuthored | processing/split.py:15-16 | an accepted segment starts with sender, ": ", content; the sender is the text before the first ": "; the content is the text from there to the next ": " (or the end) without its last character, so neither holds ": "; content is non-empty |
| Transcript.ExtractLine | processing/split.py:15-16 | "sender: text\n" yields that sender and the text without its last character |
| Transcript.ExtractTwoSeparators | processing/split.py:15-16 | "sender: x: y" yields that sender and x without its last character; the rest of the line is dropped |
| Transcript.StampOf | processing/split.py:27 | the timestamp passed on is the marker's first 16 characters, a fixed-width "DD/MM/YYYY HH:MM" |
| Transcript.Step | processing/split.py:13-28 | one iteration: nothing after a crash; an IndexError crashes; an accepted segment appends exactly its call; other segments change nothing |
| Transcript.ExtractAll | processing/split.py:13-16 | one extraction per segment, in order |
| Transcript.PlanOf | processing/split.py:12-28 | at most one call per segment |
| Transcript.PlanRecordTyped | processing/split.py:18-25 | every call has non-empty content typed by the heuristic |
| Transcript.PlanRecordsFromAuthored | processing/split.py:12-28 | every call comes from an accepted segment paired with its own marker |
| Transcript.PlanStaysCrashed | processing/split.py:16 | after the IndexError no later segment is stored |
| Transcript.PlanAdvance | processing/split.py:13-28 | the next segment crashes the loop, appends its call, or is skipped, case by case |
| Transcript.TranscriptPlan | processing/split.py:8-28 | every stored timestamp is a fixed-width "DD/MM/YYYY HH:MM" |
| Transcript.StoreAll | processing/split.py:28 | storing the calls in order keeps the tables well formed |
| Transcript.StoreAllSnoc | processing/split.py:28 | one more call is one more `store_message` |
| Transcript.StoreSegments | processing/split.py:12-28 | the store afterwards is the calls of the plan applied in file order, and the crash flag is the plan's |
| Transcript.RunSplit | processing/split.py:5-28 | the tables exist afterwards; the store is the transcript's plan applied in order; calls before a crash stay |
| Audit.Reported | processing/fix_stk.py:6-14 | at most one report per fetched row |
| Audit.ReportedConcat | processing/fix_stk.py:6-14 | reports come in fetch order |
| Audit.ReportedSound | processing/fix_stk.py:7-14 | every report is a fetched row that is `Confirmed`: its heuristic type is non-null and equals its stored type |
| Audit.ReportedComplete | processing/fix_stk.py:7-14 | every `Confirmed` row is reported |
| Audit.ReportedTypes | processing/fix_stk.py:7-13 | only types 4 and 5 are reported; 4 exactly for stickers |
| Audit.AuditRows | processing/fix_stk.py:6-15 | the loop returns exactly the reports of its rows |
| Audit.RunAudit | processing/fix_stk.py:3-15 | the tables are unchanged; the reports are those of the first 50000 messages, so at most 50000 |
| Anonymizer.Pseudonym | processing/anonimizer.py:22 | every pseudonym starts with "Pessoa " |
| Anonymizer.PseudonymInjective | processing/anonimizer.py:22 | different indexes give different pseudonyms |
| Anonymizer.IdsDistinct | processing/db.py:12 | AUTOINCREMENT ids identify rows |
| Anonymizer.RankByIds | processing/anonimizer.py:13 | the user at position m has exactly m users with smaller ids, so it is the (m+1)-th in id order |
| Anonymizer.RenameStepConflict | processing/anonimizer.py:28 | the UPDATE giving user j its pseudonym fails iff a later user already holds that pseudonym, so `Collides` is the failure of some UPDATE |
| Anonymizer.RenameStepResult | processing/anonimizer.py:28 | without a conflict, the UPDATE renames exactly user j |
| Anonymizer.RelabelHandles | processing/anonimizer.py:18-23 | `Relabel`: the user with the k-th smallest id gets "Pessoa k" with its id kept, and all handles are distinct |
| Anonymizer.RelabelHandleSet | processing/anonimizer.py:18-23 | the handles afterwards are exactly "Pessoa 1" to "Pessoa n" |
| Anonymizer.RelabelIdempotent | processing/anonimizer.py:13-31 | a second run meets no conflict and leaves the table identical |
| Anonymizer.HeldPseudonymCollides | processing/anonimizer.py:28-36 | a later user already called "Pessoa 1" makes the run fail |
| Anonymizer.BuildAssignments | processing/anonimizer.py:18-23 | one ("Pessoa k", id) pair per id, numbered from 1 in order |
| Anonymizer.Anonymize | processing/anonimizer.py:3-38 | success iff the tables exist and no UPDATE conflicts; on success the users are relabelled, otherwise the handles are the original ones; messages and counters are never touched |
| Classifier.ChunkList | processing/async_deepseek_classifier.py:155-158 | every chunk is non-empty and at most `size` long; all but the last are exactly `size` long |
| Classifier.ChunkCount | processing/async_deepseek_classifier.py:157 | there are ceil(n / size) chunks |
| Classifier.FlattenChunks | processing/async_deepseek_classifier.py:155-158 | the chunks put back together are the input |
| Classifier.ChunkAt | processing/async_deepseek_classifier.py:157-158 | chunk i is `data[i*size : i*size+size]` |
| Classifier.Format | processing/async_deepseek_classifier.py:177 | ids kept in order; each text is its first min(len, 200) characters |
| Classifier.Clean | processing/async_deepseek_classifier.py:112 | no whitespace is left at either end; `Classifier.CleanRemovesFences` shows that the fences go and `Classifier.CleanKeepsPayload` that what they wrap stays |
| Classifier.CleanRemovesFences | processing/async_deepseek_classifier.py:112 | no "```json" and no "```" is left |
| Classifier.CleanKeepsPayload | processing/async_deepseek_classifier.py:111-112 | a backtick-free payload, bare or wrapped in "```json" … "```", comes out as the payload stripped of outer whitespace: cleaning keeps what the fences wrap |
| Classifier.ClassifyBatch | processing/async_deepseek_classifier.py:91-116 | a failed call gives no results; otherwise the results are none or exactly the decoded list of the cleaned reply |
| Classifier.Requested | processing/async_deepseek_classifier.py:142-143 | an update is asked for iff the result is an object with "id" and "codigo", a numeric id and a code that `Code` (`int()`) accepts; the code is not range-checked |
| Classifier.LeadingZeroCode | processing/async_deepseek_classifier.py:143 | "0" followed by a number's digits is read as that number ("09" is 9) |
| Classifier.ApplyRequestRows | processing/async_deepseek_classifier.py:143 | one update changes only the types of rows with its id |
| Classifier.ApplyRequestsRows | processing/async_deepseek_classifier.py:139-145 | `ApplyRequests`, the updates committed in order, adds, removes or moves no row and changes no field but the type |
| Classifier.ApplyRequestsWellFormed | processing/async_deepseek_classifier.py:139-145 | the writes keep the tables well formed |
| Classifier.ApplyRequestsConcat | processing/async_deepseek_classifier.py:139-145 | results are applied one after another, each committed on its own |
| Classifier.ApplyAllConcat | processing/async_deepseek_classifier.py:183-192 | `ApplyAll` of two lists of results applied in turn equals it of their concatenation |
| Classifier.SkippedEntry | processing/async_deepseek_classifier.py:140-145 | a result that asks for no update and does not raise out of the loop is skipped: earlier updates stay and later ones still run |
| Classifier.Reached | processing/async_deepseek_classifier.py:139-149 | the results the loop reaches are the longest prefix with no result whose pass raises out of the loop; when it stops early, the next result is one that raises |
| Classifier.AbortingEntry | processing/async_deepseek_classifier.py:140-149 | a number, boolean or null result, or a string or array holding both keys, ends the batch: earlier updates stay and no later one runs |
| Classifier.NumberEndsBatch | processing/async_deepseek_classifier.py:140-149 | `[{"id": 1, "codigo": 9}, 7, {"id": 2, "codigo": 3}]` updates message 1 only |
| Classifier.UnnamedRowKeepsType | processing/async_deepseek_classifier.py:139-145 | a message that no result names keeps its type |
| Classifier.FailedCallWritesNothing | processing/async_deepseek_classifier.py:112-116 | a failed model call or an undecodable reply writes nothing |
| Classifier.ApplyResult | processing/async_deepseek_classifier.py:140-145 | one pass of the loop: it raises out of the loop exactly for an aborting result; otherwise the store is `ApplyRequest` of the old store |
| Classifier.ApplyResults | processing/async_deepseek_classifier.py:139-149 | the store afterwards is the reached results applied in order; it reports an abort iff some result ended the loop early |
| Classifier.ProcessBatch | processing/async_deepseek_classifier.py:118-153 | an empty batch, a failed call or an empty reply writes nothing and opens no tables; otherwise the results are applied in order up to the first that raises out of the loop |
| Classifier.BatchBounds | processing/async_deepseek_classifier.py:166-180 | at most 11 batches, each of 1 to 25 items |
| Classifier.RunClassifier | processing/async_deepseek_classifier.py:161-194 | the store afterwards is every batch's reached results applied, in batch order |
| Dashboard.MappedLabelShape | app.py:10-22 | exactly codes 1 to 11 have a mapped label, and none is "Untagged" or starts with "Type " |
| Dashboard.MappedLabelInjective | app.py:10-22 | no two codes share a mapped label |
| Dashboard.TypeLabelCases | app.py:46-48 | `TypeLabel`: "Untagged" exactly for -1; the mapped label for 1 to 11; otherwise "Type " and the decimal code |
| Dashboard.TypeLabelInjective | app.py:46-48 | different codes get different labels |
| Dashboard.LabelSelectsCode | app.py:45-49 | a row shows code c's label iff its filled type is c; NULL and -1 are both "Untagged" |
| Dashboard.ParamList | app.py:69-72 | absent gives [], a single value a singleton, a list itself |
| Dashboard.ParamBool | app.py:74-76 | absent gives the default, a string gives whether it lowercases to "true", a list raises (a list arises only in the list reading of `Dashboard.ParamList`) |
| Dashboard.ParamDate | app.py:78-81 | absent or unparseable gives the default, a parseable string its date, a list raises (a list arises only in the list reading of `Dashboard.ParamList`) |
| Dashboard.BoolTextRoundTrip | app.py:166-172 | `str(b).lower()` reads back as b |
| Dashboard.RestoredList | app.py:107-118 | `Restored` picks the full list when "all" is on or the URL list is empty, else the URL list |
| Dashboard.RestoredFails | app.py:94-118 | `Restored` fails exactly when a flag or date key holds a list; with string-valued query parameters it never fails |
| Dashboard.EmptyUrlRestoresDefaults | app.py:94-118 | an empty URL gives the whole span with everything selected |
| Dashboard.RangeOf | app.py:129-139 | the full span when off; the picked pair; one picked day twice; an empty pick raises |
| Dashboard.KeepAvailable | app.py:150 | the default is no longer than the old selection |
| Dashboard.KeepAvailableMembers | app.py:150 | an item is kept iff it was selected and is still available |
| Dashboard.KeepAvailableConcat | app.py:150 | kept items keep their order |
| Dashboard.KeepAvailableAll | app.py:150 | a selection of available items is kept whole |
| Dashboard.KeepAvailableIdempotent | app.py:150 | filtering the default again changes nothing |
| Dashboard.UrlParams | app.py:166-179 | the five flag and date keys are always written; each list is written iff its "select all" is off |
| Dashboard.SyncedFlags | app.py:166-172 | the three flags read back as written |
| Dashboard.SyncedDates | app.py:168-169 | both dates read back as written |
| Dashboard.RestoreAfterSync | app.py:166-179 | the written URL restores the rerun's flags, dates and (non-empty) lists |
| Dashboard.EmptiedUsersComeBackFull | app.py:175-176 | an emptied user list is restored as every user |
| Dashboard.Page.constructor | app.py:94 | a new session is not initialized and holds the URL it was opened on |
| Dashboard.Page.RestoreFromUrl | app.py:94-118 | only the first rerun restores; it succeeds iff no read raises, and then the session is `Restored` of the URL |
| Dashboard.Page.SyncUrl | app.py:181-182 | the URL afterwards is exactly the rerun's parameters; the session is untouched |
| Dashboard.Filter | app.py:187-193 | the filtered table is no longer than the table |
| Dashboard.FilterMembers | app.py:187-193 | a row is shown iff it is in the table and `Shown` holds: its date is in range, its user and its label selected |
| Dashboard.FilterConcat | app.py:193 | filtering keeps the table's order |
| Dashboard.FilterKeepsAll | app.py:187-192 | when every row passes the mask nothing is hidden |
| Dashboard.SingleLabelWindow | app.py:191 | selecting one code's label shows exactly that code's rows in range |

## Left out

- File reading, `print`, the clock and the OpenAI client are left out. The
  transcript text, the model's reply (`respond`) and `json.loads` (`decode`)
  are parameters.
- `ThreadPoolExecutor` is left out. The classifier's batches are applied one
  after another in batch order, which is one of the interleavings the pool
  allows.
- The SQLite engine is replaced by sequences:
  - Rowid order stands for the unspecified row order of an unordered SELECT.
  - Transactions are reduced to the effects the scripts rely on: every
    db.py write is committed at once, and the anonymizer rolls back as a whole.
- `PRAGMA foreign_keys` is taken as enforced: the well-formedness invariant
  says every message's author exists.
- Streamlit widgets, plotly charts and pandas are left out. So are the
  `load_data` query and its projection into dashboard rows (the join, `ORDER
  BY`, `fillna("Unknown")`, and the empty frame on error).
- The dashboard's date defaults (`min`/`max` of the timestamps, or today) are
  inputs: `Defaults` holds them.
- Dashboard.ParamList: a repeated query key is read as the list that was
  written. Streamlit's `st.query_params[key]` returns only the last value of a
  repeated key, and that reading is not modelled.
- Dashboard.RestoreAfterSync: relies on that same reading of lists, so it
  states more than a real Streamlit URL round trip gives for lists of two or
  more items. It also relies on the four-digit `%Y` of `Calendar.FormatDate`.
- Dashboard.Page.RestoreFromUrl: when a read raises, its contract does not
  state which session keys were already written. The body writes them one by
  one as the script does.
- Classifier.Requested: does not cover every input.
  - A JSON float code (which `int()` truncates) and a boolean code or id (which
    Python treats as 0 or 1) are treated as unusable.
  - A float id such as `5.0` is treated as unusable, though SQLite compares it
    equal to the integer 5 and updates that row.
  - A string id is treated as unusable, though SQLite's integer affinity would
    match it.
- Classifier.ClassifyBatch: `decode` only returns lists. A reply that decodes
  to an object, a string, a number or a boolean is taken as undecodable. The
  script writes nothing for those either (its loop walks a dict's keys or a
  string's characters, or raises), but it still runs `setup_database` when the
  value is truthy, and the model does not.
- Strings.ParseIntToString: `int()` is modelled with whitespace, an optional
  sign and ASCII digits. Underscores and non-ASCII digits are not accepted.
- Calendar.ConvertTimestamp: digits are ASCII only. `strptime`'s `%d`, `%m`,
  `%Y`, `%H` and `%M` also accept other Unicode decimal digits (Arabic-Indic
  digits, say). Such a timestamp converts in the script and is refused here.
  `Calendar.ParseTimestamp` and `Calendar.ParseDate` make the same
  restriction.
- Transcript.ScanFrom: the marker's `\d` is ASCII only here. Python's `re`
  also matches other Unicode decimal digits, so a marker written with them
  splits the script's transcript and not the model's.
- Calendar.FormatIso: `strftime('%Y')` is taken to write the year with four
  digits, zero-padded. CPython on glibc does so only from 3.12.5 and 3.13; older
  versions write a year below 1000 with fewer digits.
- Calendar.FormatDate: makes the same four-digit assumption for `%Y`.
- Calendar.IsoOrderIsChronological: relies on that four-digit year; for years
  below 1000 on older Pythons the text order of stored stamps is not their
  time order.
- Calendar.DateRoundTrip: relies on that four-digit year as well; on older
  Pythons a year below 1000 does not read back through `%Y-%m-%d`.
- Classifier.ChunkList: requires a chunk size of at least 1. `range` with step 0
  raises, and the script only ever uses 25.
- Store.UpdateType: a code too large for 64 bits raises OverflowError. The
  model reports this as `Overflow` and changes nothing. The per-row handler of
  the classifier catches it.
- `setup_database`'s connection object and `close()` are not modelled. A
  `Database` is the connection's view of the file.
