# mocking-box, verified

mocking-box replays HTTP requests against an old and a new backend and decides from
outside whether the two behave alike: by their responses and by the database row changes
each request committed. This project models the parts that decision rests on and proves
what they promise.

The model has three parts.

* **The diff engine** (`Values`, `Json`, `Norm`, `Glob`, `Trees`, `Sorting`, `Arrays`,
  `SortRules`, `JsonDiff`, `Responses`, `Writesets`, `WritesetDiff`). Values in normal form
  have a canonical text (sections 4, 5 and 7 of RFC 8259, with the members of an object in
  key order). That text is proved to parse to the value it was printed from and to be
  injective, which makes every comparison and every sort of the engine exact. On it rest the
  noise and sort rules, the structural diff, the normal form of a write-set and the diff of
  two write-sets. Below it lie numbers and text: float64 as a number of units of 2^-1074 that
  53 bits hold, its shortest decimal digits, and UTF-8 as Go reads it (`Arith`, `Doubles`,
  `Decimals`, `Numbers`, `Utf8`, `Strings`).
* **Attribution** (`Polling`, `BinlogCapture`, `PgCapture`, `Windows`, `Rounds`, `Proxy`,
  `Recorder`). The two change sources are classes whose methods are the steps of the pump and
  of the requests. `TakeWindow` polls against an environment that delivers events before and
  after every look at the source. What a source does is a function of what is delivered to
  it, so its outcome, its death and its windows are stated over deliveries. `Windows` proves
  what any sequence of such steps conserves and how the two sources differ; `Rounds` says,
  for changes with an owner, when each request is charged with exactly its own; `Proxy` takes
  the steps of any number of handlers and the pump in every order.
* **Record, pair, replay** (`Firing`, `SourceRuns`, `Replay`, `Golden`, `GoldenText`,
  `GoldenFile`, `GoldenVerdict`, `Timestamps`, `Sniff`, `Sampling`, `Mirror`). Running a
  corpus against both stacks or a golden against one, the golden file there and back, pairing
  of passively captured messages, sampling, and TCP segmentation. A run of requests is
  followed at both sources, so that a verdict is about what was delivered to them.

Methods follow the source where it changes state: the capture classes, the recorder, the
pairer, the sampling output, the flow of the simulator, the report lists and the loops over
maps. Each is proved against a function of its inputs or of the state before, and the
properties are lemmas about these functions. What such a function computes is stated apart
from it, in predicates over its inputs and its result: which row stands before and which
after, what an array is sorted by, which patterns cover a column, what an entry holds.

## Where the code does less than it is read to do

Each of these is an exact condition, and mostly a concrete input besides.

* A column with the text `<absent>` hides a missing column (`AbsentHides`; the exact meaning
  of an empty report with such columns is `DiffExact`).
* A report does not carry the extra elements of a longer new array, so it rebuilds the new
  value exactly if no array grows (`PatchExact`).
* The README of mocking-box says numbers compare scale-insensitively. Decimal columns of
  MySQL do (`ScaleInvisible`), but integral decimals wrap to 64 bits and other decimals
  compare by the float64 next to them, so long ones that differ may compare equal
  (`DecimalsCompare`, `LongDecimalsCollide`); uint64 values wrap when compared with signed
  ones (`UnsignedCompare`).
* It also says text compares byte-exact. Well-formed text does (`WellFormedApart`); bytes
  that are not UTF-8 all look alike, and a text may spell out another column's base64
  (`BytesCompare`, `BrokenBytesCollide`).
* A noise pattern with a schema in it never covers the column it spells out
  (`QualifiedPattern`), and a key with a dot in it cannot be named without stars
  (`DottedKey`).
* Sorting arrays is idempotent exactly if no rule sees an index below an array that is
  sorted (`SortIdempotent`, `IndexRule`).
* A request is charged with exactly its own changes only if they arrive in time: for MySQL
  between the previous hand-off and its own, for PostgreSQL between its opening and its
  hand-off, and no others' there (`ChargedExactly`, `OwnCharges`). Where they do, its verdict
  is on the request itself (`OwnVerdict`). So changes that arrive between windows go to the
  next MySQL request and are dropped by PostgreSQL, and what a failed call changes goes to
  whichever window it arrives in or is left over for (`FailedCallLeaks`).
* A PostgreSQL window opened in the middle of a transaction misses the rows decoded before
  (`HalfDecoded`, `WholeTransaction`).
* Integers beyond 53 bits and broken text do not survive a golden (`DecodedExact`,
  `StorageExact`, `OddBigIntegerBreaks`), and lines of 4 MiB and more cannot be read back
  (`ReadWritten`).
* Time stamps with trimmed fractions do not sort in time order (`OrderExact`,
  `WholeSecondSortsLast`); section 5.1 of RFC 3339 asks for equal widths
  (`ReadChronological`).
* Two directions of a connection whose ends both use the service port have two keys
  (`ConnKeyExact`).

## Model

| member | source | states |
|---|---|---|
| `Values.PrintInjective` | internal/diff/diff.go:107-115 | the canonical text tells any two values in normal form apart, so comparing and sorting by it is comparing values |
| `Values.PrintPrefix` | internal/diff/diff.go:107-113 | a canonical text followed by a separator is read off the front of a longer text in one way |
| `Values.FracTextInjective` | internal/diff/diff.go:48-49 | the texts of two non-integral numbers are equal only for equal numbers |
| `Values.FractionBack` | internal/diff/diff.go:107-113 | the text of a non-integral float64 reads back as that float64 |
| `Json.ParsePrinted` | internal/diff/diff.go:107-115 | the canonical text of any value parses, by the grammar of JSON, to that value, with broken text mended |
| `Json.ReadPrinted` | internal/diff/diff.go:107-115 | the same in front of anything that can follow a value |
| `Doubles.RoundNearest` | internal/diff/diff.go:48 | rounding a quotient to 53 bits gives the nearest number that fits; a tie goes to an even multiple of the unit |
| `Doubles.HoldsExact` | internal/diff/diff.go:48 | a float64 holds exactly the numbers of 53 bits times a power of two |
| `Decimals.ShortestBack` | internal/diff/diff.go:107-113 | the digits a float64 is printed with read back as that float64 |
| `Decimals.ShortestLeast` | internal/diff/diff.go:107-113 | and no fewer digits would |
| `Decimals.ShortestNearest` | internal/diff/diff.go:107-115 | among digits of that number that read back as the float, the nearest are printed |
| `Numbers.FloatInjective` | internal/diff/diff.go:55-60 | two float64s have one normal form exactly if they are the same |
| `Numbers.FloatIsInt` | internal/diff/diff.go:55-60 | a float64 has the normal form of an int64 exactly if it is that int64, at the end of the range included |
| `Norm.DecimalExact` | internal/diff/diff.go:43-49 | an integral decimal becomes the integer it is, with its sign, modulo 2^64; another one the float64 next to it, with its sign |
| `Norm.DecimalsCompare` | internal/diff/diff.go:43-49 | when decimal columns compare equal, exactly, by their values: integers modulo 2^64, other decimals by the float64 next to them, an integer and another by that float64 |
| `Norm.LongDecimalsCollide` | internal/diff/diff.go:43-49 | decimals that differ and compare equal: 2^53 and a half or a quarter, and integers 2^64 apart |
| `Norm.ScaleInvisible` | internal/diff/diff.go:44-47 | the scale of a decimal does not matter |
| `Norm.UnsignedCompare` | internal/diff/diff.go:61-78 | uint64 columns compare exactly with each other and modulo 2^64 with signed integers |
| `Norm.FloatColumnCompare` | internal/diff/diff.go:55-68 | a JSON number compares equal with an integer column exactly if it has its value |
| `Utf8.DecodeExact` | internal/diff/diff.go:107-113 | reading bytes as text yields a given well-formed text exactly from its encoding |
| `Utf8.BytesMeaning` | internal/diff/diff.go:107-113 | the encoding of a character holds its bits, six to each byte after the first |
| `Norm.Base64Injective` | internal/diff/diff.go:54 | base64 texts are equal only for equal bytes |
| `Norm.BytesCompare` | internal/diff/diff.go:50-54 | when byte columns compare equal, exactly: texts with the same characters and broken bytes, equal binary values, or a text that spells out the other's base64 |
| `Norm.StringCompare` | internal/diff/diff.go:50-54 | the same for a string column and a byte column |
| `Norm.TextsExact` | internal/diff/diff.go:50-54 | a string becomes the text it spells; bytes without control characters below the tab do, too, and others become base64 |
| `Norm.Base64Exact` | internal/diff/diff.go:54 | that base64 is four characters for three bytes, with their bits, padded at the end |
| `Norm.WellFormedApart` | internal/diff/diff.go:50-54 | well-formed text compares equal with no other text |
| `Norm.BrokenBytesCollide` | internal/diff/diff.go:50-54 | bytes that are not UTF-8 all compare equal, so a change from one to another is not seen |
| `Norm.EmbedBack` | internal/diff/diff.go:41-105 | every normal form is the one of the Go value that holds it: null, booleans, numbers, text, arrays and objects alike |
| `Norm.NormIdempotent` | internal/diff/diff.go:41-113 | normalising a normal form changes nothing, so canonical may be applied to normal forms |
| `Glob.MatchMeaning` | internal/diff/diff.go:122-146 | the matcher says yes exactly if the path can be cut into consecutive slices that the segments cover one by one |
| `Glob.PatternMeaning` | internal/diff/diff.go:122-124 | a written pattern matches exactly if its segments between dots can be laid over the path |
| `Glob.NoisyMeaning` | internal/diff/diff.go:194-205 | a key is noise exactly if some pattern of the list matches its path |
| `Glob.MatchConcat` | internal/diff/diff.go:126-146 | a pattern p followed by q matches exactly the paths that split into a p-part and a q-part |
| `Glob.RepeatedStars` | internal/diff/diff.go:126-146 | writing `**` twice in a row, anywhere, changes nothing |
| `Glob.LiteralPattern` | internal/diff/diff.go:122-146 | a pattern written out from a path without stars and dots matches that path and no other |
| `Glob.DottedKey` | internal/diff/diff.go:122-146 | no pattern without stars matches the path of a key with a dot in it |
| `Trees.StripKeeps` | internal/diff/diff.go:194-221 | a node survives exactly if no key prefix of its path matches a noise pattern, and its subtree is stripped under its own path |
| `Trees.StripCompose` | internal/diff/diff.go:194-221 | stripping by P and then by Q is stripping by P and Q together |
| `Trees.StripIdempotent` | internal/diff/diff.go:194-221 | stripping twice is stripping once |
| `Trees.NoiseExact` | internal/diff/diff.go:194-221 | two bodies strip to the same value exactly if they differ at most at or under noise keys (changed, added or removed) |
| `Sorting.StableSortSpec` | internal/diff/diff.go:185 | the sort is a sorted permutation that keeps the order of elements with equal keys |
| `Sorting.StableSortEqual` | internal/diff/diff.go:185 | two sequences sort to the same one exactly if each key has the same elements in the same order |
| `Sorting.SortedPermutationUnique` | internal/diff/diff.go:420 | with a key that tells elements apart a multiset has one sorted arrangement, whatever the algorithm |
| `Arrays.RuleForExact` | internal/diff/diff.go:168-172 | the first rule that matches decides, and none if none does |
| `Arrays.SortItemsOrder` | internal/diff/diff.go:173-187 | the elements come in the order of the texts of what they are sorted by (a member, null without it, the element itself), equal ones in the order they had; without a rule they stay |
| `Arrays.SortItemsExact` | internal/diff/diff.go:168-188 | when two arrays with sorted children come out equal: the elements of every rank in the same order; equal multisets if what they are sorted by tells them apart; equality without a rule |
| `Arrays.SortReaches` | internal/diff/diff.go:160-192 | sorting reaches every value below members under its path, and an array after its elements |
| `Arrays.EverywhereIsCanon` | internal/diff/diff.go:160-192 | the single rule `**` by `$canonical` sorts every array, the root included |
| `Arrays.CanonDecides` | internal/diff/diff.go:160-192 | the bottom-up sort decides equality up to permuting arrays at every level independently |
| `SortRules.SortIdempotent` | internal/diff/diff.go:160-192 | sorting twice is sorting once, for every body, exactly if no rule sees an index below an array that is sorted: children are visited under their index before the sort |
| `SortRules.NoNumbersBlind` | internal/diff/diff.go:122-146 | rules whose paths have no numeric segment do not tell elements apart by index |
| `SortRules.IndexRule` | internal/diff/diff.go:168-172 | sorting `a` and its element 0 is not idempotent, sorting the element alone is |
| `JsonDiff.DiffJSON` | internal/diff/diff.go:239-291 | appends to the list exactly the rendered changes from the old value to the new one, in order, and nothing else |
| `JsonDiff.DiffFields` | internal/diff/diff.go:261-273 | the loop over the members: the rendered reports of the keys, in key order |
| `JsonDiff.DiffItems` | internal/diff/diff.go:282-285 | the loop over the common positions: their rendered reports, in order |
| `JsonDiff.ChangesComplete` | internal/diff/diff.go:239-291 | nothing is reported exactly if the values are equal |
| `JsonDiff.ChangesTrue` | internal/diff/diff.go:239-291 | at every reported address the old value shows the old side, the new value the new side, and the two differ |
| `JsonDiff.ChangesInOrder` | internal/diff/diff.go:246-290 | no address is reported twice, and they come in order: members by key, elements by index, a length before its elements |
| `JsonDiff.PatchExact` | internal/diff/diff.go:239-291 | applying the report to the old value gives the new one exactly if no array faces a longer one |
| `Responses.DiffResponses` | internal/diff/diff.go:300-327 | computes the report of status, compared headers and body |
| `Responses.ResponseDiffsExact` | internal/diff/diff.go:300-327 | that report is empty exactly if the statuses, every compared header and the bodies agree: texts if neither is a container, otherwise stripped and sorted values |
| `Responses.ResponseReport` | internal/diff/diff.go:300-327 | the report, difference by difference and in order: status, each compared header, and the body by address or as text; old sides under old, with path and text of each |
| `Responses.ResponseDiffsTrue` | internal/diff/diff.go:300-327 | the parts it is about are exactly those where the responses really differ |
| `Responses.ContainerMismatch` | internal/diff/diff.go:227-237 | a container never agrees with a scalar or with a text that is not JSON |
| `Responses.SameJson` | internal/diff/diff.go:227-237 | objects and arrays that parse to the same value agree, however they are written |
| `Responses.NoiseInvisible` | internal/diff/diff.go:316-322 | bodies that differ only at or under noise keys have the same normal form, whatever the sort rules |
| `Responses.PermutationVerdict` | internal/diff/diff.go:300-327 | under the rule `**` by `$canonical` two container bodies give no difference exactly if, noise aside, they are equal up to permuting arrays |
| `Responses.PermutationVerdictNoNoise` | internal/diff/diff.go:300-327 | the same for the bodies themselves when there are no noise patterns |
| `Writesets.NoisePattern` | internal/diff/diff.go:342-357 | a column pattern t.c covers column c, or any for `*`, of table t in every schema, or of any table for `*` |
| `Writesets.QualifiedPattern` | internal/diff/diff.go:342-357 | a pattern schema.table.column never covers the column it spells out, although the code compares with the full table name |
| `Writesets.NoiseColumn` | internal/diff/diff.go:342-357 | for any patterns, a column is noise exactly if one, cut at its first dot, names the table or all and the column or all |
| `Writesets.IgnoredExact` | internal/diff/diff.go:361-375 | a table is ignored exactly by its name or by its full name |
| `Writesets.EffectMeaning` | internal/diff/diff.go:368-418 | what an entry says of its change: the columns whose value changed with both values, or the row, off noise, and the id, noise or not |
| `Writesets.SilentExact` | internal/diff/diff.go:373-411 | a change leaves no entry exactly if its table is ignored or it is an UPDATE that changes noise columns only |
| `Writesets.CompareRows` | internal/diff/diff.go:401-407 | the changed columns, whatever order the map is walked in |
| `Writesets.NormalizeWriteset` | internal/diff/diff.go:361-422 | computes the sorted entries: map order and the unstable sort leave no trace |
| `Writesets.EntryTextInjective` | internal/diff/diff.go:333-340 | the JSON text by which entries are sorted tells any two entries apart |
| `Writesets.EntryTextIs` | internal/diff/diff.go:333-340 | that text is the members in the order of the struct, empty maps left out |
| `Writesets.NormalizedExact` | internal/diff/diff.go:361-422 | two lists of changes normalise to the same sequence exactly if their effects are the same multiset |
| `Writesets.ObservableOnly` | internal/diff/diff.go:361-422 | reordering changes, other SQL text, other noise columns and extra noise-only UPDATEs leave the result as it is |
| `Writesets.AnyOrder` | internal/diff/diff.go:361-422 | any permutation of the changes normalises to the same sequence |
| `WritesetDiff.KeyInjective` | internal/diff/diff.go:444-446 | the grouping key is unambiguous: equal keys mean equal table, operation and key value, bars inside them included |
| `WritesetDiff.DiffPayload` | internal/diff/diff.go:493-508 | adds one difference for every column whose shown values differ, and leaves the report in path order |
| `WritesetDiff.DiffWritesets` | internal/diff/diff.go:443-491 | computes the report of all groups, paired by position, with what is left over on either side |
| `WritesetDiff.DiffExact` | internal/diff/diff.go:443-508 | for all write-sets, the report is empty exactly if every (table, op, pk) group agrees by position up to columns holding the text `<absent>` |
| `WritesetDiff.ReportExact` | internal/diff/diff.go:443-508 | the report holds each difference exactly as often as there are positions of groups that have it to report: a column shown differently, or an entry without a partner, with path, old side and new side |
| `WritesetDiff.NormalDiffExact` | internal/diff/diff.go:443-508 | for normalised write-sets without that text, the report is empty exactly if they are equal as multisets, and then as sequences |
| `WritesetDiff.NormalizedForm` | internal/diff/diff.go:361-422 | NormalizeWriteset always yields such sorted, well-formed entries |
| `WritesetDiff.SelfDiffEmpty` | internal/diff/diff.go:443-491 | a write-set never differs from itself |
| `WritesetDiff.AbsentHides` | internal/diff/diff.go:497-503 | the condition is needed: a column with the text `<absent>` hides a missing column |
| `Windows.Conservation` | internal/binlog/capture.go:167-170 | over every run, the windows taken so far followed by the buffer are all appended changes, in order |
| `Windows.FirstHandOff` | internal/binlog/capture.go:267-308 | each change goes to the first hand-off after it arrived |
| `Windows.PostgresWindow` | internal/pg/capture.go:272-313 | a PostgreSQL window is exactly what was appended since it was opened |
| `Windows.PostgresRefines` | internal/pg/capture.go:272-313 | under one schedule the PostgreSQL buffer and hand-offs are suffixes of the binlog ones |
| `Windows.SourcesAgree` | internal/pg/capture.go:272-278 | the two sources hand off the same window exactly if nothing arrived between the previous hand-off and the opening |
| `Windows.FailedCallLeaks` | internal/replay/replay.go:199-202 | a request whose call fails leaves its changes: the binlog source charges them to the next request, PostgreSQL drops them |
| `Rounds.RoundsHandOff` | internal/binlog/capture.go:267-308 | what a source hands off over many requests: for the binlog everything since the previous hand-off, for PostgreSQL everything since the opening |
| `Rounds.ChargedExactly` | internal/binlog/capture.go:267-308 | whatever arrives whenever, a request is charged with exactly its own changes if and only if everything in its interval is its own and nothing of its own is elsewhere; both sources |
| `BinlogCapture.Normalize` | internal/binlog/capture.go:187-229 | the loop computes the changes of a rows event |
| `BinlogCapture.ProducedMeaning` | internal/binlog/capture.go:187-229 | these are, image by image: before and after of an UPDATE in pairs, only after for an INSERT and only before for a DELETE, each with every column under its name, the table with its schema, the operation and the last query; none for other events and system schemas |
| `BinlogCapture.RowMapAt` | internal/binlog/capture.go:195-205 | a column holds the last value with its name |
| `BinlogCapture.Capture.Handle` | internal/binlog/capture.go:142-173 | one turn of the pump: the new query, the changes appended and their time, or the death of the stream, after which nothing is handled |
| `BinlogCapture.HandledMeaning` | internal/binlog/capture.go:142-173 | what a turn leaves in each field: a query is remembered, a death kept, the changes of a row event added under the last query, with its time |
| `BinlogCapture.HandledChanges` | internal/binlog/capture.go:142-173 | over any deliveries the buffer grows by exactly what the row events before the first death produce, in order |
| `BinlogCapture.DiesExactly` | internal/binlog/capture.go:145-154 | the stream is dead exactly if it was or if its death is among the deliveries |
| `BinlogCapture.DiesOf` | internal/binlog/capture.go:145-154 | it has died of the first death delivered |
| `BinlogCapture.Capture.BeginWindow` | internal/binlog/capture.go:267-274 | opening keeps what arrived between windows |
| `BinlogCapture.Capture.TakeWindow` | internal/binlog/capture.go:277-308 | the polling loop computes the outcome, the way out, the number of looks and all fields after it, as the first look that decides gives them for the events delivered |
| `BinlogCapture.EndingMeans` | internal/binlog/capture.go:277-308 | for all that is delivered since the opening: the first look that finds the stream dead, quiet (every row event and the start of polling the quiet time back, no transaction active, if asked) or the time up decides, and none before it does; the window fails exactly in the first case, with what the stream died of; at most timeout/50 + 2 looks |
| `BinlogCapture.EndingHandsOff` | internal/binlog/capture.go:302-307 | a window that ends well hands off the buffer as it was and all changes delivered until the end, and leaves none; a dead stream keeps them |
| `PgCapture.CommitWindow` | internal/pg/capture.go:195-234 | with whole transactions in commit order, a buffer seen after a commit past the opening begins with all rows of the first transaction committed since |
| `PgCapture.HalfDecoded` | internal/pg/capture.go:272-313 | opened in the middle of a transaction, a window that closes on a commit holds exactly the rows that were still to come, in front, and then rows of later transactions |
| `PgCapture.WholeTransaction` | internal/pg/capture.go:272-313 | it begins with the whole transaction, whatever follows, exactly if none of it was decoded before |
| `PgCapture.Capture.DecodeRow` | internal/pg/capture.go:236-252 | the loop computes the row map of a tuple |
| `PgCapture.RowColumns` | internal/pg/capture.go:236-252 | the row map has exactly the columns sent with a value or null: unchanged TOAST columns and columns the relation lacks are left out |
| `PgCapture.RowValue` | internal/pg/capture.go:236-252 | under each name it has the last value sent |
| `PgCapture.Capture.Record` | internal/pg/capture.go:217-234 | appends one change, or nothing for a relation never announced |
| `PgCapture.RecordedMeaning` | internal/pg/capture.go:217-234 | that change: namespace and table, operation, the old tuple before and the new tuple after, as far as they are sent |
| `PgCapture.Capture.HandleWAL` | internal/pg/capture.go:195-215 | one turn of the pump: relation, row, commit or error, after which nothing is handled |
| `PgCapture.HandledMeaning` | internal/pg/capture.go:195-215 | what a turn leaves in each field: a relation replaces the one announced before it, a row is added, a commit remembered, an error kept |
| `PgCapture.HandledEvents` | internal/pg/capture.go:195-234 | over any messages the buffer grows by exactly the rows before the first error, in order, and the last commit is the last of theirs |
| `PgCapture.Capture.BeginWindow` | internal/pg/capture.go:272-278 | opening drops the buffer and remembers the last commit |
| `PgCapture.Capture.TakeWindow` | internal/pg/capture.go:285-313 | the polling loop computes the outcome, the way out, the number of looks and all fields after it, as the first look that decides gives them for the messages delivered |
| `PgCapture.EndingMeans` | internal/pg/capture.go:285-313 | for all that is delivered since the opening: the first look that finds an error, a commit past the opening, no row for the quiet time or the time up decides, in that order, and none before it does; the window fails exactly in the first case, with what the stream died of; at most timeout/20 + 2 looks |
| `PgCapture.EndingHandsOff` | internal/pg/capture.go:280-313 | a window that ends well hands off exactly the rows delivered since the opening; one that ends on a commit begins with all rows of the first transaction committed since, if transactions arrive whole and in commit order |
| `Proxy.SafeStep` | internal/capture/capture.go:164-187 | every step of every handler and of the pump keeps: one handler inside, golden entries in window order |
| `Proxy.DrivesSource` | internal/capture/capture.go:164-187 | the handlers and the pump drive the change source by the steps of the window runs, and a handler gets the normal form of what it hands off |
| `Proxy.OneWindowInOrder` | internal/capture/capture.go:164-187 | in every interleaving at most one window is open, and entries are written in the order the windows were opened |
| `Proxy.AttributionExact` | internal/capture/capture.go:164-187 | if each request's changes arrive while its window is open, entry i holds exactly the normalised changes of the i-th request, or none once the source has died |
| `Recorder.Recorder.RecordGolden` | internal/capture/capture.go:273-287 | appends one numbered entry with the status and body of the answer, method, path with its query, headers and body of the request, and no stamp; or keeps the file and the error |
| `Recorder.Recorder.Serve` | internal/capture/capture.go:164-187 | the locked handler path: the window is opened, and taken whatever the upstream answered; the entry holds its normalised changes, or no write-set without a source or after a failure, which is kept as the last error |
| `Recorder.RecordedAsReplayed` | internal/capture/capture.go:173-186 | an entry has a write-set exactly if there is a source and it lives until the last look; it is the normal form of what a replay of the same request would be charged with |
| `Golden.EntryBack` | internal/golden/golden.go:84-96 | writing and reading an entry keeps everything but what its values lose in decoding; a missing write-set stays missing, an empty one empty |
| `Golden.EntryMembers` | internal/golden/golden.go:39-48 | the members of an entry line by name, those left out when empty included |
| `Golden.ChangeMembers` | internal/diff/diff.go:333-340 | the same for an entry of a write-set |
| `Golden.MetaMembers` | internal/golden/golden.go:24-31 | the same for the meta line |
| `Golden.EntryReads` | internal/golden/golden.go:129-135 | an entry line is read exactly if its members have the types of an entry, and gives each member, zero where missing or null, decoded where it is any value |
| `Golden.MetaReads` | internal/golden/golden.go:123-128 | a meta line changes exactly the members it gives, and is refused for a member of another type |
| `Golden.TornDecoded` | internal/golden/golden.go:125-136 | broken bytes come back as replacement characters, one for each |
| `Golden.MetaBack` | internal/golden/golden.go:61-82 | writing and reading the meta line is the identity |
| `Golden.DecodedExact` | internal/golden/golden.go:125-136 | decoding leaves a value as it was exactly if every int64 in it fits 53 bits, every larger integer is a float64 as printed, and all text is well formed |
| `Numbers.IntReads` | internal/golden/golden.go:125-136 | an int64 survives being read as a float64 exactly if 53 bits hold it |
| `Doubles.SmallIntegers` | internal/golden/golden.go:125-136 | integers within 2^53 fit 53 bits |
| `GoldenFile.Read` | internal/golden/golden.go:101-144 | computes meta and sorted entries, or the first bad or too long line |
| `GoldenFile.ReadExact` | internal/golden/golden.go:113-143 | it is read exactly if no line is at fault, with its entries stably sorted and its meta lines one over the other; otherwise the first fault is reported, too long or by number |
| `GoldenFile.LineMeaning` | internal/golden/golden.go:113-138 | white space is skipped; text that is not JSON and values that are no object are faults; null and objects of another type are skipped; meta and entry lines are read |
| `GoldenFile.LineParses` | internal/golden/golden.go:92-99 | a written line is JSON that parses to what the reader is given for it |
| `GoldenFile.ReadWritten` | internal/golden/golden.go:101-144 | reading a written file gives its meta and its entries, sorted by time stamp, exactly if every line fits the 4 MiB buffer |
| `GoldenFile.ReadOrder` | internal/golden/golden.go:142 | the entries read are a permutation in time stamp order, equal stamps in file order; without stamps it is the file order |
| `GoldenFile.ReadChronological` | internal/golden/golden.go:142 | if all time stamps have one fractional width, the entries come in the order of their times |
| `GoldenFile.Writer.constructor` | internal/golden/golden.go:61-82 | a new file gets a meta line with defaults filled in, an existing one is left as it is |
| `GoldenFile.Writer.Append` | internal/golden/golden.go:84-96 | adds one line, or none on an error |
| `Timestamps.OrderExact` | internal/sniff/sniff.go:318 | the earlier of two instants sorts first as text exactly unless both lie in one second and its trimmed fraction is a proper prefix of the later one's |
| `Timestamps.EqualWidthOrder` | internal/golden/golden.go:142 | at equal fractional width text order is time order |
| `Timestamps.WholeSecondSortsLast` | internal/sniff/sniff.go:318 | the width condition is needed: a whole second sorts after every later instant of that second |
| `Timestamps.SortedIsChronological` | internal/golden/golden.go:142 | a golden sorted by text is in time order if all its stamps have one width |
| `Timestamps.TextReads` | internal/sniff/sniff.go:318 | a stamp reads back as its year, month, day, hour, minute and second, with its fraction if there is one, and Z |
| `Firing.FireStack` | internal/replay/replay.go:161-222 | opens a window, calls, and takes the window only after an answer: the result and the source afterwards, for whatever is delivered before, during and after the call |
| `Firing.FiredExactly` | internal/replay/replay.go:161-222 | a request is fired exactly if it is answered and its source lives until the last look, and then with the response received; otherwise it fails for want of an answer or of what the source died of |
| `Firing.FiringSettles` | internal/replay/replay.go:161-222 | what firing does to a source is one round of window steps, with all changes delivered before the opening as its gap and all delivered after it as its arrivals; what is charged is the window handed off |
| `SourceRuns.HealthyRun` | internal/replay/replay.go:90-102 | over a run in which no source dies, the requests reported as ERROR are those without an answer |
| `Replay.Compare` | internal/replay/replay.go:122-152 | the verdict of two answered sides by whether responses and write-sets agree, and the whole report |
| `Replay.WritesetVerdict` | internal/diff/diff.go:443-508 | write-sets without the text `<absent>` agree exactly if both sides committed the same multiset of effects |
| `Replay.RunOne` | internal/replay/replay.go:112-153 | ERROR exactly if a stack gave no answer or its source died by the last look; otherwise MATCH exactly if the responses agree and the effects are equal as multisets; the new stack is left alone if the old one fails |
| `Replay.Run` | internal/replay/replay.go:90-102 | the same for every request of a run, in order, each on the sources as the requests and deliveries before it leave them |
| `SourceRuns.NothingLost` | internal/binlog/capture.go:167-170 | over a whole run the changes charged, followed by what is left in the MySQL source, are exactly what all deliveries brought, in order |
| `SourceRuns.OwnCharges` | internal/replay/replay.go:161-222 | over a whole run, each request with a window is charged with exactly its own changes if and only if everything delivered in its interval is its own and nothing of its own is delivered elsewhere |
| `Replay.OwnVerdict` | internal/replay/replay.go:112-153 | if that holds at both sources, the verdict is MATCH exactly if the responses agree and the request itself had the same effects on both stacks, as multisets |
| `Replay.VerifyOne` | internal/replay/verify.go:75-112 | the golden plays the old side, without headers: ERROR exactly if there was no answer or the source died by the last look; without a write-set the verdict is on the response alone |
| `Replay.VerifyAll` | internal/replay/verify.go:50-73 | the same for every entry of a golden, in order, each on the source as the entries and deliveries before it leave it |
| `GoldenVerdict.StorageExact` | internal/replay/verify.go:98-105 | a write-set read back from a golden agrees with itself exactly if decoding loses nothing of it |
| `GoldenVerdict.GoldenVerdict` | internal/replay/verify.go:75-112 | record, store, read, verify: MATCH exactly if the responses agree and, where there is a write-set, the same effects were committed |
| `GoldenVerdict.RecordedStackMatches` | internal/replay/verify.go:75-112 | a stack with the same status and body and the same effects, in any order, by any SQL, with any noise, is a MATCH |
| `GoldenVerdict.StoredEntry` | internal/golden/golden.go:84-144 | every recorded entry comes back from the file as the one the verdicts are about, in place when stamps are empty |
| `GoldenVerdict.RecordedVerified` | internal/replay/verify.go:75-112 | from end to end: recorded, written, read and verified, an entry gives MATCH exactly if the responses agree and, where there is a write-set, the effects do |
| `GoldenVerdict.ServedVerified` | internal/replay/verify.go:75-112 | from the exchange to the verdict: what the recorder served, wrote and read back gives MATCH exactly if a stack answers with the recorded status and an agreeing body and, where a window was handed off, commits its effects |
| `GoldenVerdict.OddBigIntegerBreaks` | internal/golden/golden.go:125-136 | 2^53 + 1 does not survive: a golden holding it no longer matches its own recording |
| `Sniff.ConnKeyExact` | internal/sniff/sniff.go:113-126 | both directions of a connection have one key exactly unless both ends use the service port at different addresses, and no other connection has it |
| `Sniff.ConnKeyText` | internal/sniff/sniff.go:113-126 | the key is written from the client side, whichever direction a packet has |
| `Sniff.Pairer.AddRequest` | internal/sniff/sniff.go:221-226 | enqueues a request and settles its connection |
| `Sniff.Pairer.AddResponse` | internal/sniff/sniff.go:228-234 | enqueues a response and settles its connection |
| `Sniff.Pairer.Match` | internal/sniff/sniff.go:236-246 | emits the zip of the two queues and keeps the rest of the longer one |
| `Sniff.RunPairs` | internal/sniff/sniff.go:183-246 | in every run the exchanges of a connection are the zip of its requests and responses, and its queues hold the rest |
| `Sniff.PairedMeaning` | internal/sniff/sniff.go:236-246 | the sink gets the first request with the first response, the second with the second, as long as there are both; the rest waits in order |
| `Sniff.OneQueueEmpty` | internal/sniff/sniff.go:236-246 | after every step one of the two queues of every connection is empty |
| `Sniff.InterleavingIndependent` | internal/sniff/sniff.go:183-246 | two interleavings of one connection's traffic, among any other traffic, emit the same exchanges for it |
| `Sampling.Output.Sink` | internal/sniff/sniff.go:310-347 | one exchange is skipped, written or lost to a write error, and the counters say so: Count + Skipped + lost is what was offered |
| `Sampling.KeptState` | internal/sniff/sniff.go:255-258 | dropping requests that leave the state unchanged leaves the state unchanged |
| `Sampling.SamplingPreservesReplay` | internal/sniff/sniff.go:255-258 | with writes kept, for every draw and every deterministic service with read-only GET and HEAD, each kept exchange replays in its recorded state with its recorded response |
| `Sampling.DroppedWriteShows` | internal/sniff/sniff.go:299-302 | keeping every write is needed: a service that counts writes ends elsewhere exactly if one was dropped |
| `Mirror.FlowState.Emit` | cmd/mirrorsim/main.go:85-96 | cuts a payload into segments and advances the sequence number of its direction |
| `Mirror.FlowState.Handshake` | cmd/mirrorsim/main.go:75-78 | sends both SYNs, numbered one before the first byte |
| `Mirror.FlowState.Finish` | cmd/mirrorsim/main.go:80-83 | sends a FIN in each direction, numbered after its last byte |
| `Mirror.MirrorExact` | cmd/mirrorsim/main.go:85-96 | over any interleaving, a direction's segments hold 1 to 1400 bytes, concatenate to exactly what was sent, and are numbered by the bytes before them modulo 2^32 |
| `Mirror.ChunksFull` | cmd/mirrorsim/main.go:85-96 | all segments of a payload but the last are full |
| `Mirror.SynBefore` | cmd/mirrorsim/main.go:75-78 | the first data byte is numbered one past the SYN |

## Left out

- Norm.ScaleInvisible: decimal.Decimal, which only the MySQL source decodes to. The PostgreSQL source decodes NUMERIC, time stamps and UUIDs to types of its driver; NormValue leaves these to their own JSON form, which is not modelled.
- Numbers.FloatIsInt: converting the float 2^63 to int64 depends on the platform; the model has the minimum int64 of amd64, so 2^63 is printed as it is. Where the conversion saturates it becomes the maximum int64 instead.
- Norm.FloatColumnCompare: the same for 2^63, which on such a platform compares equal with the maximum int64.
- Norm.DecimalsCompare: NaN, and numbers beyond the float64 range, which become infinities; their canonical text is an error message.
- Values.PrintInjective: floats that Go prints with an exponent (below 1e-6, from 1e21) are printed without one; both texts name one number.
- Writesets.NormalizeWriteset: column, table and member names are well-formed text.
- Responses.DiffResponses: JSON parsing of bodies is not modelled (Json reads canonical text only). A body is its text together with what json.Unmarshal makes of it, so duplicate members and texts with invalid UTF-8 are settled before the model begins.
- Json.ParsePrinted: the reader knows no white space, exponents and surrogate pairs, which canonical text does not use, and keeps integers as they are; reading them as float64 is Golden.Decoded.
- GoldenFile.ReadWritten: a line is written with the members of its object in key order, not in struct order; member names are matched exactly, while encoding/json also accepts other letter cases.
- GoldenFile.ReadExact: encoding/json reads a null element of a write-set as an entry without an operation, which the model rejects, and refuses an integer written as 200.0, which the model cannot tell from 200.
- Golden.EntryBack: an absent and an empty map of an entry are one value, as both are left out of the JSON; a row operation other than INSERT, UPDATE and DELETE, which no recorder writes, is rejected.
- BinlogCapture.Capture.TakeWindow: the clock is read once per look, where the source reads it for the quiet time and again for the deadline; the answer of the transaction query is part of the environment.
- BinlogCapture.Capture.Handle: the column names of a table come with the event; the information_schema lookup and its cache are not modelled.
- PgCapture.Capture.HandleWAL: messages come decoded; a text value is what the type map makes of it; messages that cannot be parsed, which the source skips, are left out, and an error is one of the connection.
- Proxy.AttributionExact: one lock around all handlers, as in golden mode with a source; without one there are no windows to attribute. It is stated for changes that arrive in time; the exact condition for one window after another is Rounds.ChargedExactly.
- Recorder.Recorder.Serve: the headers and the body of a request are given as they are recorded; the header filter and the requests-only mode are left out.
- Firing.FireStack: building the request is part of the call, which either fails or brings a response.
- Timestamps.OrderExact: years 0 to 9999 in UTC; calendar rules play no part in the order.
- Sniff.ConnKeyExact: ports by number and addresses by their text; a flow's direction is given.
- Sampling.Output.Sink: the random draw and the outcome of the write are parameters; the corpus format (.jsonl) is left out.
- Mirror.FlowState.Emit: only the fields of a segment that the order of bytes depends on; addresses, flags for acknowledgement and checksums are left out.
- Baseline reclassification (verdict NOISE) is done by a package that is not part of this model.
- Network and database I/O, TCP reassembly and HTTP parsing are the events the model starts from.
- Schema copying, dashboard, agents, configuration and command line add only easy invariants.
