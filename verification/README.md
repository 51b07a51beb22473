# Batyr: model and proofs

Batyr is a server that keeps PostGIS tables in step with OGR data sources. Clients post jobs as
JSON, worker threads take them from a shared queue, and each job runs as one database transaction.
This project models that behaviour in Dafny and proves what the program relies on. Loops, in-place
updates and objects are methods and classes, proved against functions; the laws are lemmas about
those functions.

`dafny verify dfyconfig.toml` checks everything.

| files | what they cover |
|---|---|
| `JsonValue`, `JsonGrammar`, `JsonRender` | values and number flags; the accepted language and its meaning (RFC 4627); the printed text in both layouts |
| `JsonReader`, `JsonDocument`, `JsonWriter`, `JsonAccept`, `JsonEndToEnd` | the cursor driven reader, the stack that builds the document, the level-stack writers, the tree walk, and all of them together |
| `JsonRoundTrip`, `JsonProperties`, `JsonCharacters` | printer and parser undo each other; UTF-8 and surrogates in every spelling; exact integers and fractions; the characters by name |
| `JsonSyntax`, `JsonAcceptance`, `JsonErrors` | the texts of RFC 4627 as syntax trees with all their white space; the reader accepts exactly these; what it reports for others |
| `JsonDouble`, `JsonLimits` | the rounding of the number parser's double accumulator; how far it strays and what that means for its limit |
| `JobProtocol`, `JobInvariants`, `JobTheorems`, `JobStorage` | queue, workers, cleanup and shutdown as a transition system; the shared objects themselves |
| `Sql`, `SyncTheorems`, `SyncContents` | UPDATE / INSERT / DELETE in three-valued logic, what a synchronisation achieves, and the rows it leaves |
| `Database`, `PullPlan`, `Pull`, `PullTheorems` | session and transaction with failing statements; a whole pull |
| `AttributeDelete`, `RemoveJob` | the generated WHERE clause of a delete by attributes; the whole job |
| `StringUtils`, `IniParser`, `IniReader`, `IniPrintable` | `trim`; the configuration syntax as a fold over lines; the recursive parser with its level tree; which files survive printing |
| `Levenshtein`, `Allocator` | one-row edit distance; pool allocator and the stack on it |
| `Sequences` | bytes and sequence helpers used throughout |

## What the proofs brought out

Where the code and the expectation one may have of it part, the code is followed:

- **A second pull need not be quiet.** A column that the source does not have is written as NULL by
  UPDATE but left to its default by INSERT. With proper keys a repeated pull reports 0/0/0 exactly
  if the target had all the keys of the source to begin with, or all such defaults are NULL
  (`SyncTheorems.SyncIdempotent`; an instance is `SyncTheorems.RepeatedPullUpdates`).
- **An ignored feature undoes the pull.** The failed insert sets the sticky rollback flag, so the
  destructor rolls back although the job is FINISHED (`Pull.PullJob`; an instance is
  `PullTheorems.IgnoredFeatureUndoesPull`).
- **Accepted layers that can never be pulled.** A geometry column that shares its name with a source
  field is listed twice for the insert, and PostgreSQL rejects the statement; in default mode a
  table of nothing but key columns leaves `set` followed by nothing. Besides an accepted plan,
  quotable names and convertible features these two are all that can stand in the way
  (`PullTheorems.CleanExactly`; instances are in `PullTheorems.AcceptedButNotClean`).
- **A geometry against NULL** is replaced by an update exactly if it is a collection or some other
  column differs (`SyncTheorems.OneSidedGeometry`).
- **The truncate count** is the table size exactly if no first key column is NULL
  (`SyncTheorems.StatsBalance`).
- **The queue need not drain** at shutdown (`JobTheorems.QueueNeedNotDrain`). It does exactly if, at
  the time of quit, it is empty or some worker is before `popNoWait` or has a job in hand
  (`JobTheorems.QueueDrains`). An open queue is always worked off (`JobTheorems.QueueWorkedOff`).
- **The limit of 1E307** is compared with a rounded accumulator. Integer parts of at most 307 digits
  always pass and those of 310 or more never; in between the roundings decide
  (`JsonLimits.LengthDecides`).
- **A section named by brackets and blanks alone** is accepted but does not survive being printed and
  read again; nothing else is lost (`IniPrintable.ReadPrintRead`).
- **A configuration line of blanks only** is refused although a comment in the parser says it is
  skipped, because `trim` returns a string of trim characters unchanged (`IniParser.BlankLine`).
- **A lone low surrogate** in a JSON escape is let through, a lone high one is not
  (`JsonProperties.ReadUnicodeEscape`, `JsonProperties.LoneHighSurrogate`).

## Model

| member | source | states |
|---|---|---|
| JsonValue.FromInt | src/3rdparty/rapidjson/document.h:77-81 | the data bits and the type flags are those of the value: exactly the types that can represent it |
| JsonValue.FromUint | src/3rdparty/rapidjson/document.h:84-88 | the same, so that one integer has one representation whichever constructor made it |
| JsonValue.FromInt64 | src/3rdparty/rapidjson/document.h:91-102 | the same for 64-bit signed arguments |
| JsonValue.FromUint64 | src/3rdparty/rapidjson/document.h:105-113 | the same for 64-bit unsigned arguments |
| JsonValue.KindsMean | src/3rdparty/rapidjson/document.h:77-113 | the flags of an integer are the types whose range holds it |
| JsonValue.AcceptKeepsInteger | src/3rdparty/rapidjson/document.h:520-526 | the view chosen by the flags gives the integer back, in the narrowest event that fits |
| JsonDocument.Document.Int | src/3rdparty/rapidjson/document.h:772 | pushes the canonical representation of the integer |
| JsonDocument.Document.EndArray | src/3rdparty/rapidjson/document.h:794-797 | the popped values become, in order, the elements of the array below them |
| JsonDocument.Document.EndObject | src/3rdparty/rapidjson/document.h:787-790 | the popped pairs become, in order, the members of the object below them |
| JsonDocument.PairUpFlatten | src/3rdparty/rapidjson/document.h:787-790 | pushing names and values alternately and pairing them up again loses nothing |
| JsonReader.Reader.SkipWhitespace | src/3rdparty/rapidjson/reader.h:101-106 | the cursor ends at the first character that is not white space |
| JsonReader.Reader.ParseHex4 | src/3rdparty/rapidjson/reader.h:364-383 | four hex digits as one 16-bit unit, or the error; which unit, whatever the spelling, is `JsonProperties.ReadSpelled` |
| JsonReader.Reader.ParseCodePoint | src/3rdparty/rapidjson/reader.h:425-437 | one unit or a surrogate pair, with the two pair errors |
| JsonReader.Reader.ParseString | src/3rdparty/rapidjson/reader.h:387-481 | the loop over characters and escapes yields the string of the grammar, pushed on the document, or its error |
| JsonReader.Reader.Scan32 | src/3rdparty/rapidjson/reader.h:500-523 | the 32-bit accumulator never overflows, is exact, and is left exactly before the digit that would not fit |
| JsonReader.Reader.Scan64 | src/3rdparty/rapidjson/reader.h:530-552 | the same for 64 bits |
| JsonReader.Reader.ScanDouble | src/3rdparty/rapidjson/reader.h:555-565 | the accumulator holds the number rounded after every operation, and is refused exactly if it reaches 1E307 before the last digit |
| JsonReader.Reader.ScanInteger | src/3rdparty/rapidjson/reader.h:493-565 | 32 bits, 64 bits or double: the narrowest that holds the value, double exactly if 64 bits do not |
| JsonReader.Reader.ParseFraction | src/3rdparty/rapidjson/reader.h:568-592 | sixteen digits are accumulated, with rounding, the others are read and dropped |
| JsonReader.Reader.ParseNumber | src/3rdparty/rapidjson/reader.h:484-651 | the event of the grammar's number, or its error |
| JsonReader.Reader.ParseValue | src/3rdparty/rapidjson/reader.h:655-665 | consumes what the grammar consumes and pushes exactly one value, or reports the grammar's error |
| JsonReader.Reader.ParseArray | src/3rdparty/rapidjson/reader.h:305-328 | the same for arrays: the element loop and the stack machine build the array of the grammar |
| JsonReader.Reader.ParseObject | src/3rdparty/rapidjson/reader.h:263-301 | the same for objects |
| JsonReader.Reader.Parse | src/3rdparty/rapidjson/reader.h:221-254 | a container at the root with nothing behind it; all other texts get the grammar's error |
| JsonReader.ParseDocument | src/3rdparty/rapidjson/document.h:709-724 | parsing into a fresh document: accepted exactly by the grammar, leaving one root that is the grammar's value |
| JsonWriter.Writer.WriteUnsigned | src/3rdparty/rapidjson/writer.h:123-157 | the decimal digits; the buffers of 10 and 20 characters always suffice |
| JsonWriter.Writer.WriteSigned | src/3rdparty/rapidjson/writer.h:115-143 | a sign and the digits of the magnitude |
| JsonWriter.Writer.WriteString | src/3rdparty/rapidjson/writer.h:172-202 | the quoted text with every special byte escaped |
| JsonWriter.Writer.CompactPrefix | src/3rdparty/rapidjson/writer.h:209-225 | separator and count of values for the innermost level |
| JsonWriter.Writer.PrettyPrefix | src/3rdparty/rapidjson/prettywriter.h:106-143 | the same with line breaks and indentation |
| JsonWriter.Writer.Number | src/3rdparty/rapidjson/writer.h:43-46 | writes the integer the event stands for |
| JsonWriter.Writer.End | src/3rdparty/rapidjson/prettywriter.h:65-98 | pops the level; the bracket goes on its own line unless the level is empty |
| JsonAccept.Accept | src/3rdparty/rapidjson/document.h:494-529 | the event sequence makes the level-stack writer produce the structural text at the right place and depth |
| JsonAccept.Stringify | src/server/json.cpp:14-28 | the text printed in either layout reads back as the printed tree |
| JsonRoundTrip.ReadInteger | src/3rdparty/rapidjson/reader.h:484-651 | every representable integer, minimum values included, survives printing and reading |
| JsonRoundTrip.ReadChars | src/3rdparty/rapidjson/writer.h:172-202 | every byte string survives escaping and unescaping |
| JsonRoundTrip.RoundTrip | src/3rdparty/rapidjson/writer.h:41-225 | any tree without doubles and with a container root: parsing the printed text gives exactly the tree |
| JsonRoundTrip.LayoutsAgree | src/3rdparty/rapidjson/prettywriter.h:33-148 | pretty text, for any white space character and width, parses as the compact text does |
| JsonProperties.RenderNoNul | src/3rdparty/rapidjson/writer.h:173-202 | printed text has no NUL byte, whatever the strings hold |
| JsonProperties.Utf8RoundTrip | src/3rdparty/rapidjson/rapidjson.h:338-358 | decoding by section 3 of RFC 3629 gives the code point back; all bytes but the first are continuation bytes |
| JsonProperties.ReadSpelled | src/3rdparty/rapidjson/reader.h:364-383 | four digits by their place among 0-9 and a-f or A-F, the cases mixed freely: every spelling of a 16-bit unit is read as that unit |
| JsonProperties.ReadUnicodeEscape | src/3rdparty/rapidjson/reader.h:424-449 | the escape, or pair of escapes, of a code point (section 2.1 of RFC 2781), in every spelling, reads as its UTF-8 bytes |
| JsonProperties.LoneHighSurrogate | src/3rdparty/rapidjson/reader.h:426-430 | a high surrogate without a second escape is refused |
| JsonProperties.WrongLowSurrogate | src/3rdparty/rapidjson/reader.h:431-435 | a high surrogate with a second escape that is no low one is refused |
| JsonProperties.IntegerTextExact | src/3rdparty/rapidjson/reader.h:484-651 | every integer text of section 2.4 of RFC 4627: exact as long as 64 bits hold it, beyond that the double it accumulates to, or refused when that reaches the limit too early |
| JsonCharacters.StructuralCharacters | src/3rdparty/rapidjson/reader.h:263-328 | the bytes the reader looks for are those of section 2 of RFC 4627 |
| JsonCharacters.SpaceCharacters | src/3rdparty/rapidjson/reader.h:101-106 | white space is space, tab, line feed and carriage return, nothing else |
| JsonCharacters.DigitCharacters | src/3rdparty/rapidjson/reader.h:500-508 | a byte is the digit n exactly if it is the n-th of 0 to 9 |
| JsonCharacters.ExponentCharacters | src/3rdparty/rapidjson/reader.h:594-596 | an exponent starts with e or E, nothing else |
| JsonCharacters.EscapesRead | src/3rdparty/rapidjson/reader.h:389-413 | what each one-letter escape stands for, the solidus included, and that there are no others |
| JsonCharacters.EscapesWritten | src/3rdparty/rapidjson/writer.h:172-202 | exactly quote, backslash and control characters are escaped; the others as four digits |
| JsonCharacters.DecimalSum | src/3rdparty/rapidjson/reader.h:500-508 | digits denote the sum of their values times powers of ten |
| JsonCharacters.FractionExact | src/3rdparty/rapidjson/reader.h:568-651 | a number with up to sixteen fraction digits, below 2^53 without its point, is read with exactly the digits written and the exponent written less their count |
| JsonCharacters.FractionCut | src/3rdparty/rapidjson/reader.h:580-592 | fraction digits beyond the sixteenth change nothing |
| JsonCharacters.LineBreaks | src/3rdparty/rapidjson/prettywriter.h:106-148 | a line break is a line feed and, per level, the configured number of indent characters; compact text has none |
| JsonDouble.RoundedIsNearest | src/3rdparty/rapidjson/reader.h:557-563 | the rounding used is that of IEEE 754 binary64: below infinity the result is a double and no double is nearer |
| JsonLimits.LimitRounded | src/3rdparty/rapidjson/reader.h:559 | the constant compared with is the double nearest to 10^307 |
| JsonLimits.AccumulatorNear | src/3rdparty/rapidjson/reader.h:555-565 | up to 308 digits the accumulator stays within one part in 2^40 per digit of the number written |
| JsonLimits.LengthDecides | src/3rdparty/rapidjson/reader.h:559-562 | at most 307 digits are never refused, 310 or more always |
| JsonProperties.ValueCanonical | src/3rdparty/rapidjson/document.h:769-797 | every number read has the canonical representation |
| JsonProperties.ReadPrintRead | src/3rdparty/rapidjson/document.h:494-529 | whatever text was accepted, without doubles, prints and reads back as the same tree |
| JsonAcceptance.DocumentAccepted | src/3rdparty/rapidjson/reader.h:221-254 | the text of every syntax tree of RFC 4627 within the limits, with any white space and escapes, is read as the tree's value |
| JsonAcceptance.AcceptedDocument | src/3rdparty/rapidjson/reader.h:221-254 | every text that is read is the text of such a tree, which denotes the value read |
| JsonAcceptance.AcceptsExactly | src/3rdparty/rapidjson/reader.h:221-665 | hence acceptance is membership in the language; the only limits are exponents up to 308, integer parts whose rounded accumulator is below 1E307 at the last digit, and paired high surrogates |
| JsonAcceptance.OneMeaning | src/3rdparty/rapidjson/reader.h:221-665 | the grammar is unambiguous |
| JsonErrors.EmptyText | src/3rdparty/rapidjson/reader.h:235-238 | white space up to the end or a NUL is reported as such |
| JsonErrors.ScalarRoot | src/3rdparty/rapidjson/reader.h:239-243 | anything but an object or array at the root has its own error |
| JsonErrors.TextBehindRoot | src/3rdparty/rapidjson/reader.h:245-248 | so has anything behind any accepted document |
| JsonErrors.BadSeparatorInArray | src/3rdparty/rapidjson/reader.h:319-327 | and an element of any kind that neither a comma nor the bracket follows |
| JsonErrors.BadSeparatorInObject | src/3rdparty/rapidjson/reader.h:294-300 | the same for members |
| JsonErrors.BadMember | src/3rdparty/rapidjson/reader.h:277-289 | a member without a name, or without a colon behind it |
| JsonAcceptance.NumeralRead | src/3rdparty/rapidjson/reader.h:484-651 | a number that is read has sign, integer part, fraction and exponent as section 2.4 of RFC 4627 writes them, and their value |
| JsonAcceptance.CharsRead | src/3rdparty/rapidjson/reader.h:387-481 | a string that is read is a sequence of characters and escapes of section 2.5 of RFC 4627, and their bytes |
| JsonEndToEnd.PrintAndRead | src/server/json.cpp:14-28 | writer object, text, reader object, document: the tree comes back and no NUL is written |
| JsonEndToEnd.ReadPrintAndRead | src/server/job.cpp:138-139 | a posted text is accepted exactly by the grammar, and printing and reading the document changes nothing |
| JsonEndToEnd.ReadDenoted | src/server/job.cpp:138-143 | the reader object accepts a posted text exactly if RFC 4627 has a derivation for it within the limits, and returns what it denotes |
| JobInvariants.InvStep | src/server/quitablequeue.h:42-98 | every step of every thread keeps order, ownership, statuses, storage, wakeups and shutdown state |
| JobInvariants.InvRun | src/server/worker.cpp:733-803 | hence every reachable state has them: queue length at most woken workers plus pending notifications while anyone sleeps, nobody asleep after quit, each job with at most one worker, unfinished jobs in the map |
| JobInvariants.WakeupStep | src/server/quitablequeue.h:48-98 | no lost wakeup |
| JobInvariants.StatusStep | src/server/job.h:42-48 | the status says where a job is: queued, held by a worker, or done |
| JobInvariants.StorageStep | src/server/jobstorage.cpp:28-41 | the cleanup takes no job that is not done |
| JobTheorems.CleanedExactly | src/server/jobstorage.cpp:21-41 | over every run a job is gone from the map exactly if some cleanup pass came more than the job's maximum age after its end |
| JobTheorems.QueuedJobMovesOn | src/server/quitablequeue.h:48-98 | no deadlock: with a queued job and an open queue some worker or notification can always move |
| JobTheorems.HistoryGrows | src/server/quitablequeue.h:42-98 | both histories only grow at the end; a closed queue stays closed |
| JobTheorems.Fifo | src/server/quitablequeue.h:56-57 | the k-th job dequeued is the k-th pushed, and what is left over is the queue |
| JobTheorems.StatusArrow | src/server/job.h:42-48 | one step moves a status only QUEUED to IN_PROCESS to FINISHED or FAILED |
| JobTheorems.StatusForward | src/server/worker.cpp:755-791 | over every run a status only moves forward; a done job keeps status and time; which of the two it is, `JobTheorems.OutcomeDecides` says |
| JobTheorems.OutcomeDecides | src/server/worker.cpp:755-797 | over every run a job is FINISHED, since a given time, exactly if the worker then working on it came back from the work at that time, and FAILED exactly if the work threw |
| JobTheorems.WorkDrops | src/server/worker.cpp:735-801 | after quit each worker step, notification and join decreases a measure over queue and phases |
| JobTheorems.ShutdownProgress | src/server/broker.cpp:83-94 | until all workers are joined there is such a step |
| JobTheorems.OtherSteps | src/server/jobstorage.cpp:19-47 | after quit a cleanup pass, a second quit or a new map entry adds no work, a job still pushed four units |
| JobTheorems.ShutdownTerminates | src/server/broker.cpp:64-95 | in every interleaving after quit workers, notifications and joins take a bounded number of steps, and when they come to rest every worker has exited and been joined, or the process is dead |
| JobTheorems.BacklogDrops | src/server/quitablequeue.h:42-98 | while the queue is open each step of a worker or notification reduces a measure over queue, phases and notifications |
| JobTheorems.QueueWorkedOff | src/server/worker.cpp:735-801 | hence an open queue is worked off: bounded steps for given pushes and spurious wakeups, and rest only when every job ever pushed is done, or dead |
| JobTheorems.AfterAllExited | src/server/worker.cpp:735-801 | then every pushed job is done or still queued, done exactly if it was dequeued |
| JobTheorems.DrainableKept | src/server/quitablequeue.h:42-87 | after quit no step but a push or a crash changes whether the queue is empty or somebody will look into it |
| JobTheorems.QueueDrains | src/server/worker.cpp:735-801 | without pushes after quit and without a crash: when all workers have left, the queue is empty and every pushed job done if and only if at quit it was empty or some worker was before popNoWait or had a job in hand |
| JobTheorems.QueueNeedNotDrain | src/server/quitablequeue.h:42-87 | an instance: a run that ends with all workers joined and a job still queued |
| JobStorage.QuitableQueue.PopWaitTurn | src/server/quitablequeue.h:49-58 | one evaluation of the wait loop is the abstract step of the protocol |
| JobStorage.QuitableQueue.PopNoWait | src/server/quitablequeue.h:69-76 | takes the head, or nothing from an empty queue, even after quit; it is the abstract step of the protocol |
| JobStorage.QuitableQueue.Push | src/server/quitablequeue.h:92-95 | appends, as the abstract step does |
| JobStorage.QuitableQueue.Quit | src/server/quitablequeue.h:82-87 | closes for good, as the abstract step does |
| JobStorage.JobObject.SetStatus | src/server/job.h:42-48 | the finish time is set exactly with a final status; it is the status change of the protocol |
| JobStorage.JobStorage.Cleanup | src/server/jobstorage.cpp:21-41 | erasing while iterating removes exactly the done jobs finished before now minus the maximum age, and counts them; the ids left are those of the abstract step |
| JobStorage.JobStorage.GetStats | src/server/jobstorage.cpp:141-166 | each counter is the number of jobs with its status; the four add up to the map |
| SyncTheorems.NotInMeaning | src/server/worker.cpp:590-608 | NOT IN is true exactly if every row differs surely, with two non-NULL values, in some key column |
| SyncTheorems.NullKeyCaution | src/server/worker.cpp:585-612 | with NULLs in keys no row is deleted or inserted that has a not distinct partner |
| SyncTheorems.NullKeyStopsDelete | src/server/worker.cpp:604-608 | one temp row with an all-NULL key keeps DELETE from removing anything |
| SyncTheorems.UpdateRowResult | src/server/worker.cpp:502-577 | with unique temp keys a matched row becomes its partner's version exactly if some column differs, and else stays |
| SyncTheorems.SyncCorrect | src/server/worker.cpp:499-612 | keys stay unique; each temp row has exactly one partner, agreeing on the plain columns both statements write; with deletion nothing else is left, without it the rest are exactly the unmatched rows as they were |
| SyncTheorems.StatsBalance | src/server/worker.cpp:452-616 | with the counts each statement reports, new size = old size + created - deleted; bulk: created = temp rows, deleted = old size, for truncate exactly if no first key is NULL |
| SyncTheorems.StatsMeaning | src/server/worker.cpp:578-612 | created is the number of temp rows without a partner in the old target, deleted the number of old target rows without one in temp |
| SyncTheorems.DeleteCount | src/server/worker.cpp:604-610 | DELETE leaves as many rows fewer as it reports |
| SyncTheorems.WrittenExactly | src/server/worker.cpp:502-577 | a column of a matched row ends with its partner's value exactly if it had it or the row was updated |
| SyncTheorems.OneSidedGeometry | src/server/worker.cpp:542-569 | a geometry against NULL is replaced exactly if it is a collection or some other column differs |
| SyncTheorems.SyncSettled | src/server/worker.cpp:499-596 | no column both statements write, geometry included, still counts as different between a row and its partner; what differs is in `SyncContents` |
| SyncTheorems.SyncIdempotent | src/server/worker.cpp:502-612 | a second run reports 0/0/0 and changes nothing if and only if the target had every source key to begin with or the defaults of updated, not inserted columns are NULL |
| SyncTheorems.RepeatedPullUpdates | src/server/worker.cpp:502-612 | an instance: one row created by the first run, the same row updated by the second |
| SyncContents.GeometryUpdated | src/server/worker.cpp:542-569 | two geometries in a matched pair: the row ends with the source's exactly if they are equal, or their reference systems differ, or one is a collection, or st_equals is false, or another column has to be written |
| SyncContents.SyncContents | src/server/worker.cpp:499-612 | the table afterwards, row by row and column by column, from the tables before: paired rows, created rows and, without deletion, unmatched ones; all of them and no others |
| SyncContents.UpdatedCount | src/server/worker.cpp:571-577 | the number of updates reported is the number of rows that change |
| SyncContents.UpdatedToWrite | src/server/worker.cpp:502-577 | and the number of target rows that have to be written from a partner |
| SyncContents.CountNonNullMeans | src/server/worker.cpp:464-466 | the count taken before truncating is that of the rows with a value in the first key column |
| PullPlan.MakePlan | src/server/worker.cpp:241-287 | the loops collect what the specification collects, up to the first requirement that fails; what that is, `PullPlan.PlanMeans` and `PullPlan.PlanRefused` say |
| PullPlan.PlanMeans | src/server/worker.cpp:245-273 | an accepted plan has the configured keys if there are any and otherwise exactly the columns of the table's primary key; it updates the columns outside the primary key, and inserts the geometry and the columns the source has |
| PullPlan.PlanRefused | src/server/worker.cpp:252-287 | each refusal exactly under its condition and in this order: two geometry columns, an unknown configured key, no key, a key the source lacks |
| PullPlan.PlanGuarantee | src/server/worker.cpp:252-287 | an accepted plan has keys, and inserts its keys and its geometry |
| PullPlan.Convert | src/server/worker.cpp:373-424 | placeholder i carries column i: the bound row is the feature's row, or the feature cannot be converted |
| Database.GetTransaction | src/server/db/connection.cpp:125-129 | there is a transaction exactly if BEGIN succeeded; it starts without the rollback flag and without exit statements |
| Database.Transaction.Exec | src/server/db/transaction.cpp:53-167 | a failed statement sets the flag and nothing resets it |
| Database.Transaction.Close | src/server/db/transaction.cpp:27-50 | returns exactly if the closing statement succeeds; commits the current target exactly if no statement failed, otherwise keeps the committed one; exit statements change neither |
| Pull.SetUp | src/server/worker.cpp:225-363 | the target is untouched; if no statement fails the insert gets prepared exactly if the plan is accepted, its columns are distinct and the names quotable; a worker error is a refused plan |
| Pull.LoadFeature | src/server/worker.cpp:426-447 | one row more, or with ignore_failures none and the transaction usable but doomed; if only bad data fails, which of them is decided by the row and the setting |
| Pull.LoadFeatures | src/server/worker.cpp:370-449 | temp rows = pulled - ignored; with none ignored the temp table is the source; if only bad data fails all are loaded exactly if all convert and none is bad or bad ones are ignored, the ignored being just the bad ones |
| Pull.ApplyBulk | src/server/worker.cpp:452-494 | replaces the table, looking at neither filter nor deletion setting; succeeds if no statement fails; the rows are in `PullTheorems.PullBulk` |
| Pull.ApplyDefault | src/server/worker.cpp:499-612 | the three statements in order with their counts; whatever fails leaves the flag set or the target untouched; if no statement fails it succeeds exactly if there is a quotable column to set |
| Pull.PullJob | src/server/worker.cpp:218-636 | all or nothing, whichever statement, feature or identifier fails; a FINISHED pull has committed the whole result exactly if no feature was ignored; only a clean pull finishes, and if nothing but bad data fails a clean one does exactly if there is none or it is ignored, with the number ignored and the statistics |
| PullTheorems.LoadedShape | src/server/db/transaction.cpp:186-188 | temp rows are NULL in every column the insert does not name |
| PullTheorems.TempRowsMean | src/server/worker.cpp:373-449 | a feature's row in the temp table: its value in each inserted column, NULL in the others |
| PullTheorems.ListedTwice | src/server/worker.cpp:252-262 | for distinct columns, the insert names one twice exactly if a geometry column shares its name with a source field |
| PullTheorems.NothingToSet | src/server/worker.cpp:246-251 | there is no column to update exactly if all are key columns |
| PullTheorems.CleanExactly | src/server/worker.cpp:241-363 | what the pull needs to finish: an accepted plan, no geometry column named like a source field, in default mode a column that is no key, quotable names and convertible features |
| PullTheorems.AcceptedButNotClean | src/server/worker.cpp:252-262 | instances of accepted layers whose pull never finishes |
| PullTheorems.PullOnce | src/server/worker.cpp:218-636 | from the first statement to the commit: a failed or ignoring pull changes nothing, any other leaves exactly the rows of `SyncContents`, in sync with the source, geometry included, and reports exactly what was written, created and deleted; a clean one finishes if nothing but tolerated data fails |
| PullTheorems.PullBulk | src/server/worker.cpp:452-494 | a finished bulk pull, by DELETE or by TRUNCATE, has committed one row for each feature, in order, with the feature's value in each inserted column and the default in the others; the counts are exact |
| PullTheorems.PullTwice | src/server/worker.cpp:218-636 | two pulls through the same connection, neither ignoring a feature: the second is quiet under exactly the condition of idempotence, and then changes nothing; clean ones both finish |
| PullTheorems.IgnoredFeatureUndoesPull | src/server/worker.cpp:426-443 | a whole pull of two features, one of them bad: FINISHED with one ignored and one reported created, and the table still empty |
| AttributeDelete.DeleteStatement.AddSet | src/server/worker.cpp:674-698 | one parenthesised group; placeholder numbers continue from the values collected so far |
| AttributeDelete.DeleteStatement.AddSets | src/server/worker.cpp:671-700 | the whole clause and its values, or an unknown field |
| AttributeDelete.CompilationCorrect | src/server/worker.cpp:667-712 | the generated clause, evaluated with the collected values, holds for exactly the rows that match some non-empty set, NULL matching NULL |
| AttributeDelete.MatchesMeans | src/server/worker.cpp:667-700 | a row matches if it has all the values of some set that has any, NULL where NULL is given |
| AttributeDelete.EmptyMatchesNothing | src/server/worker.cpp:702-712 | without any attribute no row matches |
| AttributeDelete.SelectedMatch | src/server/worker.cpp:702-706 | the generated statement touches as many rows as match |
| AttributeDelete.WithoutMeans | src/server/worker.cpp:702-706 | of each row that matches no copy is left, of any other all are |
| AttributeDelete.MatchingBalance | src/server/worker.cpp:702-706 | every row is either left or counted |
| RemoveJob.RemoveByAttributes | src/server/worker.cpp:640-728 | exactly the matching rows go, all copies, and the others keep theirs, counted as the statement reports them; on every error path none does; without permission no statement is sent; if no statement fails an allowed job removes exactly if all fields are known |
| StringUtils.TrimMeaning | src/common/stringutils.cpp:15-28 | cuts exactly the surrounding characters off; a string of nothing else comes back unchanged |
| IniParser.ParsedTreeOk | src/common/iniparser.cpp:93-121 | in an accepted file no key and no section name occurs twice at one level, at any depth |
| IniParser.BlankLine | src/common/iniparser.cpp:34-40 | a line of blanks is skipped exactly if it is empty, and otherwise refused |
| IniParser.TrimCharacters | src/common/iniparser.cpp:74 | what is trimmed off lines, keys and values is white space; off names, brackets as well |
| IniParser.SkippedLine | src/common/iniparser.cpp:34-46 | empty lines and comments only end the value before them |
| IniParser.ContinuationLine | src/common/iniparser.cpp:48-59 | a line that continues a value is refused exactly if there is none |
| IniParser.AppendToMeans | src/common/iniparser.cpp:51-52 | it adds a line feed and its text to that key's value and leaves the others |
| IniParser.SectionHeader | src/common/iniparser.cpp:61-101 | a section line is refused exactly if it is more than one deeper than the open section or its name is taken there, complete or open; otherwise an empty section of that name is open |
| IniParser.KeyValueLine | src/common/iniparser.cpp:104-124 | any other line is refused exactly if it has no equals sign or its key is taken; otherwise key and value are what is before and behind the first one |
| IniParser.PrintParse | src/common/iniparser.cpp:28-126 | printing a tree with harmless keys, values and names and parsing the lines gives it back |
| IniPrintable.SectionInTree | src/common/iniparser.cpp:61-101 | every section line of an accepted file has its section in the tree |
| IniPrintable.ReadPrintRead | src/common/iniparser.cpp:28-126 | for every accepted file of single lines: its tree can be printed, and the printed lines read back as the tree, exactly if no section name consists of brackets and blanks alone |
| IniReader.Parser.WalkUp | src/common/iniparser.cpp:83-92 | the parent walk stays in the tree and ends at the ancestor one above the header's depth |
| IniReader.Parser.SectionHeader | src/common/iniparser.cpp:61-100 | a section line closes and opens sections as the fold does, or fails where it fails |
| IniReader.Parser.KeyValueLine | src/common/iniparser.cpp:104-124 | map and ordered list get the key together, or the line is refused |
| IniReader.Parser.ParseLevel | src/common/iniparser.cpp:28-126 | the recursion consumes all lines or stops at the first line the fold refuses |
| IniReader.ParseFile | src/common/iniparser.cpp:12-16 | accepts exactly what the fold accepts and builds its tree; ordered lists enumerate each map once in file order, every section is one deeper than its parent; the reported line is the first refused |
| Levenshtein.FillEntry | src/common/stringutils.cpp:103-111 | one table entry from its three neighbours, in place |
| Levenshtein.FillRow | src/common/stringutils.cpp:98-112 | turns one row of the table into the next in place |
| Levenshtein.LevenshteinDistance | src/common/stringutils.cpp:78-116 | the one-row computation is the recursive distance |
| Levenshtein.DiagonalNeverWorse | src/common/stringutils.cpp:104-106 | taking the diagonal on equal characters is never worse than the other moves |
| Levenshtein.DistIsMinimum | src/common/stringutils.cpp:78-116 | the distance is the least number of insertions, deletions and substitutions over all scripts |
| Levenshtein.DistIsMetric | src/common/stringutils.cpp:78-116 | symmetry, zero exactly for equal strings, triangle inequality |
| Allocator.MemoryPool.Malloc | src/3rdparty/rapidjson/rapidjson.h:235-246 | the new block is in bounds, 4-aligned and disjoint from all others, whose bytes stay; it begins where the newest chunk's used part ends if that chunk has room, and else in a new chunk |
| Allocator.MemoryPool.Realloc | src/3rdparty/rapidjson/rapidjson.h:249-272 | the block keeps its bytes whether it grows in place, moves or stays; so do all others; a growing block stays exactly if it ends the newest chunk's used part and that chunk has room |
| Allocator.GrowSafe | src/3rdparty/rapidjson/rapidjson.h:258-266 | growing the last allocation in place meets no other block |
| Allocator.MoveSafe | src/3rdparty/rapidjson/rapidjson.h:268-271 | copying to a new block changes no other |
| Allocator.ByteStack.Push | src/3rdparty/rapidjson/internal/stack.h:32-48 | contents gain the bytes at the end, across growth and moves, and no other block of the pool changes; the stack moves only when full, to twice the capacity or what is needed |
| Allocator.ByteStack.Pop | src/3rdparty/rapidjson/internal/stack.h:51-55 | returns the last bytes pushed and leaves the ones before |

## Left out

- Doubles in JSON: printing and `Pow10`. A double is kept as what was accumulated and a power of ten.
- JsonReader.Reader.ParseNumber: a double event carries the accumulated double and the power of ten,
  not their product.
- JsonDouble.RoundDouble: the accumulator is taken to be IEEE 754 binary64, rounded to nearest even
  after each operation, without extended precision or fused operations.
- JsonAccept.Accept: trees that hold doubles are excluded, because `%g` does not keep them.
- JsonAccept.Stringify: trees that hold doubles are excluded, because `%g` does not keep them.
- JsonEndToEnd.PrintAndRead: trees that hold doubles are excluded, because `%g` does not keep them.
- JsonEndToEnd.ReadPrintAndRead: texts whose numbers become doubles are excluded, for that reason.
- Error offsets of the JSON reader, counters narrower than the text, in-situ parsing, SIMD
  white space, and the jump out of nested calls, which is a returned error here.
- JsonWriter.Writer.WriteSigned: negates the minimum 32-bit and 64-bit integers, and the reader negates their
  magnitudes; C++ leaves the negation of the minimum undefined. It is taken as two's complement.
- Member lookup, `AddMember` and `PushBack` growth: values are sequences. The document's stack holds
  values; the byte stack below it is modelled separately (`Allocator.ByteStack`).
- User supplied buffers, freeing, and `size_t` overflow in the allocator; memory never runs out.
- Reading `queue_.size()` without the mutex, and `getJob` without it. `setStatus` is one step.
- `getOrderedJobs`, job messages and ids, and `reconnect`, which is taken to end.
- PullPlan.Convert: how a value is converted to text is not modelled, only whether it can be.
- Pull.PullJob: the source is a finite sequence of features; opening it, filters and everything
  OGR does before the transaction, geometry conversion, list fields and reprojection are not
  modelled. A value a feature cannot convert is part of the feature.
- Sql.UpdateRow: with several temp rows of one key PostgreSQL may use any of them; here it is the
  first. The synchronisation laws assume unique keys, where there is only one.
- Database.Serve: constraints, triggers and concurrent writers are part of what may make a
  statement fail. Data exceptions come from inserts into the temp table only. The temp table's name
  is fresh, so creating it never fails for that reason alone.
- Database.Transaction.Close: the connection status unknown to libpq is not modelled. An error in
  commit or rollback escapes a destructor and ends the process.
- RemoveJob.RemoveByAttributes: quoting of column names is taken to succeed; each condition's cast
  to the column type is part of whether the statement fails.
- Levenshtein.LevenshteinDistance: the vector is reserved but not resized in the original; it is
  an array of n + 1 entries here.
- IniReader.ParseFile: levels are records in a store and pointers are indices; the input is a
  sequence of lines.
- `split`, `join`, `replaceAll`, `tolower`, configuration keys, HTTP, logging, build tooling and the
  user interface: easy or foreign.
