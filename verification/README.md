# Verified models of sqlink's self-contained protocols and algorithms

sqlink runs SQLite extensions as WebAssembly components, natively and in the
browser. This project models the parts of it that stand on their own feet, and
proves what they are for. `dafny verify dfyconfig.toml` checks everything.

One module models one piece of the program:

* `LockChain`, `CliWindow` and `Session`: the composed-CLI worker. Callers queue
  at a mutex made of chained promises, push scripts to one stdin, and cut their
  answers out of one growing stdout buffer at sentinel lines. `Session` is a
  state machine over every interleaving of requests, lock steps, CLI answers,
  prompts and chunks; its main result is that every caller gets its own rows.
* `Pairing`: request ids, pending promises and closing on the main thread.
* `OpfsHost`: the handle table over preopened files, shown to be
  indistinguishable from a plain store of files.
* `EditDistance`: the emitted dynamic-programming table against all edit scripts.
* `CivilTime` and `ListXml`: date arithmetic, the two date parsers, and the
  reader of S3 listings.
* `Landing`: the landing page compiled to a SQL concatenation.
* `FunctionNames` and `PrefixRegistry`: names for loaded functions, prefixes,
  collisions and pins.
* `BlobCache`: the authenticated LRU cache of precompiled components.
* `TypedValues`, `VtabBatch`, `Statements`, `CsvLine`: the typed-value registry,
  the batch-fetch fallback, prepared statements, and the CSV line scanner.
* `Text`: string operations the programs take from their standard libraries.

Code that changes state step by step is a class or a loop here, and its methods
are proved equal to functions on values; the results over whole runs are about
those functions. Each SQL statement is modelled by its effect on a table.

Assumptions about the surroundings of the session (`Session.Enabled`,
`CliWindow.Clean`): no timeouts, echo off, scripts answered in the order they
are pushed, the user's part of each script complete (no open string, comment or
statement that would swallow the sentinel's SELECT, such as a line comment at
the end, behind which the code's own semicolon is lost), a prompt never split
over two chunks (other output may be), rows that are one line, not blank, not
like a prompt, not like the CLI's own messages, without a carriage return at the
end and free of the sentinel prefix.

## Where the code falls short of what it promises

* A dot command's output is meant to end before the sentinel. The trim looks for
  the echoed SELECT, which is not there with echo off, so the sentinel's line
  stays in the output (`Session.DotOutputKeepsSentinel`).
* A second call of `close()` returns at once, also while requests are pending
  (`Pairing.SecondCloseReturnsEarly`); nothing is pending then exactly when the
  first call has finished or every id up to its own is settled
  (`Pairing.EarlyReturnIsCleanIff`).
* A request whose handler throws an error with an empty message is resolved, with an
  undefined value, instead of rejected (`Pairing.EveryIdAccountedFor`).
* "Never clobber" covers the bare name of a scalar only, exactly while a candidate
  is free and the one chosen hides no built-in function
  (`FunctionNames.LoadPreservesIff`). The query does not see the built-in
  functions that ask for a least number of arguments, such as `max`
  (`FunctionNames.MaxIsTakenOver`; `FunctionNames.FixedArityHidesIff` has the
  names), and for a function of any number of arguments not the exact arities
  held (`FunctionNames.VariadicUpper`). The qualified name, and both names of an
  aggregate, are registered unchecked (`FunctionNames.AggregatePreservesIff`),
  and names must be in lower case (`FunctionNames.FoldingMatters`).
* A provider's manifest chooses all its names before registering any, so that
  two of its own functions can get the same name
  (`FunctionNames.BatchMayClashWithItself`); `FunctionNames.ManifestIsSafeIff`
  says which manifests are safe in every table.
* A cell that contains a bar comes back as two (`Session.ExecGetsItsOwnCells`).
* CSV fields are trimmed inside quotes too, so a list comes back exactly when no
  field has white space at an end (`CsvLine.RoundTripIff`).
* Statement ids repeat after 2^64 - 1 prepares and then replace an open
  statement (`Statements.IdsDifferIff`, `Statements.OpenStatementIsReplaced`).
* When an export throws in a batch, the rows the batch had read are lost, which
  a row-by-row scan would have delivered (`VtabBatch.RowsAreLost`;
  `VtabBatch.AllDeliveredIff` says when none are).

## Model

| member | source | states |
|---|---|---|
| `LockChain.Mutex.AcquireLock` | browser/src/composed-cli-worker.js:130-138 | makes one promise, waits for the chain's last one and becomes the last: the next state of the chain model, with the ticket's two promises returned |
| `LockChain.Mutex.Enter` | browser/src/composed-cli-worker.js:639 | a wait that returns marks exactly its own ticket as having entered |
| `LockChain.Mutex.Release` | browser/src/composed-cli-worker.js:651-653 | the `finally` block resolves exactly the promise the next ticket waits for |
| `LockChain.MutualExclusion` | browser/src/composed-cli-worker.js:130-138 | in every reachable state, over all runs of calls, entries and releases, two holders are the same ticket |
| `LockChain.GrantsInCallOrder` | browser/src/composed-cli-worker.js:130-138 | the tickets that entered in a run are 0, 1, 2, ... in that order, and exactly those have entered in the state reached |
| `LockChain.ReleaseBringsForward` | browser/src/composed-cli-worker.js:130-138 | while a ticket waits, a release lowers the number of unresolved promises ahead of it by exactly one and no other event changes it |
| `LockChain.WaitIsBounded` | browser/src/composed-cli-worker.js:130-138 | conservation over a whole run: releases made plus places left equals places at the start, as long as the ticket keeps waiting |
| `LockChain.NeverStuck` | browser/src/composed-cli-worker.js:130-138 | a waiting ticket can enter exactly when nobody is ahead; otherwise some ticket ahead can enter or release, so every waiter is granted if every holder releases |
| `CliWindow.ParseCliWindow` | browser/src/composed-cli-worker.js:689-708 | no result set exactly when no line is a value row, otherwise one with no columns and the value rows, in order, as its values |
| `CliWindow.WindowReadsBack` | browser/src/composed-cli-worker.js:689-708 | any printed mixture of clean rows, CLI messages, blank lines and prompts, up to the sentinel, reads back as one result set without columns whose values are exactly the rows printed, in order, or as none exactly when no row was printed |
| `CliWindow.RowsAreInOrder` | browser/src/composed-cli-worker.js:689-708 | a printed row counts as its text split at the bars; messages, blank lines and prompts count as no row; the rows of a concatenation are the rows of its parts in order |
| `CliWindow.PrintedIs` | browser/src/composed-cli-worker.js:693-698 | what the CLI prints: a row or message and a line end, a blank line, or one of the two prompts |
| `CliWindow.CleanIs` | browser/src/composed-cli-worker.js:689-705 | what the CLI may print, spelled out: a row is one line, not blank, without a carriage return behind, does not start with a prompt nor with one of the two messages, and has no sentinel prefix in it |
| `CliWindow.ReturnedUnchanged` | browser/src/composed-cli-worker.js:690-705 | a printed line comes back as its own columns if and only if it is not blank, does not start with either prompt, has no carriage return behind, does not start with one of the two messages and mentions no sentinel prefix |
| `CliWindow.CellsComeBackIff` | browser/src/composed-cli-worker.js:704 | the cells of a row come back if and only if none of them contains a bar |
| `CliWindow.TableComesBackIff` | browser/src/composed-cli-worker.js:689-708 | the rows read are the table printed if and only if no cell contains a bar |
| `CliWindow.NoneBefore` | browser/src/composed-cli-worker.js:641-648 | no sentinel string starts anywhere inside the output printed before it, whatever follows |
| `CliWindow.WindowIs` | browser/src/composed-cli-worker.js:729-733 | when the sentinel is seen behind the cursor, all of the answer has arrived and the window is exactly the printed items and the sentinel, with its line end if and only if that has arrived |
| `CliWindow.NoSelectInWindow` | browser/src/composed-cli-worker.js:680-682 | with echo off a window never contains the sentinel's own SELECT text, so the dot command's trim never finds it |
| `Session.ExecGetsItsOwnRows` | browser/src/composed-cli-worker.js:710-738 | in every interleaving of calls, lock steps, CLI answers, prompts and chunks, a finished exec holds one result set with no columns whose values are exactly the rows the CLI printed for its own script, in order, or none exactly when it printed no row |
| `Session.ExecGetsItsOwnCells` | browser/src/composed-cli-worker.js:710-738 | in every run an exec whose printed rows are those of a table returns the table itself, cell by cell, if and only if no cell contains a bar |
| `Session.ScriptTexts` | browser/src/composed-cli-worker.js:641-724 | the script pushed: a statement ends in one semicolon whether or not it had one, trailing white space gone; a dot command loses its line ends; a load is .load and the name; then the sentinel's SELECT |
| `Session.DotOutputKeepsSentinel` | browser/src/composed-cli-worker.js:656-687 | in every run a finished dot command holds noise, its own answer and also the sentinel's line (the trim in lines 680-682 does not act) |
| `Session.OneRunning` | browser/src/composed-cli-worker.js:125-138 | in every run at most one request is between its cursor and its answer |
| `Session.SoundRun` | browser/src/composed-cli-worker.js:638-738 | the invariant of all runs: calls done in order, ids equal to positions, written output equal to noise, own answer, own sentinel and noise, finished outcomes right |
| `Session.CutIsOwn` | browser/src/composed-cli-worker.js:675-679 | a delivered sentinel means that only line ends and prompts are still undelivered and that the cut is the request's own output |
| `Session.SeenStaysSeen` | browser/src/composed-cli-worker.js:140-148 | a waiter's test that has become true stays true when more output is appended |
| `Session.NeverStuck` | browser/src/composed-cli-worker.js:638-738 | while any request is unfinished, the next can enter, the CLI can take a script, output can be delivered or the running request can finish |
| `Session.EveryRequestFinishes` | browser/src/composed-cli-worker.js:638-738 | from every reachable state a run of worker and CLI alone, without new requests, finishes every request |
| `Session.EveryScheduleFinishes` | browser/src/composed-cli-worker.js:638-738 | whatever moves are made and whatever the CLI answers, every schedule that moves while it can comes to a state with all requests finished |
| `Session.Worker.Call` | browser/src/composed-cli-worker.js:716 | a request takes the next ticket and the session makes its Request step |
| `Session.Worker.Begin` | browser/src/composed-cli-worker.js:718-724 | the holder counts up, takes the buffer's length as cursor and pushes its script: the session's Enter step, invariant kept |
| `Session.Worker.WaitForStdout` | browser/src/composed-cli-worker.js:186-187 | resolves at once if the sentinel is there and registers a waiter otherwise |
| `Session.Worker.WakeStdoutWaiters` | browser/src/composed-cli-worker.js:140-148 | the waiters left are, in order, those whose test fails; the others' tickets are resolved |
| `Session.Worker.OnStdout` | browser/src/composed-cli-worker.js:469-472 | appends the chunk and wakes waiters: the session's Deliver step, every resolved wait really over |
| `Session.Worker.ReadStdin` | browser/src/composed-cli-worker.js:646 | scripts leave the queue in the order pushed, as the texts pushed |
| `Session.Worker.FinishExec` | browser/src/composed-cli-worker.js:729-737 | after its wait the request can always finish; it returns one result set without columns holding the rows printed for it, or none exactly when none was printed, and the lock is released |
| `Session.Worker.FinishDot` | browser/src/composed-cli-worker.js:675-685 | the same for a dot command's output |
| `Session.Worker.FinishLoad` | browser/src/composed-cli-worker.js:647-653 | the same for a load, which returns nothing |
| `Pairing.ComposedDatabase.OnMessage` | browser/src/sqlink-composed.js:51-73 | a reply to a pending id resolves its promise with the value, or rejects it with the error when there is one that is not empty, and forgets the id; unknown ids and other messages change nothing |
| `Pairing.ComposedDatabase.RejectAll` | browser/src/sqlink-composed.js:206-210 | every pending promise is rejected, none stays pending, settled ones keep their outcome |
| `Pairing.SettleAllIs` | browser/src/sqlink-composed.js:206-210 | rejecting all settles every pending id in the way given, leaves settled ones as they are and nothing pending |
| `Pairing.ComposedDatabase.OnError` | browser/src/sqlink-composed.js:40-48 | a worker error rejects every pending promise and forgets it |
| `Pairing.ComposedDatabase.CloseEnd` | browser/src/sqlink-composed.js:201-211 | the end of close rejects what is still pending, so that nothing is |
| `Pairing.ComposedDatabase.PostAndAwait` | browser/src/sqlink-composed.js:75-84 | after closing no id is issued; before, the next id becomes pending and its message is posted |
| `Pairing.ComposedDatabase.CloseBegin` | browser/src/sqlink-composed.js:193-217 | the first close issues and posts its own id; a later one changes nothing and returns at once |
| `Pairing.ComposedDatabase.CloseTimer` | browser/src/sqlink-composed.js:219-225 | the timer settles the close id if it is still pending and does nothing otherwise |
| `Pairing.EveryIdAccountedFor` | browser/src/sqlink-composed.js:75-84 | in every reachable state the ids issued are exactly the pending and the settled ones, never both, and an id settled by a reply is resolved with the value the handler of that message returned or rejected with the error it threw (resolved with undefined when that error is the empty string) |
| `Pairing.DeliveredReplySettles` | browser/src/sqlink-composed.js:51-73 | in every reachable state, delivering a reply to a pending id settles it: resolved with the value returned, rejected with the error thrown unless that is the empty string |
| `Pairing.PendingIsUnderWay` | browser/src/sqlink-composed.js:75-84 | in every reachable state each pending id is under way: its message waits in the worker's queue, its handler is at work, or its reply is in the inbox |
| `Pairing.SettledOnce` | browser/src/sqlink-composed.js:51-73 | through any continuation of any run a settled promise keeps its outcome |
| `Pairing.NothingPendingAfterClose` | browser/src/sqlink-composed.js:193-211 | once the closing call has finished, every promise ever handed out is settled and none is handed out afterwards, in every continuation |
| `Pairing.CloseAlwaysEnds` | browser/src/sqlink-composed.js:213-227 | whatever the worker does, timer and end of close are possible and finish it |
| `Pairing.EarlyReturnIsCleanIff` | browser/src/sqlink-composed.js:194 | in every reachable state a close that returns at once leaves nothing pending if and only if the first close has finished, or its id and all ids before it are settled |
| `Pairing.EarlyReturnBeforeSettling` | browser/src/sqlink-composed.js:194 | until the first close's own id is settled, an early return always leaves that id pending |
| `Pairing.EarlyReturnAfterSettling` | browser/src/sqlink-composed.js:193-211 | a concrete run in which the close is answered first and a close that returns at once leaves the earlier request pending |
| `Pairing.SecondCloseReturnsEarly` | browser/src/sqlink-composed.js:193-195 | a concrete run in which a second close returns while two requests are pending |
| `OpfsHost.HostIsAStore` | browser/src/composed-cli-worker.js:250-436 | for all initial files and operation sequences every reply of the host equals the reply of a plain path-to-bytes store in which empty means absent |
| `OpfsHost.StepRefines` | browser/src/composed-cli-worker.js:301-431 | the commuting square of one operation: same reply, and the view of the new host is the new store |
| `OpfsHost.CountsAreHandles` | browser/src/composed-cli-worker.js:405-416 | after any operations each reference count is the number of live handles on its path, every live handle names a preopened path, and a close never reaches the clamp |
| `OpfsHost.IdsNeverReused` | browser/src/composed-cli-worker.js:330-333 | the handle ids given out over any operations count up without repetition, across closeAll too |
| `OpfsHost.PatchedBytes` | browser/src/composed-cli-worker.js:362-364 | byte by byte: written data where written, old content elsewhere, zeros in a gap |
| `OpfsHost.WriteThenRead` | browser/src/composed-cli-worker.js:335-371 | reading where one has just written gives the data back, through any handle on the file |
| `OpfsHost.TruncateIs` | browser/src/composed-cli-worker.js:372-382 | after a truncate to a size, any handle on the file answers that size, and each byte reads as the old one below both sizes, as zero up to the new one, and as nothing behind it |
| `OpfsHost.RepliesAre` | browser/src/composed-cli-worker.js:335-404 | through a live handle a read gives the bytes from the offset up to the length asked for or the end of the file, a size request its length, a write its length modulo 2^32; a delete leaves the file empty for every handle on it |
| `OpfsHost.PathSegmentsAre` | browser/src/composed-cli-worker.js:216-218 | a path has the segments of its parts around any slash, empty ones left out |
| `OpfsHost.WorkerOpfsHost.PreopenAll` | browser/src/composed-cli-worker.js:270-282 | known paths are skipped; the first path that cannot be opened ends the loop with the earlier ones kept |
| `OpfsHost.PreopensAre` | browser/src/composed-cli-worker.js:270-282 | after preopening a list the known paths are the earlier ones and the first i of the list, all of them or up to one that has no segments or the segments of another known path |
| `OpfsHost.PreopensKeep` | browser/src/composed-cli-worker.js:270-282 | preopening changes no file and no handle; a path that becomes known has count 0 |
| `OpfsHost.WorkerOpfsHost.Open` | browser/src/composed-cli-worker.js:301-334 | not-found for paths not preopened and for probes of empty files, otherwise the next id with the count raised |
| `OpfsHost.WorkerOpfsHost.Read` | browser/src/composed-cli-worker.js:335-354 | unknown handle is invalid; otherwise the bytes from the offset, at most to the end |
| `OpfsHost.WorkerOpfsHost.Write` | browser/src/composed-cli-worker.js:355-371 | the file is patched and the reply is the length modulo 2^32 |
| `OpfsHost.WorkerOpfsHost.Truncate` | browser/src/composed-cli-worker.js:372-382 | the file is cut or zero-filled to the size |
| `OpfsHost.WorkerOpfsHost.Close` | browser/src/composed-cli-worker.js:405-416 | an unknown handle changes nothing; a known one is dropped and its path's count lowered |
| `OpfsHost.WorkerOpfsHost.Delete` | browser/src/composed-cli-worker.js:417-431 | a preopened file becomes empty and stays preopened; others change nothing |
| `OpfsHost.WorkerOpfsHost.CloseAll` | browser/src/composed-cli-worker.js:284-294 | forgets all paths and handles; files and the next id stay |
| `EditDistance.Levenshtein` | scripts/build-extension.py:823-838 | fewer than two arguments throw, SQL NULL gives NULL, and otherwise the result is the least cost of any edit script from one string to the other |
| `EditDistance.DistanceIsMinimal` | scripts/build-extension.py:834-835 | a number is the least cost over all edit scripts if and only if it is the recurrence's value, shortcut on equal characters included |
| `EditDistance.DistanceIsLowerBound` | scripts/build-extension.py:834-835 | no edit script is cheaper than the recurrence's value |
| `EditDistance.AlignAttains` | scripts/build-extension.py:834-835 | some edit script attains it |
| `EditDistance.DistanceIsLipschitz` | scripts/build-extension.py:834-835 | neighbouring table cells differ by at most one |
| `EditDistance.DistanceCommutes` | scripts/build-extension.py:823-838 | the distance is symmetric |
| `EditDistance.TriangleInequality` | scripts/build-extension.py:823-838 | the distance from a to c is at most the distances by way of any b, by composing edit scripts |
| `EditDistance.ZeroIffEqual` | scripts/build-extension.py:823-838 | the distance is zero exactly for equal strings |
| `CivilTime.FormulaIsCalendar` | host/src/s3.rs:342-348 | for every date the era formula, with every 32-bit step checked, is the plain count of days from years and months |
| `CivilTime.EpochSecondsAreCalendar` | host/src/s3.rs:340-355 | for every date and time the parsers' tail gives the calendar's second count without overflow, and refuses exactly the years before 1970 |
| `CivilTime.NumberIsIncreasing` | host/src/s3.rs:340-348 | a later date has a strictly larger day number |
| `CivilTime.CivilFromDaysInverts` | host/src/s3.rs:340-348 | a valid date is the one computed from a day number if and only if it has that number |
| `CivilTime.HttpRoundTrip` | host/src/s3.rs:310-356 | every second from 1970 to the end of 9999, printed as an RFC 9110 section 5.6.7 IMF-fixdate with any word for the weekday, parses back to itself |
| `CivilTime.IsoRoundTrip` | host/src/s3.rs:434-467 | the same for ISO 8601 UTC with any fractional part |
| `ListXml.XmlBlocks` | host/src/s3.rs:406-422 | the cursor loop returns the texts between successive open and close tags; it ends because the cursor grows |
| `ListXml.ParseListResponse` | host/src/s3.rs:363-403 | the method's loops compute the listing function the round trip is about, overflow of a date included |
| `ListXml.XmlTagInLeaves` | host/src/s3.rs:424-430 | looking a tag up among clean leaves finds the text of the first leaf with that tag |
| `ListXml.BlocksOfRepeated` | host/src/s3.rs:406-422 | the blocks of a repeated element are its items in order, whatever clean text stands around them |
| `ListXml.ObjectRoundTrip` | host/src/s3.rs:371-384 | leaves that describe an object, in any order, among any other leaves and elements with children, read back as the object: any fraction of a second, any quotes around the ETag or none, an empty key when there is none, size 0 when there is none or it is no number of 64 bits |
| `ListXml.ListingRoundTrip` | host/src/s3.rs:363-430 | any response that says a listing, whatever its layout, reads back as the same objects, prefixes and token in order, and as truncated exactly when the flag is there and is the word true in any case; a prefix element that names none is skipped |
| `ListXml.PlainListingHasLayout` | host/src/s3.rs:363-403 | every listing of texts without markup can be written in such a layout |
| `Landing.LandingHandler` | extensions-site/build.py:468-515 | for every template, evaluating the SQL produced gives the page with all count placeholders substituted, and the content type; for a template of text and slots, the pieces in order with style, JSON and counts in their slots |
| `Landing.SplitPage` | extensions-site/build.py:495-512 | the split loop ends and returns the page's literals and subqueries in order |
| `Landing.HandlerMeaning` | extensions-site/build.py:468-515 | compiling preserves meaning: literals unquoted and subqueries replaced by the counts give direct substitution into the page |
| `Landing.PiecesMeaning` | extensions-site/build.py:468-515 | for every template written as text and slots the SQL evaluates to the pieces in order, with the style in the style slots, the JSON in the data slots, the extension count in the extension and total slots and the function count in the function slots |
| `Landing.LiteralReadsBack` | extensions-site/build.py:100-103 | unquoting a quoted string gives it back, whatever follows it |
| `Landing.PartsEvaluate` | extensions-site/build.py:495-514 | the parts joined by the concatenation operator evaluate to the page with its placeholders rendered |
| `Landing.SubstitutedIsRendered` | extensions-site/build.py:484-493 | replacing the placeholders one kind after the other is replacing them all at once |
| `Landing.RenameThenRender` | extensions-site/build.py:490-493 | renaming the total-count placeholder first does not change the rendered page |
| `FunctionNames.ResolveCollisionFreeName` | host/src/prefix_registry.rs:378-411 | the loop answers the chosen name and whether it is a remapping, or fails, as the candidate search does |
| `FunctionNames.ResolvedIsFirstFree` | host/src/prefix_registry.rs:365-411 | the chosen name is the first of the thousand candidates that is free; failure means all are taken |
| `FunctionNames.ChosenNameIs` | host/src/prefix_registry.rs:378-397 | the bare name if it is free, else the extension's name, an underscore and the name if that is free |
| `FunctionNames.NumberedNameIs` | host/src/prefix_registry.rs:398-411 | then the same with an underscore and the first free number from 2 to 999, and nothing when all are taken |
| `FunctionNames.QualifiedIsCalled` | host/src/lib.rs:9286-9311 | after a load with a prefix the function is run by the prefix, two underscores and its name |
| `FunctionNames.LoadPreserves` | host/src/prefix_registry.rs:335-411 | one new scalar with lower-case names takes a name the query finds free, changes no earlier call if and only if it hides no built-in function, and is run by calls of its arity, or, when it takes any number, of every arity the application does not hold exactly |
| `FunctionNames.LoadedPreservesIff` | host/src/lib.rs:9225-9320 | registering a scalar or an aggregate, with its qualified name, changes no call if and only if nobody else answers a call that one of the names would take over |
| `FunctionNames.NewIsUnheldIff` | host/src/prefix_registry.rs:322-334 | for a new function that is, for an exact arity, that no function answers so many arguments, and, for any arity, that the application holds no variadic one and every arity a built-in function answers |
| `FunctionNames.FreeIsUnheldIff` | host/src/prefix_registry.rs:335-354 | a name that the query finds free takes over no call if and only if it hides no built-in function |
| `FunctionNames.FixedArityHidesIff` | host/src/prefix_registry.rs:332-354 | among the free names of a fixed arity exactly min, max and concat from one argument on, and concat_ws, coalesce, iif and if from two on, hide a built-in function |
| `FunctionNames.NameIsUnheldIff` | host/src/prefix_registry.rs:378-411 | the bare registration of a new scalar, fallback included, takes over no call if and only if some candidate was free and the one chosen hides no built-in function |
| `FunctionNames.LoadPreservesIff` | host/src/lib.rs:9229-9320 | loading a new scalar, with the fallback to the bare name and the unchecked qualified name, changes no call if and only if some candidate was free, the one chosen hides no built-in function, and nobody answers for the qualified name |
| `FunctionNames.AggregatePreservesIff` | host/src/lib.rs:9393-9488 | an aggregate, registered unchecked, changes no call if and only if nobody else answers for its bare name nor for its qualified name |
| `FunctionNames.ReloadPreservesIff` | host/src/lib.rs:9288-9303 | loading the scalar of an extension again changes no call if and only if the function is the same one and the name it now gets is nobody else's |
| `FunctionNames.MaxIsTakenOver` | host/src/prefix_registry.rs:332-354 | a concrete table in which a scalar max of two arguments gets the bare name and takes the calls of the built-in max |
| `FunctionNames.VariadicUpper` | host/src/prefix_registry.rs:335-339 | a concrete variadic upper that gets the bare name: it takes the calls of the built-in upper of one argument and leaves those of an application's |
| `FunctionNames.RegisterKeepsFolded` | host/src/prefix_registry.rs:322-334 | the table keeps all names in lower case, whatever case is registered |
| `FunctionNames.SessionNeverClobbersIff` | host/src/lib.rs:9225-9488 | over any session of scalars and aggregates whatever a call runs at any point it still runs at every later point, if and only if no load meets a name under which somebody else answers a call it would take over |
| `FunctionNames.LoadedStaysCallable` | host/src/lib.rs:9225-9488 | at the end of such a session a call of n arguments under any name a function got runs it if and only if it has n arguments, or takes any number and the application holds no function of exactly n there |
| `FunctionNames.FoldingMatters` | host/src/prefix_registry.rs:335-354 | loads that find a candidate free and hide no built-in function disturb no call in any table, if and only if extension and function name have no upper-case letter |
| `FunctionNames.CaseDoesNotMatter` | host/src/prefix_registry.rs:322-334 | two names that differ in the case of ASCII letters only run the same function |
| `FunctionNames.FoldsTogetherIff` | host/src/prefix_registry.rs:322-334 | two names are one to the table if and only if they differ in the case of ASCII letters only |
| `FunctionNames.BatchPreservesIff` | host/src/lib.rs:1504-1527 | a manifest whose names are all chosen before any is registered keeps earlier calls if and only if each of its functions found a candidate free and hides no built-in function under it |
| `FunctionNames.BatchHeldIff` | host/src/lib.rs:1504-1527 | in a given table all functions of a manifest are held under their names if and only if no two of equal arity meet at the first free candidate of both |
| `FunctionNames.ManifestIsSafeIff` | host/src/lib.rs:1504-1527 | all functions of an extension's manifest are held in every table if and only if no two of equal arity have names of which one is the other's, one of its fallbacks, or the other's with a fallback number |
| `FunctionNames.HeldIsCalled` | host/src/lib.rs:1504-1527 | a held function is run by a call of n arguments under its name if and only if it has n arguments, or takes any number and the application holds no function of exactly n there |
| `FunctionNames.BatchMayClashWithItself` | host/src/lib.rs:1504-1527 | a concrete manifest whose two functions get the same name, so that the first is lost |
| `PrefixRegistry.SqliteStore.RecordPrefix` | host/src/prefix_registry.rs:123-172 | the new table and the alias are those of the first slot unbound or already bound so |
| `PrefixRegistry.RunKeeps` | host/src/prefix_registry.rs:123-172 | over any run of recordings a bound prefix never changes its expansion |
| `PrefixRegistry.AnswerIsStable` | host/src/prefix_registry.rs:123-172 | once a pair has been answered with an alias, after any other calls the same pair gets the same alias and nothing changes |
| `PrefixRegistry.FailsWhenFull` | host/src/prefix_registry.rs:142-171 | a call fails if and only if the prefix and its 998 numbered forms, 2 to 999, all hold other expansions, and then the table is untouched |
| `PrefixRegistry.OwnPrefixIsAnswered` | host/src/prefix_registry.rs:142-150 | a prefix unbound or bound to the expansion is bound and answered as it is |
| `PrefixRegistry.AliasIs` | host/src/prefix_registry.rs:142-171 | otherwise the alias is the prefix with the first number from 2 to 999 behind it that makes a name unbound or bound alike, and that name is bound |
| `PrefixRegistry.SecondGetsTwo` | host/src/prefix_registry.rs:144-145 | a second expansion for a bound prefix gets the prefix with 2 behind it when that is unbound |
| `PrefixRegistry.SqliteStore.RecordFunction` | host/src/prefix_registry.rs:214-271 | returns exactly the other expansions that have the function, each once, from before the row is written, and upserts the row |
| `PrefixRegistry.CollidesIffWarned` | host/src/prefix_registry.rs:214-271 | over any run a function has two or more expansions if and only if some registration of it was told of another |
| `PrefixRegistry.SqliteStore.ListCollisions` | host/src/prefix_registry.rs:467-509 | the merging loop groups the query's rows: each function once with its expansions in row order, and taken apart again the list is the rows |
| `PrefixRegistry.ListIsComplete` | host/src/prefix_registry.rs:467-509 | a function is listed if and only if two expansions have it, once, with its complete expansion set, each once, in registration-time order up to ties; the functions come in the order of name and arity |
| `PrefixRegistry.QueryHasResult` | host/src/prefix_registry.rs:470-478 | every table has a result the query may return, so the list is about every table |
| `PrefixRegistry.SqliteStore.Pin` | host/src/prefix_registry.rs:446-465 | sets the pin of one function and of no other |
| `PrefixRegistry.SqliteStore.LookupPin` | host/src/prefix_registry.rs:276-298 | answers the pinned expansion or none |
| `PrefixRegistry.LastPinDecides` | host/src/prefix_registry.rs:300-315 | after any pins, an expansion may claim a pinned bare name if and only if it is the one pinned last |
| `BlobCache.Connection.EvictTo` | host/src/component_blob_cache.rs:201-259 | ends with at most the target; bytes freed are before minus after; victims go least recently used first, then by digest, all before what stays, and one fewer would exceed the target |
| `BlobCache.Connection.PickVictim` | host/src/component_blob_cache.rs:208-214 | a row with the least last use, and among those the least digest |
| `BlobCache.BeforeIs` | host/src/component_blob_cache.rs:208-214 | the row used longer ago goes first; of two used at the same time, the one whose digest is smaller at the first character that differs |
| `BlobCache.Connection.TotalBytes` | host/src/component_blob_cache.rs:158-172 | the sum of the frame lengths of all rows |
| `BlobCache.TotalIs` | host/src/component_blob_cache.rs:158-172 | bytes are counted frame by frame over any split of the table, a sealed frame with its 32 bytes of tag |
| `BlobCache.Connection.PurgeAll` | host/src/component_blob_cache.rs:192-197 | empties the table and returns the bytes there were |
| `BlobCache.Connection.Store` | host/src/component_blob_cache.rs:267-305 | replaces the row of the key by a newly sealed frame; a digest that is no hex changes nothing |
| `BlobCache.Connection.Lookup` | host/src/component_blob_cache.rs:101-155 | opens the row's frame; a hit sets the last use of that row to now and changes no other, anything else changes nothing |
| `BlobCache.LookupReturnsLastStored` | host/src/component_blob_cache.rs:101-155 | over any run of stores, lookups, evictions and purges a lookup returns nothing without a row and else exactly the bytes last stored under the key |
| `BlobCache.StoredIsFound` | host/src/component_blob_cache.rs:267-305 | after a store that could be sealed, with no eviction or purge since, there is a row for the key, whatever else happened |
| `BlobCache.LookupIsAuthentic` | host/src/component_blob_cache.rs:124-139 | even when others overwrite rows with any blob or any earlier frame, bytes returned were once stored for the same digest and engine |
| `BlobCache.KeysAreUnique` | host/src/component_blob_cache.rs:283-304 | in every run no key has two rows |
| `BlobCache.TimeIsOfLastUse` | host/src/component_blob_cache.rs:140-153 | in every run the time of a row is that of the last store or hit of its key, so eviction takes the key used least recently |
| `BlobCache.DecodeIs` | host/src/component_blob_cache.rs:324-334 | exactly the strings of an even number of hexadecimal digits in either case decode, two digits to a byte, high one first |
| `TypedValues.BytesToHexLoop` | browser/src/extension-loader.js:82-100 | the padding loop computes two lower-case digits a byte |
| `TypedValues.SameKeyIff` | browser/src/extension-loader.js:94-99 | two type ids share a key if and only if they have equal length and equal low bytes, so the key is injective on byte strings |
| `TypedValues.HexIs` | browser/src/extension-loader.js:94-99 | the key has two lower-case hexadecimal digits for the low byte of each element, in order |
| `TypedValues.ExtensionRegistry.Add` | browser/src/extension-loader.js:612-614 | the name is registered before the drain; the result says whether a conflict was thrown |
| `TypedValues.ExtensionRegistry.DrainTypedValues` | browser/src/extension-loader.js:698-737 | entries without a key are skipped, equal ones kept, the first conflict stops with the earlier bindings in place |
| `TypedValues.ExtensionRegistry.ForgetTypedValuesFor` | browser/src/extension-loader.js:769-775 | deleting during iteration leaves exactly the other owners' bindings |
| `TypedValues.ExtensionRegistry.ForgetRegistrations` | browser/src/extension-loader.js:673-688 | drops a registered extension's bindings and keeps it registered; unknown names change nothing |
| `TypedValues.ExtensionRegistry.Delete` | browser/src/extension-loader.js:785-799 | drops the extension and exactly its bindings |
| `TypedValues.DrainedIff` | browser/src/extension-loader.js:698-737 | the drain comes to its end if and only if afterwards every keyed entry is bound as declared |
| `TypedValues.DrainedFrom` | browser/src/extension-loader.js:698-737 | a binding added by a drain, complete or not, is one its list declared |
| `TypedValues.DeclaredIsBound` | browser/src/extension-loader.js:698-737 | after a complete drain every declared entry with a type id that is not empty is bound under its hex key to the extension and to the symbolic name, decoder and encoder declared |
| `TypedValues.AddedWasDeclared` | browser/src/extension-loader.js:698-737 | a binding added by any drain has the hex key and exactly the fields of an entry of its list |
| `TypedValues.OwnersAlwaysRegistered` | browser/src/extension-loader.js:612-614 | in every reachable state, also after a conflict in the middle of a drain, every binding's owner is registered |
| `TypedValues.BindingsPersist` | browser/src/extension-loader.js:698-737 | a binding keeps owner, decoder, encoder and symbolic name through any run that neither forgets nor deletes its owner |
| `TypedValues.DropsExactlyOwn` | browser/src/extension-loader.js:769-799 | forget and delete remove a binding if and only if the extension owns it |
| `TypedValues.ReaddAfterDelete` | browser/src/extension-loader.js:794-797 | after a delete the extension can be added again with any list that agrees with itself and with the others |
| `Statements.SqliteRuntime.Prepare` | host/src/compose_provider.rs:2021-2049 | no database or a statement refused changes nothing; otherwise a fresh entry under the next id |
| `Statements.SqliteRuntime.Step` | host/src/compose_provider.rs:2050-2084 | fills the cursor on the first step only and then takes its first row, answered cell by cell in column order, or answers done |
| `Statements.SqliteRuntime.Finalize` | host/src/compose_provider.rs:2085-2090 | removes the entry, if any |
| `Statements.SqliteRuntime.Execute` | host/src/compose_provider.rs:1984-2008 | runs the SQL with the parameters given on the connection, touches no statement, and answers with the connection's change count and last row id |
| `Statements.ParamIs` | host/src/compose_provider.rs:1784-1799 | which parameters are taken and as what: booleans as 1 or 0, integers of 64 bits, null, float, text and bytes as the value they encode, anything else refused |
| `Statements.StatementYieldsItsRows` | host/src/compose_provider.rs:2050-2084 | in any run before ids come round, from its first successful step on a statement yields exactly the rows its query had then, in order, each cell as its value (and a wit-value as its three-entry map), once each, then done for ever, whatever else is done |
| `Statements.CursorYields` | host/src/compose_provider.rs:2063-2068 | the same from any state in mid-run |
| `Statements.IdsCountUp` | host/src/compose_provider.rs:2030-2035 | ids handed out are consecutive, so no open statement is replaced |
| `Statements.IssuedGoRound` | host/src/compose_provider.rs:2030-2035 | the ids of any run go round through 1 to 2^64 - 1 in order and are never 0 |
| `Statements.IdsDifferIff` | host/src/compose_provider.rs:2030-2035 | in any run of a new runtime no id is handed out twice if and only if at most 2^64 - 1 statements are prepared |
| `Statements.OpenStatementIsReplaced` | host/src/compose_provider.rs:2030-2043 | after 2^64 - 1 prepares on a new runtime statement 1 is still open, and the next prepare answers with id 1 and replaces it |
| `CsvLine.ParseCsvLine` | demo/src/main.ts:634-659 | the index loop, with its look-ahead and its skipped character, is the scanner |
| `CsvLine.ParseOfWritten` | demo/src/main.ts:634-659 | any non-empty list of fields, each quoted by RFC 4180 section 2 or bare where that is allowed, parses to as many fields, each the text trimmed |
| `CsvLine.TrimIs` | demo/src/main.ts:650-657 | trimming takes white space off both ends and nothing else |
| `CsvLine.RoundTripIff` | demo/src/main.ts:650-657 | the list comes back unchanged if and only if no field has white space at an end |
| `VtabBatch.FetchBatch` | browser/src/extension-loader.js:1408-1439 | the fallback loop returns the rows of the row scan of at most `maxRows >>> 0` rows, never more than asked for and of exactly the size asked below 2^32, and leaves the cursor where that does; if an export throws, `eof` included, the batch is an error |
| `VtabBatch.ProbeColumns` | browser/src/extension-loader.js:1417-1426 | the columns up to the first that throws or the 32nd |
| `VtabBatch.ScanRowsAre` | browser/src/extension-loader.js:1411-1437 | the reference scan spelled out: row i is the one under the cursor after i moves, and the scan stops at the size asked or at the end of the table |
| `VtabBatch.BatchesAreTheScan` | browser/src/extension-loader.js:1387-1440 | for any sequence of batch sizes the batches one after the other are the row scan: same rows, same order, same cursor; if an export throws, the rows delivered are exactly the scan's up to the batch in which it does |
| `VtabBatch.AllDeliveredIff` | browser/src/extension-loader.js:1411-1437 | the rows lost are those the throwing batch had read; all rows of the scan are delivered if and only if nothing throws or that batch had read none |
| `VtabBatch.RowsAreLost` | browser/src/extension-loader.js:1431-1437 | a concrete cursor whose second `next` throws: the scan reads two rows and a batch of two delivers none |
| `VtabBatch.ColumnsAre` | browser/src/extension-loader.js:1418-1426 | a row is cached with its first min(width, 32) columns |
| `VtabBatch.ShortBatchIsEndIff` | browser/src/extension-loader.js:1409-1411 | a batch shorter than the size asked means the end of every table if and only if the size fits in 32 bits |

## Left out

- LockChain.NeverStuck: liveness is stated as a step that is always possible together with an exact count of releases, not as a fairness property of infinite runs.
- Session.ExecGetsItsOwnRows: requests after `close`, time-outs, a CLI that exits and a CLI that echoes its input are not part of the model.
- Session.Worker.OnStdout: the decoder is not modelled; chunks are characters, and stderr is ignored.
- Session.EveryScheduleFinishes: that a possible move is in fact made, and so that the CLI keeps reading and writing, is an assumption about the CLI; prompts it writes on its own are not counted as moves.
- Pairing.ComposedDatabase.PostAndAwait: a `postMessage` that throws, which rejects the promise and leaves its id pending, is not modelled.
- Pairing.NothingPendingAfterClose: the five seconds of the close timer are a step that may happen at any time after closing began.
- OpfsHost.HostIsAStore: storage faults, quota errors and directories in place of files do not occur; offsets above 2^53, which the code rounds, are exact here.
- OpfsHost.PatchedBytes: follows the file system standard's rules for access handles, also where a write of no bytes behind the end extends the file.
- CivilTime.EpochSecondsAreCalendar: requires a valid date; day 0, month 13 and years beyond 5.8 million, where 32-bit arithmetic runs out, have no meaning in the parsers either.
- CivilTime.HttpRoundTrip: only the IMF-fixdate form is printed; the obsolete date forms are not.
- ListXml.ListingRoundTrip: texts contain no '<', as the reader does not decode entities, and etags have no quote at either end; elements with children may stand anywhere but contain none of the tags the reader looks for; the flags come before the objects, and objects and prefixes are not mixed.
- Landing.HandlerMeaning: SQLite's limits on expression depth and statement length are not modelled, nor is the encoding of the cards to JSON, which is a parameter.
- Landing.PiecesMeaning: text, style and JSON contain no placeholder and do not end in the beginning of one; for other templates the meaning is the successive replacement of `Landing.HandlerMeaning`.
- FunctionNames.LoadedPreservesIff: text encodings and function flags, by which SQLite also tells functions apart, its internal functions and its preference for built-in ones inside the schema are ignored, as are collations and virtual tables; registrations that SQLite refuses (too many arguments, too long a name, statements still active), and extensions whose prefix changes, are not modelled.
- FunctionNames.BatchPreservesIff: stands for the names in the manifest; the registration that the command line tool makes from it is taken to use them in order.
- PrefixRegistry.AnswerIsStable: removing and renaming prefixes by hand is not modelled.
- PrefixRegistry.FailsWhenFull: the limit 999 comes from the documentation comment at line 121; the crate that defines it is not part of this model.
- PrefixRegistry.LastPinDecides: the rule for claiming bare names is the one documented at lines 300-305; its code is in the same crate.
- PrefixRegistry.ListIsComplete: the query's result is any list the SQL allows; the sort itself is SQLite's.
- BlobCache.LookupIsAuthentic: frames are symbolic; HMAC is assumed to open only what was sealed for the same digest, engine and key, and all hosts share one key.
- BlobCache.Connection.EvictTo: rows with equal last use and digest may go in either order, as the query leaves open.
- TypedValues.BindingsPersist: instances, hooks and the function records of an extension are not modelled, only its name and its typed values.
- TypedValues.DrainedIff: the spellings under which a manifest may hold its fields are one field here.
- VtabBatch.FetchBatch: exports are functions of the cursor, and one that throws leaves it alone; only the fallback is modelled, not an extension's own `fetchBatch`.
- Statements.StatementYieldsItsRows: the engine is a parameter, and each method is one step although the code takes its locks one after the other.
- Statements.DbToCbor: floats are their bits; the CBOR byte format itself is not modelled.
- WebAssembly instantiation, network providers, S3 request signing, change sets, the terminal UI and the site tooling.
- The content-addressed store, the prefix and parser crates: their code is not in the repository.
