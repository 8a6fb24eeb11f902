# dcos-log: a model of its two log readers

dcos-log serves logs from two places: task files, read through the Mesos files API in chunks of at most
65536 bytes, and the systemd journal. This project models both readers, the handlers around them and the
formats they write, and proves what a client gets. `dafny verify dfyconfig.toml` checks everything.

**The line reader** (`FilesReader`, `Refills`, `Runs`). `ReadManager` is a class with the source's fields;
its methods are tied to functions on values (`Turn`, one pass of `Read` from its `start` label, `ReadLine`,
`Scan`, `Open`), and theorems are about those. The specification is independent of chunks: `LinesIn` lists the
non-blank lines of a stretch with their positions, and `LinesExact` says it is exactly the set of maximal
newline-free stretches, each once and in order.

- `TailingExactlyOnce`, `TailingSafeIff`: a reader tailing a growing file never tears, repeats or skips a line, under
  every interleaving with the writer, if and only if its first request parks on a newline; `CatchesUpIff`: when the
  writer pauses, a reader that started on one gets every complete line if and only if no newline has its successor out
  of reach. `TailingFromEndTears`: a stream opened with `cursor=END` splits a half-written line in two.
- `WholeRunExact`, `WholeRunIff`: a run over a file at rest delivers take(limit, drop(skip, lines)); without
  skip and limit it does so if and only if the file is `Readable`, a condition on where newlines are.
  `StuckIff` is the request that changes nothing, on which the retry loop spins (`NeverFinishes`).
- `TailExactShort`, `TailExactIff`, `TailTopIff`, `TailLongLineIff`, `TailRegularIff`: when the backwards scan for the
  last N lines is exact: always for a file of at most one window; for longer ones in terms of the lines the last window
  holds whole. On a file with neither blank nor over-long lines it is one line short for N one more than these, and for
  larger N hands out too many lines unless it may hand out all. `TailRunIff` says of the whole request on which files it is
  right; `TailNeverEnds`: on a log whose last line is still being written it spins for ever unless it starts at the top.
- `SeamlessIff`: a client that starts a stream and comes back with its last event ID, over any number of connections each
  cut off after any byte, always holds an unbroken stretch of lines, each once, if and only if the first request parks on a
  newline and no line lies at offset 0, where it has no ID. The default start, 0, is the one where both can fail
  (`PlainStarts`). This is over clean connections and no others (`SeamlessCleanIff`): a line whose event does not fit the
  buffer it is read into loses the end of the event, and the next event is glued to it (`LongLineLost`).
- `ResumeIff`: over a file at rest, coming back after k lines brings exactly the rest if and only if their events fit, the
  k-th has an ID and the file is readable from its end; a client of "x\ny\nz" that got two lines waits for the third for
  ever, though its first connection would have shown it (`ResumeStalls`, `ResumeStallsExample`).
- `DefaultRunEchoes`, `OutputWholeIff`, `SeamlessReads`: the bytes written, the copy buffers that cut long lines, and
  reading the text back from the events.
- `CopyEndsIff`, `TailIsRefused`: no failure of the files API is taken for the end of a file.

**The journal reader** (`Journal`, `JournalReader`, `JournalRuns`). sdjournal is a history of entries, a match list
and a position on an entry or in a gap; `Journal` holds that contract and nothing else. The invariant is
`Account`: entries taken, followed by entries still awaited, are what the first state had before it.

- `DeliveredExactlyOnce`, `FollowExactlyOnce`: that invariant over every run of reads, appends, `Follow` calls and
  reopened handles whose saved cursor is still there, with old entries dropped and the clock moving meanwhile.
- `OutputAtEof`, `RangeOutput`: the bytes do not depend on how the caller slices them; `TextReadsBack`, `JsonReadsBack`:
  the entries can be read back from them.
- `MatchSelects`, `MatchOrSelects`: which entries the match options select. `ComponentSelects`: together, as in a request
  for a component with filters, they select entries of the component or with the filters, not only those with both.
- `WrittenIff`: which cursors the validator accepts.
- `WindowFromEnds`, `WindowAtCursor`: which entries cursor, skips and reading direction select.
- `ClientHearsEntries`, `PingsApartFromStart`: what an event stream client hears, and the spacing of keep-alive pings.
- `SeamlessJournalIff`: over connections cut off after any byte, what a client has heard is always an unbroken stretch of
  the matching entries if and only if no connection brings it pings and no entry once it has heard one. That takes its
  last event ID (`NameLostIff`), happens at once on a quiet journal (`QuietLoses`), and has entries sent again
  (`LostRepeats`). `KeptSkipIff`: a stream of the v2 API also keeps its skip.

A `char` stands for one byte. Where several requests happen, each sees the file or journal as it is then; the
clock is a parameter. Event streams are interpreted as the WHATWG HTML standard says in section 9.2.6: a new stream starts
with an empty last event ID buffer, and every blank line copies that buffer to the client's last event ID. Automatic
induction is switched off wherever Dafny would try it; proofs by induction call themselves.

Where the code and its documentation differ, the model follows the code:

- README.md:78 says `skip_next=100&limit=10` skips 100 entries; the reader starts at the 100th
  (`WindowFromEnds`), as the test at dcos-log/journal/reader/read_test.go:120-166 expects.
- README.md:80 says a cursor with `skip_prev=2&limit=2` gives the entry before the cursor and the cursor's own;
  the reader gives the two entries before it (`DocumentedWindowDiffers`).
- README.md:45 says `read_reverse=true` reads bottom to top; without a cursor or any skip nothing is delivered
  (`ReverseFromHeadIsEmpty`).
- The comment at dcos-log/journal/reader/read.go:88 promises an error for a cursor that is not found. The wrapper
  of `TestCursor` turns only negative results into errors, so the model's check fails only without a current entry.

## Model

| member | source | states |
|---|---|---|
| Text.SplitRev | dcos-log/mesos/files/reader/read.go:287-287 | splitting reversed text gives the reversed pieces in reverse order, so a backwards chunk has the same lines as a forward one |
| Text.JoinSplit | dcos-log/mesos/files/reader/read.go:287-287 | a split loses nothing and leaves no separator in a piece |
| Text.SplitJoin | dcos-log/mesos/files/reader/read.go:287-287 | it is the only cut with that property |
| Text.ReverseInPlace | dcos-log/mesos/files/reader/read.go:457-463 | swapping ends inwards reverses the array |
| Lines.LinesExact | dcos-log/mesos/files/reader/read.go:297-318 | the lines expected of a stretch are exactly its maximal non-empty newline-free parts, each once, in order, apart by at least a byte |
| Lines.LinesCut | dcos-log/mesos/files/reader/format.go:26-28 | the end of the k-th line, offset plus size, separates the first k lines from the rest, and is a newline or the end |
| FilesReader.ReadManager.Prepend | dcos-log/mesos/files/reader/read.go:313-319 | a non-blank line goes to the front, a blank one nowhere |
| FilesReader.ReadManager.Pop | dcos-log/mesos/files/reader/read.go:322-332 | the last line is taken off, and the rest stays; nothing from an empty buffer |
| FilesReader.ReadManager.FetchChunk | dcos-log/mesos/files/reader/read.go:257-310 | errors, EOF on an empty or lone-newline window, labelled lines and held-back length, as specified by Fetch |
| FilesReader.ReadManager.LabelPieces | dcos-log/mesos/files/reader/read.go:297-307 | the labelling loop gives every piece its position in the file |
| FilesReader.ReadManager.FillBuffer | dcos-log/mesos/files/reader/read.go:341-363 | refilling buffers a chunk and moves the offset, or changes nothing on an error |
| FilesReader.ReadManager.Pass | dcos-log/mesos/files/reader/read.go:336-376 | one pass from the start label: limit, refill, pop, skip or deliver |
| FilesReader.ReadManager.Read | dcos-log/mesos/files/reader/read.go:335-377 | passes until a line is not skipped; hands out as much of its text as fits |
| FilesReader.ReadManager.StepBack | dcos-log/mesos/files/reader/read.go:154-159 | the offset falls by the pieces up to the wanted number of non-blank ones |
| FilesReader.ReadManager.CalcOffset | dcos-log/mesos/files/reader/read.go:132-178 | the loop ends, with the offset and error of the specified scan |
| FilesReader.ReadManager.SetUpOffset | dcos-log/mesos/files/reader/read.go:104-127 | first window, EOF tolerated, negative offset guarded |
| FilesReader.ReadManager.Apply | dcos-log/mesos/files/reader/option.go:13-85 | each option sets its field; a negative offset or an unreachable file length is an error |
| FilesReader.NewLineReader | dcos-log/mesos/files/reader/read.go:96-129 | options in order, then the offset set-up; the new reader's whole state, or the first error |
| Refills.FetchConserves | dcos-log/mesos/files/reader/read.go:287-309 | forwards and backwards, kept pieces plus the piece held back account for every byte of the window |
| Refills.StockLands | dcos-log/mesos/files/reader/read.go:345-362 | a request takes the lines up to its last newline and parks there, or takes a whole window; the two offset formulas are these places |
| Refills.StuckIff | dcos-log/mesos/files/reader/read.go:341-368 | a request with data leaves the offset unchanged if and only if its window is a newline and a run without one; then nothing changes at all |
| Refills.ParksAtTop | dcos-log/mesos/files/reader/read.go:22-22 | a window is 64 KiB: a read from the top parks if and only if byte 65535 is a newline |
| Runs.PassTally | dcos-log/mesos/files/reader/read.go:337-376 | the first skip lines popped are passed over, the rest delivered, never more than the limit |
| Runs.ApplyKeepsParked | dcos-log/mesos/files/reader/read.go:341-367 | appends, passes and failed requests keep a reader that stands on a newline there, with exactly the lines before it taken |
| Tailing.TailingExactlyOnce | dcos-log/mesos/files/reader/read.go:283-377 | from a newline, over every interleaving with the writer, lines popped and buffered are the complete lines up to the newline the reader stands on |
| Tailing.ParkedIntact | dcos-log/mesos/files/reader/read.go:297-332 | delivered positions are sound: message, offset and size name a whole line, and lines never overlap |
| Tailing.TailingSafeIff | dcos-log/mesos/files/reader/read.go:289-295 | no interleaving tears, repeats, overlaps or skips a line if and only if the first request parks on a newline |
| Tailing.TailingFromEndTears | dcos-log/mesos/files/reader/option.go:72-85 | reading from the end of a file delivers a line caught half written as two |
| CatchUp.CatchesUpIff | dcos-log/api/v2/handlers.go:312-334 | from a newline, after any events, a reader that goes on polling while the writer pauses pops every line up to the last newline if and only if no newline of the file from its start on has its successor out of reach |
| WholeRun.WholeRunExact | dcos-log/api/v2/handlers.go:278-294 | on a readable file every run delivers take(limit, drop(skip, lines)), and the retry loop ends within 2 reads per byte |
| WholeRun.WholeRunIff | dcos-log/mesos/files/reader/read.go:289-362 | without skip and limit, a run finishes with the right lines if and only if the file is readable from its start |
| WholeRun.NeverFinishes | dcos-log/api/v2/handlers.go:279-286 | before a newline whose successor is out of reach, the retry loop never ends, and nothing after that newline is delivered |
| WholeRun.TornRunWrong | dcos-log/mesos/files/reader/read.go:292-361 | a full first window that does not end on a newline makes lines overlap |
| TailN.StartInRange | dcos-log/mesos/files/reader/read.go:124-177 | the scan stays between the top and the cursor for every file, cursor and skip, and only an unreachable server stops it |
| TailN.BackLands | dcos-log/mesos/files/reader/read.go:154-159 | stepping back over reversed pieces lands on the newline before the last N lines, or just before the stretch |
| TailN.TailExactShort | dcos-log/mesos/files/reader/read.go:113-176 | with the cursor within one window of the top, exactly the last N lines before it |
| TailN.TailFirstWindow | dcos-log/mesos/files/reader/read.go:110-161 | otherwise, found in the first window: the last N of its whole lines, from a newline |
| TailN.TailExactIff | dcos-log/mesos/files/reader/read.go:152-161 | settled by the first window, that is exact if and only if the window holds N whole non-blank lines, or all there are |
| TailN.TailTopIff | dcos-log/mesos/files/reader/read.go:165-176 | not settled by it and with the next window above the top, everything before the cursor is handed out, which is exact if and only if it is no more than N lines |
| TailN.TailLongLineIff | dcos-log/mesos/files/reader/read.go:152-176 | a first window without a newline: for one line exact if and only if that line has at most 65537 bytes, for more everything from the top |
| TailRegular.TailCounts | dcos-log/mesos/files/reader/read.go:135-177 | on a file without blank or over-long lines, with L whole lines in the last window: exactly N lines for N <= L, one too few for L + 1, then the top or more than N |
| TailRegular.TailRegularIff | dcos-log/mesos/files/reader/read.go:135-177 | so there, over any number of windows, exact if and only if N <= L, or N > L + 1 and the file has no more than N lines |
| TailRuns.TailRunIff | dcos-log/mesos/files/reader/read.go:104-127 | scanning back and reading on to the end delivers the last N lines if and only if (one window) the file is empty, ends in a newline, or is smaller than a window and handed out from the top; (longer, settled by the last window) it ends in a newline and the window holds N whole lines or all there are; (not so settled, with the top a window away, or regular) it has at most N lines and can be read from the top; never when the last window has no newline |
| TailRuns.TailNeverEnds | dcos-log/api/v2/handlers.go:279-286 | on a file without a final newline a request that starts behind a newline never ends and never shows the last line |
| TailN.TailManyWindowsInexact | dcos-log/mesos/files/reader/read.go:163-176 | a file on which the scan over two windows leaves the reader inside a line |
| FilesHandler.BuildOpts | dcos-log/api/v2/handlers.go:216-247 | Last-Event-ID overrides the parameters; otherwise they are collected in order, up to the first malformed one |
| Requests.RequestedIff | dcos-log/api/v2/handlers.go:144-247 | a request is well formed if and only if its Last-Event-ID is an integer or, without one, each parameter is absent, an integer, or BEG or END for the cursor; the error names the first that is not |
| Requests.NegativeIsRefused | dcos-log/mesos/files/reader/option.go:60-68 | a negative cursor or Last-Event-ID is refused |
| FilesHandler.ServeFile | dcos-log/api/v2/handlers.go:278-294 | the copy loop, each read with its own buffer and its own state of the files API, writes the lines of the specified copy as far as they fit, and ends with the specified error |
| FilesHandler.CopyServes | dcos-log/api/v2/handlers.go:278-294 | over a file at rest that copy is the specified run, and ends when it does |
| FilesHandler.OutputWholeIff | dcos-log/mesos/files/reader/read.go:376-376 | the output is the formatted lines if and only if each fits in the buffer it is read into |
| FilesHandler.EchoIff | dcos-log/mesos/files/reader/format.go:35-37 | lines printed with newlines give the text back if and only if it has no blank line |
| FilesHandler.DefaultRunEchoes | dcos-log/api/v2/handlers.go:278-294 | a default run gives the file back if and only if it has no blank line and every line fits |
| Outages.OutageIsReturned | dcos-log/mesos/files/reader/read.go:212-223 | a read with nothing buffered that meets a failing files API returns that failure and changes nothing |
| Outages.CopyEndsIff | dcos-log/api/v2/handlers.go:278-294 | a copy ends as complete if and only if the read that ended it had reached its limit or stood at the end of the file it met, and with a failure if and only if that read met it; all reads before went on |
| Outages.TailIsRefused | dcos-log/mesos/files/reader/read.go:104-127 | a request for the last lines that meets a failing files API is refused with that failure, wherever it starts |
| Outages.ForwardOutage | dcos-log/mesos/files/reader/read.go:341-349 | one that reads forward is opened without the API, and its first read returns the failure |
| Requests.ForwardRequestDelivers | dcos-log/api/v2/handlers.go:144-247 | cursor, skip and limit as decimal strings deliver exactly the lines they name |
| Requests.TailRequestDelivers | dcos-log/api/v2/handlers.go:158-200 | cursor=END with skip=-n is answered with exactly the last n lines if and only if the file meets the conditions of TailRunIff |
| Decimal.AtoiShow | dcos-log/api/v2/handlers.go:202-214 | an offset printed in an event ID is read back as itself |
| Decimal.AtoiIff | dcos-log/api/v2/handlers.go:144-214 | what is read as an integer are exactly the decimal numerals, signed or with leading zeros, of numbers that fit in 64 bits |
| Decimal.ShowDecimal | dcos-log/mesos/files/reader/format.go:26-28 | numbers are printed in base ten |
| Sending.SentPrints | dcos-log/mesos/files/reader/format.go:13-32 | what SSEFormat writes is an event with the line's end as id, or without id at offset 0 |
| Sending.HearsLanded | dcos-log/mesos/files/reader/read.go:376-376 | of a stream cut off after any byte, whose events were read into buffers of any sizes, exactly the lines up to the last whole event are heard if none before it was cut off by its buffer |
| Sending.HearsAtMost | dcos-log/mesos/files/reader/read.go:376-376 | and fewer events than that if one was, as it and the next become one |
| Sending.HeardDecodes | dcos-log/mesos/files/reader/format.go:39-58 | events heard as they are meant to be decode to the messages of their lines, in order |
| Reconnect.ConnectResumes | dcos-log/api/v2/handlers.go:217-227 | a stream with a last event ID starts there, whatever the other parameters |
| Reconnect.SeamlessReconnect | dcos-log/api/v2/handlers.go:202-227 | from a fresh client on a fit start: over any connections, each cut off after any byte and with the writer at work, the client has heard nothing, or exactly the lines up to the newline its last event ID names, each once, as long as no event that its buffer cut off is followed by a whole one |
| Reconnect.SeamlessCleanIff | dcos-log/api/v2/handlers.go:312-334 | from a fit start what a client holds after some connections is unbroken if and only if in none of them an event cut off by its buffer was followed by one that arrived whole |
| Reconnect.LongLineLost | dcos-log/mesos/files/reader/read.go:376-376 | a line whose event is longer than the buffer, and a short line after it, are heard as one event at most, and no later connection makes up for it |
| Reconnect.SeamlessIff | dcos-log/api/v2/handlers.go:202-247 | what a client holds is unbroken over clean connections, and over no others, if and only if the first request parks on a newline and no line lies at offset 0 |
| Reconnect.PlainStarts | dcos-log/api/v2/handlers.go:158-178 | a stream without parameters starts at 0, like cursor=BEG, which is the case to apply the condition to |
| Reconnect.TopLineTwice | dcos-log/mesos/files/reader/format.go:26-28 | a client that got only the line at offset 0 is sent it again |
| Reconnect.SeamlessAgrees | dcos-log/api/v2/handlers.go:312-334 | its lines are a beginning of the file's, and of those of one uninterrupted connection or the other way round |
| Reconnect.SeamlessReads | dcos-log/mesos/files/reader/format.go:13-32 | what the client has heard decodes to the text of exactly its lines, a beginning of the text of the file |
| Resume.ResumeIff | dcos-log/mesos/files/reader/format.go:26-28 | over a file at rest, a client cut off after k lines has heard them and its next connection reads exactly the rest if and only if each event fit its buffer, the k-th line is not at offset 0 and the file is readable from its end |
| Resume.ResumeWholeIff | dcos-log/mesos/files/reader/format.go:26-28 | where the first connection shows everything, that means: the events fit, the line has an ID, and it ends the file or the file ends in a newline |
| Resume.ResumeStalls | dcos-log/api/v2/handlers.go:312-334 | where the file is not readable from there, a line is missing that no number of reads brings |
| Resume.ResumeStallsExample | dcos-log/mesos/files/reader/read.go:341-368 | three lines, the last unterminated: the first connection shows all, a client that got two gets nothing more |
| Sse.InterpretPrinted | dcos-log/journal/reader/formatters.go:109-127 | round trip with the event stream interpretation of the WHATWG HTML standard, section 9.2.6: messages with their ids, last event ID and its buffer, nothing pending |
| Sse.InterpretBlanks | dcos-log/mesos/files/reader/format.go:14-32 | a client dispatches no more events than there are blank lines, and without one neither its events nor its ID change |
| Sse.InterpretCut | dcos-log/mesos/files/reader/format.go:14-32 | a stream cut off after any byte is heard as the items that arrived whole |
| Cursor.ValidateCursor | dcos-log/journal/reader/config.go:149-242 | the validator accepts exactly the valid cursors, which are the ones written that way |
| Cursor.ValidIff | dcos-log/journal/reader/config.go:149-242 | a cursor is valid if and only if it is printed from acceptable values, which are then unique |
| Cursor.WrittenIff | dcos-log/journal/reader/config.go:149-242 | byte for byte: s, i, b, m, t and x in this order, s and b of at most 33 bytes, the others hexadecimal numbers of at most 16 digits after leading zeros |
| JournalReader.Reader.ApplyMatchFn | dcos-log/journal/reader/config.go:44-90 | the loop of a match function adds its matches, with an OR after each for OptionMatchOR |
| Matches.AllAdds | dcos-log/journal/reader/config.go:44-65 | OptionMatch adds one match field=value for each pair and nothing else |
| Matches.AnyAdds | dcos-log/journal/reader/config.go:69-90 | OptionMatchOR adds a disjunction after each |
| Matches.MatchSelects | dcos-log/journal/reader/config.go:44-65 | OptionMatch selects the entries that have every field, with one of the values named for it |
| Matches.MatchOrSelects | dcos-log/journal/reader/config.go:69-90 | OptionMatchOR selects the entries that have one of the pairs |
| Matches.ComponentSelects | dcos-log/api/v2/handlers.go:464-497 | both together, for a component with filters: the filters are one more alternative and do not narrow the component down |
| Matches.OptionsReplay | dcos-log/journal/reader/config.go:44-90 | whatever the options and their order, the recorded match functions build the match list of the handle again |
| Matches.MatchingIff | dcos-log/api/v1/handlers.go:232-238 | a request with filters on distinct fields has exactly the entries with all of them in its window |
| JournalReader.Reader.Apply | dcos-log/journal/reader/config.go:24-126 | each option's effect on handle, limit, counters and recorded match functions, or its error |
| JournalReader.Reader.Fill | dcos-log/journal/reader/read.go:110-195 | limit, first-read decision, EOF, ping, or an entry loaded and counted |
| JournalReader.Reader.Read | dcos-log/journal/reader/read.go:109-214 | a part of what is buffered, released once drained, or EOF |
| JournalReader.Reader.CopyTo | dcos-log/journal/reader/read.go:226-229 | the copy has all bytes of the reads up to EOF, with entries written and the clock moving between them |
| JournalReader.CopyEnds | dcos-log/journal/reader/read.go:109-214 | once the clock and the journal stand still, a copy gets to EOF |
| JournalReader.Reader.Rematch | dcos-log/journal/reader/read.go:260-265 | replaying the recorded functions rebuilds the match list |
| JournalReader.Reader.FollowOnce | dcos-log/journal/reader/read.go:225-289 | copy; with nothing copied and the journal invalidated, reopen, rematch and seek |
| JournalReader.NewReader | dcos-log/journal/reader/read.go:19-44 | options applied in order to a fresh handle |
| JournalReader.LoadTakes | dcos-log/journal/reader/read.go:129-194 | filling the buffer takes the first entry awaited, and stops only at the limit or when none is left |
| JournalRuns.ReopenReturns | dcos-log/journal/reader/read.go:243-279 | when the saved cursor is still there, a reopened handle has the same matches and stands on the same entry |
| JournalRuns.DeliveredExactlyOnce | dcos-log/journal/reader/read.go:109-214 | over every run, entries taken and still awaited are those before the first position, the limit counts down with them, and bytes are conserved |
| JournalRuns.FollowExactlyOnce | dcos-log/journal/reader/read.go:225-289 | over calls of Follow, appends during and between them and reopenings, a gapless beginning of the entries awaited is taken, each once |
| JournalRuns.FollowFailsIff | dcos-log/journal/reader/read.go:225-289 | Follow returns at once when it copied something, and fails if and only if it copied nothing, the journal was invalidated and there is no current entry |
| JournalRuns.EofMeansAll | dcos-log/journal/reader/read.go:112-167 | at EOF all entries awaited are taken, or as many as the limit allows, and all their text is out |
| JournalRuns.OutputAtEof | dcos-log/journal/reader/read.go:197-213 | at EOF the bytes are the formatted entries of the window, for every sequence of buffer sizes |
| JournalRuns.CopyIsReads | dcos-log/journal/reader/read.go:226-229 | a copy is a run of reads and of the appends before them that ends at EOF |
| JournalRuns.ClientHearsEntries | dcos-log/journal/reader/formatters.go:109-127 | the client of an event stream hears every entry of the window once, with its cursor as ID if the stream has IDs |
| JournalWindows.WindowFromEnds | dcos-log/api/v1/handlers.go:232-238 | the window of every request without cursor, forward or in reverse, and both skip counts reported |
| JournalWindows.SkipPrevWindow | dcos-log/journal/reader/read.go:74-85 | without a cursor skip_prev counts from the tail: the last n matching entries are awaited, or in reverse those from the n-th last up |
| JournalWindows.SeekNamed | dcos-log/journal/reader/read.go:89-105 | seeking the cursor of an entry stands on the first matching one from it on, and fails if and only if there is none |
| JournalWindows.BadCursorIff | dcos-log/journal/reader/config.go:93-106 | a request is refused for its cursor if and only if it has one that is not written as a cursor |
| JournalWindows.WindowAtCursor | dcos-log/journal/reader/read.go:74-148 | the window of every request with a cursor, both skips and either direction, and the skip counts reported |
| JournalWindows.DocumentedWindowDiffers | README.md:80-80 | cursor, skip_prev=2, limit=2 gives the two entries before the cursor's |
| JournalWindows.ReverseFromHeadIsEmpty | dcos-log/journal/reader/read.go:141-145 | a reverse request without cursor and skip_prev awaits nothing if and only if it has no skip_next either, or nothing matches |
| JournalWindows.RangeOutput | dcos-log/api/v1/handlers.go:268-277 | a range response is the text of the first limit entries of its window |
| JournalText.TextReadsBack | dcos-log/journal/reader/formatters.go:63-76 | splitting a text response at newlines gives one line for each entry of the window with a message, in order, with the message behind the stamp and ": " |
| JournalText.JsonReadsBack | dcos-log/journal/reader/formatters.go:88-96 | splitting a JSON response gives the marshalled entries of the window |
| JournalPings.PingsApartFromStart | dcos-log/journal/reader/read.go:151-170 | every ping is at least 15 seconds after every ping and every entry before it |
| JournalPings.PingIff | dcos-log/journal/reader/read.go:149-170 | a read pings if and only if an event stream has nothing to deliver and sent nothing in the last 15 seconds |
| JournalReconnect.SeamlessJournalIff | dcos-log/api/v1/handlers.go:208-238 | over connections cut off after any byte, with the last event ID as the next cursor and no skips, what a client has heard is always an unbroken stretch of matching entries, each once, if and only if no connection brings pings and no entry to a client that has heard one |
| JournalReconnect.SeamlessJournal | dcos-log/api/v1/handlers.go:208-238 | so a fresh client that never forgets holds the stretch that begins where the connection began that brought the first entry |
| JournalReconnect.PlainBegan | dcos-log/api/v1/handlers.go:232-238 | for a request without cursor and skips that is the oldest entry there was at that time |
| JournalReconnect.NameLostIff | dcos-log/api/v1/handlers.go:208-229 | a client that follows comes out of a connection without its ID if and only if what reached it whole was pings and no entry; it has heard nothing new then, and repeats its first request |
| JournalReconnect.LostRepeats | dcos-log/api/v1/handlers.go:208-238 | after that a request without cursor and skips is sent an entry it has heard before, as long as the last one it heard is still in the journal |
| JournalReconnect.QuietLoses | dcos-log/journal/reader/read.go:151-165 | a client that comes back to a quiet journal loses its ID with the first ping |
| JournalReconnect.KeptSkipIff | dcos-log/api/v2/handlers.go:499-557 | a v2 stream keeps its skip when it comes back, and goes on right after the entry named if and only if that is 0 or 1, or there is nothing before to go back to, or at most one entry after |

## Left out

- FilesHandler.ServeFile: takes the reads the client stays for, because the retry loop need not end (`NeverFinishes`).
- FilesReader.ReadManager.Apply: without OptFile and OptHeaders, whose values only go into the requests; a request is a parameter here.
- TailRegular.TailRegularIff: files with blank lines, or lines of 65535 bytes and more, whose last window has a newline but neither settles the scan nor reaches the top; the code then adds up pieces and offsets of different windows, and only `StartInRange` is stated.
- TailRuns.TailRunIff: says nothing of those files either.
- WholeRun.WholeRunIff: with a skip or a limit only the direction from `Readable` is stated (`WholeRunExact`), since a limit can stop a run before the place where it would go wrong.
- Tailing.TailingSafeIff: is about readers no limit can stop, as a limit can stop one before it tears a line.
- Reconnect.SeamlessIff: streams that skip lines, or start at the end of the file, where the start is another one with each connection that has no ID.
- TailN.StartInRange: the skip's sign change does not overflow.
- JournalReader.Reader.CopyTo: takes the reads of the copy as input, since a journal can be written faster than it is read.
- JournalRuns.FollowExactlyOnce: says nothing about a saved cursor that is gone, where the position depends on sdjournal.
- JournalReconnect.SeamlessJournalIff: supposes that the entry a client names is still in the journal when it comes back.
- JournalReader.Reader.Apply: without OptionSince.
- JournalReconnect.KeptSkipIff: without cursor=END and component names, which add a skip or other matches of their own.
- Resume.ResumeIff: says what the next connection reads; what is heard of it is `HearsLanded` again.
- Failures of sdjournal calls and of formatting an entry.
- HTTP: clients, contexts, timeouts, headers, status codes, JSON transport, the identifiers that make up the sandbox path, downloads, sandbox browsing, redirects, authentication, configuration.
- Bytes that are not valid UTF-8, and runes cut by a chunk's edge, which the JSON transport and rune reversal replace.
- Timestamps, JSON text and match evaluation are parameters; a byte order mark at the head of an event stream is not stripped.
