# Flat-file note index, in Dafny

This project models the flat-file index of the notes service, which lives in
`internal/notes/notes.go`. The index is the list of `IndexEntry` records
(`id`, `title`, `path`, `created_on`) that the service keeps in `index.txt`.

- `SaveIndex` writes each entry as four `label: value` lines followed by an
  empty line.
- `LoadIndex` reads the file back with a `bufio.Scanner`:
  - `parseNextIndexEntry` reads one record at a time.
  - `skipBlankLines` and `isWhitespace` skip the lines between fields.
- `getNextID` picks the ID of a new note, and `NewNote` appends the new entry.
- `LookupNote` finds a note by ID.
- `removeEntry` and `DeleteNote` take a note out of the index.
- `newNoteName` names the note's file.

Modules, one per concern:

- `Wrappers` (`wrappers.dfy`): `Option` and `Result`, standing for nil
  results and Go's `(value, error)` pairs.
- `GoStrings` (`strings.dfy`): `unicode.IsSpace`, `strings.TrimSpace` and a
  prefix test.
- `Decimal` (`decimal.dfy`): `strconv.Atoi`, `%d` and `%015d`.
- `Lines` (`lines.dfy`): `bufio.ScanLines`, the scanner's default split
  function, and writing lines each followed by `"\n"`.
- `Timestamps` (`timestamps.dfy`): the RFC 3339 timestamps of `created_on`.
  A timestamp is kept as its text.
  - `time.Parse(time.RFC3339, …)` first tries a strict reading of section 5.6
    of RFC 3339. When that fails it falls back to Go's layout parser, which
    takes more: a one-digit hour, a `,` before the fraction of a second, and
    offsets up to `±24:60`. Both check the day against the length of its
    month. `Parse` accepts what the fallback accepts.
  - `Format` prints what `Format(time.RFC3339)` prints: a two-digit hour,
    whole seconds, and `Z` for a zero offset. The offset is printed from its
    value in minutes, so `+24:60` prints as `+25:00`, which does not parse
    again. Only timestamps whose offset is below 25 hours ("printable" ones)
    survive a save and a load.
- `Entries` (`entries.dfy`): the `IndexEntry` record.
- `IndexCodec` (`codec.dfy`): the file format.
  - The specification side is a set of functions over the scanned lines and
    a cursor (`SkipBlank`, `ParseField`, `ParseEntry`, `LoadFrom`, `Load`,
    `IndexLines`).
  - The imperative side is a `Scanner` class with the methods `Scan` and
    `Text`. The methods `IsWhitespace`, `SkipBlankLines`,
    `ParseNextIndexEntry`, `LoadIndex` and `SaveIndex` run over it and are
    proved to compute what the functions say.
- `IndexCodecProofs` (`codec_proofs.dfy`): what the format guarantees.
  - Records written by `SaveIndex` are read back by `LoadIndex`, in order.
  - An error anywhere discards every record.
  - A record is dropped when the input ends right after it, or when only
    empty lines follow a record that has no `created_on` line.
  - The `created_on` field is optional.
  - A line holding only spaces is not skipped.
- `NoteIndex` (`index.dfy`): the in-memory index operations.
  - `removeEntry` and `DeleteNote` work on an array whose first `n` cells are
    the Go slice. `removeEntry` shifts the backing array in place, as
    `append(index[:i], index[i+1:]...)` does.
  - The other operations read a sequence.

Where the code does something other than its names and comments suggest,
the model follows the code:

- Only empty lines are skipped between fields and records. `isWhitespace`
  is named for blank lines, and its comment at
  `internal/notes/notes.go:235` says that it includes `""`. But it returns
  false at the first non-space character and `len(s) == 0` otherwise, so it
  is true for `""` alone.
- One would expect a record cut short to be an error, but it is not always
  one. It is an error when the title or the path line is missing. Otherwise
  a record is dropped, with no error, whenever the scanner has run out of
  lines by the time the record is read:
  - its last line is its path or `created_on` line, and nothing follows it;
  - it has no `created_on` line, and only empty lines follow its path line.
    Looking for `created_on`, `skipBlankLines` scans past them to the end
    of the input (`internal/notes/notes.go:317-321`).

  The loop of `LoadIndex` then stops without keeping that record, and the
  load succeeds with the records before it. A record as `SaveIndex` writes
  it, with its `created_on` line and its empty line, is kept whenever
  another line follows it.

## Model

| member | source | states |
|---|---|---|
| IndexCodec.RecordLines | internal/notes/notes.go:139-145 | each entry is written as exactly five lines, and the fifth is empty |
| IndexCodec.IndexLines | internal/notes/notes.go:138-146 | the file holds five lines per entry, one record after the other |
| IndexCodec.IndexText | internal/notes/notes.go:138-146 | the text written holds at least five characters per entry, and ends with a newline when there is an entry |
| IndexCodec.IndexLinesAppend | internal/notes/notes.go:138-146 | saving one more entry appends exactly that entry's record to the lines |
| IndexCodec.SaveIndex | internal/notes/notes.go:128-147 | the loop writes, entry by entry, the text `IndexText(entries)`: each record's lines, each followed by a newline |
| IndexCodec.SkipBlank | internal/notes/notes.go:245-262 | the line skipping stops at or after the cursor, on a line that is not empty, or at the end of the input |
| IndexCodec.FieldValue | internal/notes/notes.go:17-22 | a field pattern matches a line exactly when the line starts with the field label, and the value read has no leading or trailing spaces |
| IndexCodec.ParseField | internal/notes/notes.go:265-336 | reading a record from any field on consumes at least one line for each required field still missing |
| IndexCodec.ParseEntry | internal/notes/notes.go:265-337 | a record that is read takes at least three lines (id, title, path), and the cursor stays within the input |
| IndexCodec.Scanner.constructor | internal/notes/notes.go:111 | a new scanner holds the lines `bufio.ScanLines` yields for the text and stands before the first one |
| IndexCodec.Scanner.Scan | internal/notes/notes.go:254-259 | `Scan` reports more input exactly when a line is left, and then makes it the current token; otherwise the token becomes `""` |
| IndexCodec.Scanner.Text | internal/notes/notes.go:253-258 | `Text` is the line the last `Scan` read when it returned true, and `""` before any `Scan` or after one that returned false |
| IndexCodec.IsWhitespace | internal/notes/notes.go:236-243 | the loop returns true exactly for the empty string |
| IndexCodec.SkipBlankLines | internal/notes/notes.go:245-262 | with or without the first scan, the scanner ends on the first non-empty line from the current one on, and `more` is false exactly when no such line is left |
| IndexCodec.ParseNextIndexEntry | internal/notes/notes.go:265-279 | the entry, `more` flag and error returned are those `ParseEntry` gives for the current line: no entry at the end of input, an invalid-id error for a line without `id:` |
| IndexCodec.ParseTitle | internal/notes/notes.go:281-296 | after the id, a missing title is the "no matching title" error and a line without `title:` is the invalid-title error |
| IndexCodec.ParsePath | internal/notes/notes.go:298-313 | after the title, a missing path is the "no matching path" error and a line without `path:` is the invalid-path error |
| IndexCodec.ParseCreatedOn | internal/notes/notes.go:315-336 | an absent `created_on:` line leaves the zero timestamp and is not consumed. A bad timestamp is an error. A good one is stored and the scanner moves past its line |
| IndexCodec.Load | internal/notes/notes.go:112-125 | a load that succeeds returns at most one entry for every three lines, since each record needs its id, title and path lines |
| IndexCodec.LoadFrom | internal/notes/notes.go:116-125 | when only empty lines are left, the loop ends with no more entries and no error. `LoadFrom` and `Continue` are the two halves of one recursion: `Continue` decides what the loop does with the outcome of one parse |
| IndexCodec.LoadFromBound | internal/notes/notes.go:116-121 | each record the loop keeps took at least three of the lines left |
| IndexCodec.LoadStart | internal/notes/notes.go:112-116 | loading non-empty input is the loop started on the record at the first line, with no entries kept yet |
| IndexCodec.LoadStep | internal/notes/notes.go:117-121 | one turn of the loop keeps the record read and goes on from the line the scanner stopped at |
| IndexCodec.LoadStop | internal/notes/notes.go:122-125 | when the loop stops, an error gives that error and no entries; otherwise the entries kept so far are returned |
| IndexCodec.LoadIndex | internal/notes/notes.go:102-126 | the scanner loop returns exactly `Load` of the scanned lines: the records in order, or the first error with no records |
| IndexCodecProofs.SkipBlankSkipsEmpty | internal/notes/notes.go:254-260 | every line skipped between fields and records is empty |
| IndexCodecProofs.SpaceLineIsInvalidId | internal/notes/notes.go:266-278 | a line of spaces only, where a record starts, is not skipped but reported as an invalid id |
| IndexCodecProofs.FieldValueOfWritten | internal/notes/notes.go:275-276 | a field line as written (label, one space, value) is read back to the value when the value has no surrounding spaces |
| IndexCodecProofs.SavedCanonical | internal/notes/notes.go:143 | entries whose timestamps are already printed in RFC 3339 form are saved unchanged |
| IndexCodecProofs.SavedAsPrinted | internal/notes/notes.go:143 | entries whose timestamps each print as their own text are saved unchanged |
| IndexCodecProofs.SavedOfCanonical | internal/notes/notes.go:143 | one entry whose timestamp prints as its own text is saved unchanged |
| IndexCodecProofs.FormatParses | internal/notes/notes.go:326-331 | a printable timestamp, once printed, parses back to its printed text |
| IndexCodecProofs.FormatScannable | internal/notes/notes.go:143 | a printable timestamp's printed text has no surrounding spaces, and its `created_on` line comes back from the scanner unchanged |
| IndexCodecProofs.WrittenLineScannable | internal/notes/notes.go:139-141 | an id, title or path line with a value free of surrounding spaces and newlines comes back from the scanner unchanged |
| IndexCodecProofs.StopsAt | internal/notes/notes.go:254 | the line skipping does not move past a non-empty line |
| IndexCodecProofs.IdStep | internal/notes/notes.go:274-276 | an id line as written gives its id, and the title is looked for on the next non-empty line |
| IndexCodecProofs.TitleStep | internal/notes/notes.go:291-293 | a title line as written gives its title, and the path is looked for on the next non-empty line |
| IndexCodecProofs.PathStep | internal/notes/notes.go:308-310 | a path line as written gives its path, and the optional `created_on` is looked for on the next non-empty line |
| IndexCodecProofs.CreatedOnStep | internal/notes/notes.go:324-332 | a `created_on` line as written for a printable timestamp completes the entry with the printed timestamp, and the scanner moves one line on |
| IndexCodecProofs.GoodCreatedOnStep | internal/notes/notes.go:324-332 | a `created_on` line whose value parses completes the entry with that timestamp, and the scanner moves one line on |
| IndexCodecProofs.BadCreatedOnStep | internal/notes/notes.go:327-330 | a `created_on` line whose value does not parse ends the record with an error |
| IndexCodecProofs.ParseWrittenRecord | internal/notes/notes.go:265-336 | the four field lines written for an entry parse back to the saved entry, with the cursor just after them |
| IndexCodecProofs.RecordWithoutCreatedOn | internal/notes/notes.go:317-336 | without a `created_on:` line the entry keeps the zero timestamp, and the next record starts at the next non-empty line |
| IndexCodecProofs.RecordWithBadCreatedOn | internal/notes/notes.go:327-330 | a `created_on` value the modelled `time.Parse` rejects is an error, not a record |
| IndexCodecProofs.RecordWithoutCreatedOnAtEnd | internal/notes/notes.go:317-336 | a record without a `created_on` line that only empty lines follow is dropped, and nothing after it is loaded |
| IndexCodecProofs.LoadDropsPathThenEmptyLines | internal/notes/notes.go:112-125 | the lines `id: 1`, `title: a`, `path: p`, `""`, `""` load as no records and no error |
| IndexCodecProofs.LoadIsLoadFrom | internal/notes/notes.go:112-116 | loading is the record loop started at the first line, empty input included |
| IndexCodecProofs.LoadFromEmptyLine | internal/notes/notes.go:254-260 | an empty line before a record changes nothing that is loaded |
| IndexCodecProofs.IndexLinesRecord | internal/notes/notes.go:138-146 | line `i` of record `j` of the file is line `i` of the `j`-th entry's record |
| IndexCodecProofs.LoadFromRecord | internal/notes/notes.go:116-121 | a record as `SaveIndex` writes it (four field lines, then an empty line) is kept, and loading goes on after it |
| IndexCodecProofs.LoadFromRecords | internal/notes/notes.go:116-121 | consecutive records as `SaveIndex` writes them are loaded in order, ahead of whatever the following lines give |
| IndexCodecProofs.WrittenRecords | internal/notes/notes.go:138-146 | the lines `SaveIndex` writes hold, every five lines, the full record of the saved entry |
| IndexCodecProofs.LoadWrittenThen | internal/notes/notes.go:116-125 | loading saved records followed by any lines gives the saved entries first; an error in what follows discards them all |
| IndexCodecProofs.RecordScannable | internal/notes/notes.go:139-144 | the five lines written for a storable entry come back from the scanner unchanged |
| IndexCodecProofs.IndexLinesScannable | internal/notes/notes.go:138-146 | every line written for storable entries comes back from the scanner unchanged |
| IndexCodecProofs.LoadCut | internal/notes/notes.go:116-125 | a save cut short inside its last record loads the records before it, then whatever the partial record gives |
| IndexCodecProofs.SaveLoadRoundTrip | internal/notes/notes.go:128-147 | for entries whose values have no surrounding spaces or newlines and whose timestamps are printable, `LoadIndex` of what `SaveIndex` wrote returns the same entries, in order, each timestamp as printed |
| IndexCodecProofs.SaveLoadIdentity | internal/notes/notes.go:102-147 | with timestamps already in printed form, loading what was saved gives back exactly the saved entries |
| IndexCodecProofs.LoadCutAfterId | internal/notes/notes.go:281-288 | a save cut after the id line of its last record fails with "no matching title", and no record is returned |
| IndexCodecProofs.LoadCutAfterTitle | internal/notes/notes.go:298-305 | a save cut after the title line of its last record fails with "no matching path", and no record is returned |
| IndexCodecProofs.LoadCutAfterPath | internal/notes/notes.go:319-323 | a save cut after the path line of its last record loads without error, but drops that record |
| IndexCodecProofs.LoadCutAfterCreatedOn | internal/notes/notes.go:331-336 | a save cut just before the empty line of its last record loads without error, but drops that record |
| IndexCodecProofs.LoadAppendedRecord | internal/notes/notes.go:138-146 | saving one more entry makes loading return one more entry, at the end |
| Lines.ScanJoinLines | internal/notes/notes.go:111-112 | the scanner gives back lines written one per `"\n"` when none holds a newline or ends in a carriage return |
| Lines.LineEnd | internal/notes/notes.go:111 | the scanner's next line ends at the first newline, and none comes before it |
| Lines.ScanLines | internal/notes/notes.go:111 | no scanned line holds a newline |
| Lines.JoinLinesEnds | internal/notes/notes.go:139-145 | writing lines each followed by `"\n"` gives at least one character per line, and the text ends with a newline when there is a line |
| Timestamps.Parse | internal/notes/notes.go:327 | an accepted text is kept as the timestamp's text; it is at least 19 characters long and holds no space, so `strings.TrimSpace` leaves it whole and it fits on one line |
| Timestamps.Format | internal/notes/notes.go:143 | the zero time, which an entry without a `created_on` line keeps, prints as `0001-01-01T00:00:00Z` |
| Timestamps.FormatShape | internal/notes/notes.go:143 | a printed timestamp is the date and time with a two-digit hour, no fraction, then the printed offset |
| Timestamps.PrintOffsetCanonical | internal/notes/notes.go:143 | an offset below 25 hours prints as an offset that prints as itself |
| Timestamps.PrintOffsetOverflow | internal/notes/notes.go:143 | an offset of 25 hours or more prints as text that is not an offset |
| Timestamps.FormatReparses | internal/notes/notes.go:143 | the printed form of a parsed timestamp parses again exactly when its offset is below 25 hours |
| Timestamps.ParseFormat | internal/notes/notes.go:327 | printing a canonical timestamp and parsing the text gives it back |
| Timestamps.FormatIsCanonical | internal/notes/notes.go:143 | printing a printable timestamp gives one that is printable and prints as itself, so saving after loading changes nothing more |
| Timestamps.ZeroCanonical | internal/notes/notes.go:315 | the zero time prints as itself, and its printed form parses again |
| Timestamps.OneDigitHour | internal/notes/notes.go:327 | `2006-01-02T5:04:05Z` parses, and prints with the hour `05` |
| Timestamps.CommaFraction | internal/notes/notes.go:327 | `2006-01-02T15:04:05,5Z` parses, and prints without the fraction |
| Timestamps.OffsetPastDay | internal/notes/notes.go:327 | `2006-01-02T15:04:05+24:60` parses, but its printed form does not |
| Timestamps.FormatHasNoSpaces | internal/notes/notes.go:143 | a printable timestamp prints as non-empty text without any space character |
| Timestamps.WellFormedHasNoSpaces | internal/notes/notes.go:326 | a well-formed timestamp holds no space, so trimming its line leaves it whole |
| GoStrings.IsSpace | internal/notes/notes.go:238 | the characters `unicode.IsSpace` counts as space; among printable ASCII characters only the blank is one |
| GoStrings.TrimSpace | internal/notes/notes.go:276 | the result neither starts nor ends with a space |
| GoStrings.TrimSpaceSpec | internal/notes/notes.go:276 | `strings.TrimSpace` returns a slice of its input with only spaces cut off at both ends |
| GoStrings.TrimSpaceOfTrimmed | internal/notes/notes.go:276 | trimming text that has no surrounding spaces leaves it unchanged |
| GoStrings.TrimSpaceAfterSpaces | internal/notes/notes.go:18-21 | the `\s*` after the label does not change the trimmed value |
| Decimal.Atoi | internal/notes/notes.go:356 | only non-empty text parses as an integer |
| Decimal.FormatNat | internal/notes/notes.go:361 | `%d` of a natural number prints digits with that value and no leading zero |
| Decimal.FormatInt | internal/notes/notes.go:361 | `%d` prints a minus sign exactly for negative numbers |
| Decimal.AtoiFormatInt | internal/notes/notes.go:361 | a printed ID parses back to the same integer |
| Decimal.ZeroPad | internal/notes/notes.go:212 | `%015d` is at least 15 characters long, and longer only when the number needs more |
| Decimal.AtoiZeroPad | internal/notes/notes.go:212 | zero-padded text parses back to the number it was made from |
| NoteIndex.GetNextId | internal/notes/notes.go:353-362 | the loop returns the next ID, which parses as one more than the final maximum. With no negative IDs it is above every ID |
| NoteIndex.IdValue | internal/notes/notes.go:356 | a value other than 0 is the ID as `strconv.Atoi` reads it, and a negative value comes only from an ID of at least two characters that starts with `-` |
| NoteIndex.RunningMax | internal/notes/notes.go:354-360 | the loop's final maximum is 0 or the value of one of the IDs |
| NoteIndex.NextId | internal/notes/notes.go:361 | the next ID parses as one more than the loop's final maximum |
| NoteIndex.RunningMaxIsLargest | internal/notes/notes.go:354-360 | with no negative IDs, the loop's maximum is at least every ID |
| NoteIndex.NextIdOfEmpty | internal/notes/notes.go:353-362 | an empty index gets the ID "1" |
| NoteIndex.NextIdIsFresh | internal/notes/notes.go:353-362 | with no negative IDs, no entry already has the next ID |
| NoteIndex.NextIdCollidesWithNegativeIds | internal/notes/notes.go:357 | the `max <= 0` test lets IDs "-4" then "-5" end the loop on -5, so the next ID is "-4", which is taken |
| NoteIndex.NewNote | internal/notes/notes.go:54-63 | one entry is appended and the earlier ones stay in place. The new entry has the next ID and the given title, and with no negative IDs that ID is new |
| NoteIndex.Find | internal/notes/notes.go:164-173 | a position found lies within the index |
| NoteIndex.FindIsFirstMatch | internal/notes/notes.go:164-173 | the search finds the first entry with the ID, and finds nothing exactly when no entry has it |
| NoteIndex.LookupNote | internal/notes/notes.go:164-173 | the loop returns the first entry with the ID, or nil exactly when no entry has it |
| NoteIndex.RemoveFirst | internal/notes/notes.go:364-376 | removal shortens the index by one exactly when an entry has the ID |
| NoteIndex.RemoveFirstCutsFound | internal/notes/notes.go:364-376 | removal cuts out exactly the first entry with the ID, keeping the others in order; with no match the index is unchanged |
| NoteIndex.RemoveFirstMultiset | internal/notes/notes.go:364-376 | removal loses exactly the entry found and keeps every other entry |
| NoteIndex.RemoveUniqueId | internal/notes/notes.go:149-162 | when at most one entry has the ID, none is left after removal, so deleting again changes nothing |
| NoteIndex.RemoveEntry | internal/notes/notes.go:364-376 | in the slice's backing array, the new slice is the index without its first matching entry. The length drops by one only on a match, and the cell just past the new end keeps the old last entry |
| NoteIndex.Shift | internal/notes/notes.go:373 | the `append` moves the cells after the removed one down by one and writes nothing else |
| NoteIndex.DeleteNote | internal/notes/notes.go:149-162 | an absent ID leaves the index unchanged without an error. A failed file removal (other than "not exists") leaves it unchanged and returns the error. Otherwise the first matching entry is removed |
| NoteIndex.NoteName | internal/notes/notes.go:210-213 | the name is `note`, at least 15 digits that read back as the clock reading, then `.txt` |
| NoteIndex.NoteNamesDiffer | internal/notes/notes.go:210-213 | notes made at different milliseconds get different file names |

## Left out

- The file system:
  - `openIndex`, `GetNotesRoot` and its environment lookup, and `fileExists`.
  - the `O_EXCL` create-and-retry loop and its panic in `NewNote`.
  - `ImportNote` and `copyFile`.
  - `GetNoteContents` and `SetNoteContents`.
  - `Truncate`, and the `WriteString` errors `SaveIndex` ignores.

  `LoadIndex` takes the file's text and `SaveIndex` returns the text it writes.
- NoteIndex.NewNote: the note file's path and the creation time are
  parameters. The clock, `time.Now().UTC()` and `filepath.Join` are not
  modelled.
- NoteIndex.NoteName: the clock reading is a parameter. `time.Now().UnixMilli()`
  is not modelled.
- NoteIndex.DeleteNote: what `os.Remove` did with the note's file is a
  parameter (`RemoveOutcome`). Its error text stands for the Go error value.
- IndexCodec.LoadIndex: scanner errors are not modelled, so `scanner.Err()`
  is always nil. This leaves out read failures and the 64 KiB limit on a
  single line.
- References: entries are values, so aliasing between the `*IndexEntry` that
  `LookupNote` or `NewNote` return and the index is not modelled.
- NoteIndex.NewNote: the appended index is a new sequence. Whether Go's
  `append` reuses the caller's backing array is not modelled.
- The `idx` and `linesProcessed` counters of `LoadIndex` and
  `parseNextIndexEntry` are not modelled; nothing reads them.
- The unused `FieldSchema` and `ParserSchema` types are not modelled.
- Decimal.Atoi: integers are unbounded. `strconv.Atoi`'s 64-bit range and its
  clamping on overflow are not modelled, and neither is the 64-bit wrap of
  `max+1`.
- Timestamps.WellFormed: a timestamp is kept as its text, not as an
  instant. Two texts naming the same instant with different offsets stay
  different.
- Timestamps.Parse: the strict RFC 3339 reading is not modelled on its own,
  since the fallback accepts every text it accepts. The error text of a
  rejected timestamp is not modelled.
- Timestamps.Format: a `Timestamp` whose text `Parse` rejects stands for no
  Go value. `Format` prints it like a parsed one when it still ends in an
  offset, and returns its text unchanged otherwise.
- `parseNextIndexEntry` is modelled as one specification function
  (`IndexCodec.ParseField`) and as four methods, one for each field. The
  methods run the same statements in the same order as the single Go
  function.
- Text is modelled as a sequence of Unicode characters, that is, as valid
  UTF-8. Go strings are bytes: on invalid UTF-8, `range` in `isWhitespace`,
  `strings.TrimSpace` and the `regexp` patterns read each bad byte as
  U+FFFD, and `bufio.Scanner` splits and limits lines by bytes. Behaviour on
  invalid byte sequences is not covered.
- The regular expressions are modelled as "the line starts with the label",
  followed by `strings.TrimSpace` of the rest. This is the same for scanned
  lines: a scanned line holds no newline, every character `\s` matches is a
  space to `TrimSpace`, and `(.*)` takes the rest of the line.
