/** What the index format promises, proved about the specification functions
    of `IndexCodec`: the records `SaveIndex` writes are read back by
    `LoadIndex`, in order; an error anywhere discards every record; a record
    that no line follows is dropped; the created_on field is optional; lines
    that hold only spaces are not skipped. */
module IndexCodecProofs {
  import opened Wrappers
  import opened GoStrings
  import opened Lines
  import opened Timestamps
  import opened Entries
  import opened IndexCodec

  // ---------------------------------------------------------------------
  // Skipping empty lines and reading one field

  /** `SkipBlank` passes over empty lines only: every line it skips is empty,
      and it stops at the first line that is not. */
  lemma {:induction false} SkipBlankSkipsEmpty(lines: seq<string>, at: nat)
    requires at <= |lines|
    ensures forall i :: at <= i < SkipBlank(lines, at) ==> lines[i] == ""
    decreases |lines| - at
  {
    if at < |lines| && lines[at] == "" {
      SkipBlankSkipsEmpty(lines, at + 1);
    }
  }

  /** A line that holds only spaces is not skipped: where a record should
      start it is reported as an invalid id. */
  lemma SpaceLineIsInvalidId(lines: seq<string>, at: nat)
    requires at <= |lines|
    requires SkipBlank(lines, at) < |lines| && AllSpace(lines[SkipBlank(lines, at)])
    ensures ParseEntry(lines, at) == Failed(InvalidId(lines[SkipBlank(lines, at)]))
  {
    var line := lines[SkipBlank(lines, at)];
    assert IsSpace(line[0]);
  }

  /** The value of a field line as `SaveIndex` writes it (the name, one space,
      the value) is read back unchanged when it has no surrounding spaces. */
  lemma FieldValueOfWritten(name: string, value: string)
    requires Trimmed(value)
    ensures FieldValue(name + " " + value, name) == Some(value)
  {
    var line := name + " " + value;
    assert line[..|name|] == name;
    assert line[|name|..] == " " + value;
    TrimSpaceAfterSpaces(" ", value);
    TrimSpaceOfTrimmed(value);
  }

  // ---------------------------------------------------------------------
  // Parsing one record

  /** An entry `SaveIndex` can write so that it reads back: field values
      without surrounding spaces and without line breaks, and a timestamp that
      parses and whose printed form parses again. */
  predicate Storable(e: IndexEntry) {
    Trimmed(e.id) && '\n' !in e.id
    && Trimmed(e.title) && '\n' !in e.title
    && Trimmed(e.path) && '\n' !in e.path
    && Printable(e.createdOn)
  }

  predicate AllStorable(es: seq<IndexEntry>) {
    forall j :: 0 <= j < |es| ==> Storable(es[j])
  }

  lemma StorableAt(es: seq<IndexEntry>, j: nat)
    requires AllStorable(es) && j < |es|
    ensures Storable(es[j])
  {
  }

  /** The entry read back from what `SaveIndex` wrote for `e`: the same but
      for the timestamp, which keeps only what `Format` prints. */
  function Saved(e: IndexEntry): IndexEntry {
    e.(createdOn := Timestamp(Format(e.createdOn)))
  }

  function SavedAll(es: seq<IndexEntry>): (r: seq<IndexEntry>)
    ensures |r| == |es|
  {
    if es == [] then [] else [Saved(es[0])] + SavedAll(es[1..])
  }

  /** An entry whose timestamp is printed the way `Format` prints it reads
      back exactly. */
  lemma SavedCanonical(es: seq<IndexEntry>)
    requires forall j :: 0 <= j < |es| ==> Canonical(es[j].createdOn)
    ensures SavedAll(es) == es
  {
    SavedAsPrinted(es);
  }

  /** Entries whose timestamps each print as their own text are saved unchanged. */
  lemma {:induction false} SavedAsPrinted(es: seq<IndexEntry>)
    requires forall j :: 0 <= j < |es| ==> Format(es[j].createdOn) == es[j].createdOn.text
    ensures SavedAll(es) == es
  {
    if es != [] {
      var rest := es[1..];
      SavedOfCanonical(es[0]);
      assert forall j :: 0 <= j < |rest| ==> rest[j] == es[j + 1];
      SavedAsPrinted(rest);
      assert SavedAll(es) == [Saved(es[0])] + SavedAll(rest);
    }
  }

  lemma SavedOfCanonical(e: IndexEntry)
    requires Format(e.createdOn) == e.createdOn.text
    ensures Saved(e) == e
  {
    assert Timestamp(Format(e.createdOn)) == e.createdOn;
  }

  /** The printed timestamp of a storable entry parses back to itself. */
  lemma FormatParses(t: Timestamp)
    requires Printable(t)
    ensures Parse(Format(t)) == Some(Timestamp(Format(t)))
  {
    FormatIsCanonical(t);
    ParseFormat(Timestamp(Format(t)));
  }

  /** The printed timestamp has no surrounding spaces and fits on its line. */
  lemma FormatScannable(t: Timestamp)
    requires Printable(t)
    ensures Trimmed(Format(t)) && ScannableLine(CreatedOnLabel + " " + Format(t))
  {
    var f := Format(t);
    FormatHasNoSpaces(t);
    var line := CreatedOnLabel + " " + f;
    assert forall i :: 0 <= i < |f| ==> line[|CreatedOnLabel| + 1 + i] == f[i];
    assert line[|line| - 1] == f[|f| - 1];
  }

  /** A field line of a storable value comes back from the scanner unchanged. */
  lemma WrittenLineScannable(name: string, value: string)
    requires Trimmed(value) && '\n' !in value && '\n' !in name
    ensures ScannableLine(name + " " + value)
  {
    var line := name + " " + value;
    assert forall i :: 0 <= i < |value| ==> line[|name| + 1 + i] == value[i];
    if value != [] {
      assert line[|line| - 1] == value[|value| - 1];
    }
  }

  /** A non-empty line is where `SkipBlank` stops. */
  lemma StopsAt(lines: seq<string>, k: nat)
    requires k < |lines| && lines[k] != ""
    ensures SkipBlank(lines, k) == k
  {
  }

  /** An id line as written: its value is read and the title is looked for next. */
  lemma IdStep(lines: seq<string>, k: nat, id: string)
    requires k < |lines| && lines[k] == IdLabel + " " + id && Trimmed(id)
    ensures ParseField(lines, k, WantId) == ParseField(lines, SkipBlank(lines, k + 1), WantTitle(id))
  {
    FieldValueOfWritten(IdLabel, id);
  }

  /** A title line as written: its value is read and the path is looked for next. */
  lemma TitleStep(lines: seq<string>, k: nat, id: string, title: string)
    requires k < |lines| && lines[k] == TitleLabel + " " + title && Trimmed(title)
    ensures ParseField(lines, k, WantTitle(id)) == ParseField(lines, SkipBlank(lines, k + 1), WantPath(id, title))
  {
    FieldValueOfWritten(TitleLabel, title);
  }

  /** A path line as written: its value is read and the created_on field is looked for next. */
  lemma PathStep(lines: seq<string>, k: nat, id: string, title: string, path: string)
    requires k < |lines| && lines[k] == PathLabel + " " + path && Trimmed(path)
    ensures ParseField(lines, k, WantPath(id, title))
         == ParseField(lines, SkipBlank(lines, k + 1), WantCreatedOn(IndexEntry(id, title, path, Zero)))
  {
    FieldValueOfWritten(PathLabel, path);
  }

  /** A created_on line as written: the record is complete with the printed
      timestamp, and the scanner moves past the line. */
  lemma CreatedOnStep(lines: seq<string>, k: nat, e: IndexEntry, t: Timestamp)
    requires k < |lines| && lines[k] == CreatedOnLabel + " " + Format(t) && Printable(t)
    ensures ParseField(lines, k, WantCreatedOn(e)) == Parsed(e.(createdOn := Timestamp(Format(t))), k + 1)
  {
    FormatParses(t);
    FormatScannable(t);
    GoodCreatedOnStep(lines, k, e, Format(t));
  }

  lemma GoodCreatedOnStep(lines: seq<string>, k: nat, e: IndexEntry, value: string)
    requires k < |lines| && lines[k] == CreatedOnLabel + " " + value && Trimmed(value)
    requires Parse(value) == Some(Timestamp(value))
    ensures ParseField(lines, k, WantCreatedOn(e)) == Parsed(e.(createdOn := Timestamp(value)), k + 1)
  {
    FieldValueOfWritten(CreatedOnLabel, value);
    CreatedOnField(lines, k, e, value, Timestamp(value));
  }

  /** A created_on field whose value parses: the entry takes the timestamp
      and the scanner moves past the line. */
  lemma CreatedOnField(lines: seq<string>, k: nat, e: IndexEntry, value: string, t: Timestamp)
    requires k < |lines| && FieldValue(lines[k], CreatedOnLabel) == Some(value) && Parse(value) == Some(t)
    ensures ParseField(lines, k, WantCreatedOn(e)) == Parsed(e.(createdOn := t), k + 1)
  {
  }

  /** A created_on line whose value does not parse ends the record with an error. */
  lemma BadCreatedOnStep(lines: seq<string>, k: nat, e: IndexEntry, value: string)
    requires k < |lines| && lines[k] == CreatedOnLabel + " " + value && Trimmed(value)
    requires Parse(value).None?
    ensures ParseField(lines, k, WantCreatedOn(e)) == Failed(InvalidCreatedOn(value))
  {
    FieldValueOfWritten(CreatedOnLabel, value);
  }

  /** The first four lines written for a record, found at line `at`, parse
      back to the saved entry and leave the scanner after the created_on
      line, on the record's trailing empty line if there is one. */
  lemma ParseWrittenRecord(lines: seq<string>, at: nat, e: IndexEntry)
    requires Storable(e)
    requires at + 4 <= |lines|
    requires lines[at] == RecordLines(e)[0] && lines[at + 1] == RecordLines(e)[1]
    requires lines[at + 2] == RecordLines(e)[2] && lines[at + 3] == RecordLines(e)[3]
    ensures ParseEntry(lines, at) == Parsed(Saved(e), at + 4)
  {
    StopsAt(lines, at);
    StopsAt(lines, at + 1);
    StopsAt(lines, at + 2);
    StopsAt(lines, at + 3);
    IdStep(lines, at, e.id);
    TitleStep(lines, at + 1, e.id, e.title);
    PathStep(lines, at + 2, e.id, e.title, e.path);
    CreatedOnStep(lines, at + 3, IndexEntry(e.id, e.title, e.path, Zero), e.createdOn);
  }

  /** A record that lacks the created_on field: the entry keeps the zero
      timestamp and the next record starts at the next non-empty line. */
  lemma RecordWithoutCreatedOn(lines: seq<string>, at: nat, id: string, title: string, path: string)
    requires Trimmed(id) && Trimmed(title) && Trimmed(path)
    requires at + 3 <= |lines|
    requires lines[at] == IdLabel + " " + id && lines[at + 1] == TitleLabel + " " + title
    requires lines[at + 2] == PathLabel + " " + path
    requires var k := SkipBlank(lines, at + 3); k == |lines| || !HasPrefix(lines[k], CreatedOnLabel)
    ensures ParseEntry(lines, at) == Parsed(IndexEntry(id, title, path, Zero), SkipBlank(lines, at + 3))
  {
    StopsAt(lines, at);
    StopsAt(lines, at + 1);
    StopsAt(lines, at + 2);
    IdStep(lines, at, id);
    TitleStep(lines, at + 1, id, title);
    PathStep(lines, at + 2, id, title, path);
  }

  /** A record whose created_on value is one `Parse` rejects is an error,
      not a record with the zero timestamp. */
  lemma RecordWithBadCreatedOn(lines: seq<string>, at: nat, id: string, title: string, path: string, value: string)
    requires Trimmed(id) && Trimmed(title) && Trimmed(path) && Trimmed(value)
    requires at + 4 <= |lines|
    requires lines[at] == IdLabel + " " + id && lines[at + 1] == TitleLabel + " " + title
    requires lines[at + 2] == PathLabel + " " + path
    requires lines[at + 3] == CreatedOnLabel + " " + value && Parse(value).None?
    ensures ParseEntry(lines, at) == Failed(InvalidCreatedOn(value))
  {
    StopsAt(lines, at);
    StopsAt(lines, at + 1);
    StopsAt(lines, at + 2);
    StopsAt(lines, at + 3);
    IdStep(lines, at, id);
    TitleStep(lines, at + 1, id, title);
    PathStep(lines, at + 2, id, title, path);
    BadCreatedOnStep(lines, at + 3, IndexEntry(id, title, path, Zero), value);
  }

  /** A record that lacks the created_on field and that only empty lines
      follow is dropped: skipping them reaches the end of the input, so the
      scanner reports no more lines and the loop stops without keeping the
      record. */
  lemma RecordWithoutCreatedOnAtEnd(lines: seq<string>, at: nat, id: string, title: string, path: string)
    requires Trimmed(id) && Trimmed(title) && Trimmed(path)
    requires at + 3 <= |lines|
    requires lines[at] == IdLabel + " " + id && lines[at + 1] == TitleLabel + " " + title
    requires lines[at + 2] == PathLabel + " " + path
    requires forall j :: at + 3 <= j < |lines| ==> lines[j] == ""
    ensures LoadFrom(lines, at) == Ok([])
  {
    assert SkipBlank(lines, at + 3) == |lines|;
    RecordWithoutCreatedOn(lines, at, id, title, path);
  }

  /** The smallest case: an index holding one record without created_on,
      then two empty lines, loads as no records at all. */
  lemma LoadDropsPathThenEmptyLines()
    ensures Load(["id: 1", "title: a", "path: p", "", ""]) == Ok([])
  {
    var lines := ["id: 1", "title: a", "path: p", "", ""];
    assert lines[0] == IdLabel + " " + "1";
    assert lines[1] == TitleLabel + " " + "a";
    assert lines[2] == PathLabel + " " + "p";
    RecordWithoutCreatedOnAtEnd(lines, 0, "1", "a", "p");
  }

  // ---------------------------------------------------------------------
  // Loading a sequence of records

  lemma PrependNil(r: Result<seq<IndexEntry>, ParseError>)
    ensures Prepend([], r) == r
  {
    if r.Ok? {
      assert [] + r.value == r.value;
    }
  }

  lemma PrependPrepend(a: seq<IndexEntry>, b: seq<IndexEntry>, r: Result<seq<IndexEntry>, ParseError>)
    ensures Prepend(a, Prepend(b, r)) == Prepend(a + b, r)
  {
    if r.Ok? {
      assert a + (b + r.value) == a + b + r.value;
    }
  }

  /** `LoadIndex` on lines is the loop started at the first line; on no lines
      at all both give no records. */
  lemma LoadIsLoadFrom(lines: seq<string>)
    ensures Load(lines) == LoadFrom(lines, 0)
  {
  }

  /** An empty line where a record would start changes nothing: the parser
      skips it. */
  lemma LoadFromEmptyLine(lines: seq<string>, at: nat)
    requires at < |lines| && lines[at] == ""
    ensures LoadFrom(lines, at) == LoadFrom(lines, at + 1)
  {
    assert SkipBlank(lines, at) == SkipBlank(lines, at + 1);
    assert ParseEntry(lines, at) == ParseEntry(lines, at + 1);
  }

  /** Line `i` of record `j` of the index file. */
  lemma {:induction false} IndexLinesRecord(es: seq<IndexEntry>, j: nat, i: nat)
    requires j < |es| && i < 5
    ensures IndexLines(es)[5 * j + i] == RecordLines(es[j])[i]
  {
    var head := RecordLines(es[0]);
    var rest := IndexLines(es[1..]);
    assert IndexLines(es) == head + rest;
    if j > 0 {
      assert es[1..][j - 1] == es[j];
      IndexLinesRecord(es[1..], j - 1, i);
      LineAfter(head, rest, 5 * j + i);
    }
  }

  /** A line past the first part of two joined parts is a line of the second. */
  lemma LineAfter(head: seq<string>, rest: seq<string>, m: nat)
    requires |head| <= m < |head| + |rest|
    ensures (head + rest)[m] == rest[m - |head|]
  {
  }

  /** Line `at` starts a record that reads back as `e` and ends with an empty line. */
  ghost predicate RecordAt(lines: seq<string>, at: nat, e: IndexEntry) {
    at + 5 <= |lines| && ParseEntry(lines, at) == Parsed(e, at + 4) && lines[at + 4] == ""
  }

  /** From line `at` on, the lines hold one record for each of `rs`, five lines each. */
  ghost predicate RecordsFrom(lines: seq<string>, at: nat, rs: seq<IndexEntry>)
    decreases |rs|
  {
    rs == [] || (RecordAt(lines, at, rs[0]) && RecordsFrom(lines, at + 5, rs[1..]))
  }

  lemma RecordsCons(lines: seq<string>, at: nat, r: IndexEntry, rs: seq<IndexEntry>)
    requires RecordAt(lines, at, r) && RecordsFrom(lines, at + 5, rs)
    ensures RecordsFrom(lines, at, [r] + rs)
  {
    assert ([r] + rs)[1..] == rs;
  }

  /** From line `at` on, the records are read back in order, followed by
      whatever the lines after them, from `end` on, give. */
  lemma {:induction false} LoadFromRecords(lines: seq<string>, at: nat, rs: seq<IndexEntry>, end: nat)
    requires RecordsFrom(lines, at, rs) && end == at + 5 * |rs| <= |lines|
    ensures LoadFrom(lines, at) == Prepend(rs, LoadFrom(lines, end))
    decreases |rs|
  {
    if rs == [] {
      PrependNil(LoadFrom(lines, at));
    } else {
      var rest := LoadFrom(lines, end);
      calc {
        LoadFrom(lines, at);
        { LoadFromRecord(lines, at, rs[0]); }
        Prepend([rs[0]], LoadFrom(lines, at + 5));
        { LoadFromRecords(lines, at + 5, rs[1..], end); }
        Prepend([rs[0]], Prepend(rs[1..], rest));
        { PrependPrepend([rs[0]], rs[1..], rest); }
        Prepend([rs[0]] + rs[1..], rest);
        { assert [rs[0]] + rs[1..] == rs; }
        Prepend(rs, rest);
      }
    }
  }

  /** A record followed by its empty line is read, and loading goes on after it. */
  lemma LoadFromRecord(lines: seq<string>, at: nat, e: IndexEntry)
    requires RecordAt(lines, at, e)
    ensures LoadFrom(lines, at) == Prepend([e], LoadFrom(lines, at + 5))
  {
    LoadFromEmptyLine(lines, at + 4);
  }

  lemma {:induction false} SavedAllIndex(es: seq<IndexEntry>, j: nat)
    requires j < |es|
    ensures SavedAll(es)[j] == Saved(es[j])
  {
    if j > 0 {
      SavedAllIndex(es[1..], j - 1);
    }
  }

  /** What `SaveIndex` writes for storable entries holds their saved
      records, from record `j` on. */
  lemma {:induction false} WrittenRecords(es: seq<IndexEntry>, tail: seq<string>, j: nat, at: nat)
    requires AllStorable(es) && j <= |es| && at == 5 * j
    ensures RecordsFrom(IndexLines(es) + tail, at, SavedAll(es)[j..])
    decreases |es| - j
  {
    if j < |es| {
      var saved := SavedAll(es);
      StorableAt(es, j);
      WrittenRecordAt(es, tail, j, at);
      WrittenRecords(es, tail, j + 1, at + 5);
      RecordsCons(IndexLines(es) + tail, at, saved[j], saved[j + 1..]);
      assert saved[j..] == [saved[j]] + saved[j + 1..];
    }
  }

  lemma WrittenRecordAt(es: seq<IndexEntry>, tail: seq<string>, j: nat, at: nat)
    requires j < |es| && Storable(es[j]) && at == 5 * j
    ensures RecordAt(IndexLines(es) + tail, at, SavedAll(es)[j])
  {
    WrittenRecordLines(es, tail, j);
    SavedAllIndex(es, j);
  }

  lemma WrittenRecordLines(es: seq<IndexEntry>, tail: seq<string>, j: nat)
    requires j < |es| && Storable(es[j])
    ensures RecordAt(IndexLines(es) + tail, 5 * j, Saved(es[j]))
  {
    var lines := IndexLines(es) + tail;
    WrittenLines(es, tail, j);
    RecordLinesAt(lines, 5 * j, es[j]);
  }

  lemma WrittenLines(es: seq<IndexEntry>, tail: seq<string>, j: nat)
    requires j < |es|
    ensures 5 * j + 5 <= |IndexLines(es) + tail|
    ensures forall i :: 0 <= i < 5 ==> (IndexLines(es) + tail)[5 * j + i] == RecordLines(es[j])[i]
  {
    forall i | 0 <= i < 5
      ensures (IndexLines(es) + tail)[5 * j + i] == RecordLines(es[j])[i]
    {
      IndexLinesRecord(es, j, i);
    }
  }

  /** The five lines written for a storable entry, found at line `at`. */
  lemma RecordLinesAt(lines: seq<string>, at: nat, e: IndexEntry)
    requires Storable(e) && at + 5 <= |lines|
    requires forall i :: 0 <= i < 5 ==> lines[at + i] == RecordLines(e)[i]
    ensures RecordAt(lines, at, Saved(e))
  {
    assert lines[at] == RecordLines(e)[0];
    assert lines[at + 1] == RecordLines(e)[1];
    assert lines[at + 2] == RecordLines(e)[2];
    assert lines[at + 3] == RecordLines(e)[3];
    assert lines[at + 4] == RecordLines(e)[4];
    ParseWrittenRecord(lines, at, e);
  }

  /** The records written for `es`, followed by any lines at all: the saved
      entries come first, and an error in what follows discards them all. */
  lemma LoadWrittenThen(es: seq<IndexEntry>, tail: seq<string>)
    requires AllStorable(es)
    ensures Load(IndexLines(es) + tail) == Prepend(SavedAll(es), LoadFrom(IndexLines(es) + tail, 5 * |es|))
  {
    WrittenRecords(es, tail, 0, 0);
    assert SavedAll(es)[0..] == SavedAll(es);
    LoadIsLoadFrom(IndexLines(es) + tail);
    LoadFromRecords(IndexLines(es) + tail, 0, SavedAll(es), 5 * |es|);
  }

  /** Every line `SaveIndex` writes for storable entries comes back from the
      scanner unchanged. */
  lemma {:induction false} IndexLinesScannable(es: seq<IndexEntry>)
    requires AllStorable(es)
    ensures AllScannable(IndexLines(es))
  {
    if es != [] {
      StorableAt(es, 0);
      RecordScannable(es[0]);
      assert AllStorable(es[1..]) by {
        forall j | 0 <= j < |es| - 1 ensures Storable(es[1..][j]) {
          StorableAt(es, j + 1);
        }
      }
      IndexLinesScannable(es[1..]);
      AllScannableAppend(RecordLines(es[0]), IndexLines(es[1..]), 5 * (|es| - 1));
      assert IndexLines(es[1..])[..5 * (|es| - 1)] == IndexLines(es[1..]);
    }
  }

  /** The five lines of one storable record come back from the scanner unchanged. */
  lemma RecordScannable(e: IndexEntry)
    requires Storable(e)
    ensures AllScannable(RecordLines(e))
  {
    FormatScannable(e.createdOn);
    FieldLinesScannable(e);
  }

  lemma FieldLinesScannable(e: IndexEntry)
    requires Trimmed(e.id) && '\n' !in e.id && Trimmed(e.title) && '\n' !in e.title
    requires Trimmed(e.path) && '\n' !in e.path
    requires ScannableLine(CreatedOnLabel + " " + Format(e.createdOn))
    ensures AllScannable(RecordLines(e))
  {
    WrittenLineScannable(IdLabel, e.id);
    WrittenLineScannable(TitleLabel, e.title);
    WrittenLineScannable(PathLabel, e.path);
  }

  /** Prefixes of the lines of one record (what an interrupted save leaves
      last) keep each line readable. */
  lemma TruncatedScannable(es: seq<IndexEntry>, e: IndexEntry, k: nat)
    requires AllStorable(es) && Storable(e) && k <= 5
    ensures AllScannable(IndexLines(es) + RecordLines(e)[..k])
  {
    IndexLinesScannable(es);
    IndexLinesScannable([e]);
    assert IndexLines([e]) == RecordLines(e);
    AllScannableAppend(IndexLines(es), RecordLines(e), k);
  }

  /** Reading the text of a save cut short after `k` lines of its last
      record: the records before it first, then what the partial one gives,
      which starts right after them. */
  lemma LoadCut(es: seq<IndexEntry>, e: IndexEntry, k: nat)
    requires AllStorable(es) && Storable(e) && k <= 5
    ensures var lines := IndexLines(es) + RecordLines(e)[..k];
      Load(ScanLines(JoinLines(lines))) == Prepend(SavedAll(es), LoadFrom(lines, 5 * |es|))
      && |lines| == 5 * |es| + k
      && forall i :: 0 <= i < k ==> lines[5 * |es| + i] == RecordLines(e)[i]
  {
    var tail := RecordLines(e)[..k];
    var lines := IndexLines(es) + tail;
    TruncatedScannable(es, e, k);
    ScanJoinLines(lines);
    LoadWrittenThen(es, tail);
  }

  // ---------------------------------------------------------------------
  // Round trip

  /** `LoadIndex` reads back what `SaveIndex` wrote: the same entries, in
      the same order, each timestamp as `Format` printed it. */
  lemma SaveLoadRoundTrip(es: seq<IndexEntry>)
    requires AllStorable(es)
    ensures Load(ScanLines(IndexText(es))) == Ok(SavedAll(es))
  {
    IndexLinesScannable(es);
    ScanJoinLines(IndexLines(es));
    var lines := IndexLines(es);
    LoadWrittenThen(es, []);
    assert lines + [] == lines;
    assert LoadFrom(lines, 5 * |es|) == Ok([]);
    assert SavedAll(es) + [] == SavedAll(es);
  }

  /** With timestamps already in the printed form the round trip is exact. */
  lemma SaveLoadIdentity(es: seq<IndexEntry>)
    requires AllStorable(es)
    requires forall j :: 0 <= j < |es| ==> Canonical(es[j].createdOn)
    ensures Load(ScanLines(IndexText(es))) == Ok(es)
  {
    SaveLoadRoundTrip(es);
    SavedCanonical(es);
  }

  /** A save cut short after the id line of its last record: the title is
      missing, and the load fails and returns no records at all. */
  lemma LoadCutAfterId(es: seq<IndexEntry>, e: IndexEntry)
    requires AllStorable(es) && Storable(e)
    ensures Load(ScanLines(JoinLines(IndexLines(es) + RecordLines(e)[..1]))) == Err(NoMatchingTitle(e.id))
  {
    var lines := IndexLines(es) + RecordLines(e)[..1];
    var n := 5 * |es|;
    LoadCut(es, e, 1);
    assert lines[n] == IdLabel + " " + e.id by { assert lines[n + 0] == RecordLines(e)[0]; }
    StopsAt(lines, n);
    IdStep(lines, n, e.id);
    assert ParseEntry(lines, n) == Failed(NoMatchingTitle(e.id));
  }

  /** A save cut short after the title line of its last record: the path is
      missing, and the load fails and returns no records at all. */
  lemma LoadCutAfterTitle(es: seq<IndexEntry>, e: IndexEntry)
    requires AllStorable(es) && Storable(e)
    ensures Load(ScanLines(JoinLines(IndexLines(es) + RecordLines(e)[..2]))) == Err(NoMatchingPath(e.title))
  {
    var lines := IndexLines(es) + RecordLines(e)[..2];
    var n := 5 * |es|;
    LoadCut(es, e, 2);
    assert lines[n + 0] == RecordLines(e)[0];
    IdTitleThenEnd(lines, n, e);
  }

  /** The id and title lines of a record with nothing after them: the path
      is missing, and the record is an error. */
  lemma IdTitleThenEnd(lines: seq<string>, n: nat, e: IndexEntry)
    requires |lines| == n + 2 && Trimmed(e.id) && Trimmed(e.title)
    requires lines[n] == RecordLines(e)[0] && lines[n + 1] == RecordLines(e)[1]
    ensures ParseEntry(lines, n) == Failed(NoMatchingPath(e.title))
  {
    StopsAt(lines, n);
    StopsAt(lines, n + 1);
    IdStep(lines, n, e.id);
    TitleStep(lines, n + 1, e.id, e.title);
  }

  /** A save cut short after the path line of its last record: that record
      has every required field, but no line follows it, so `LoadIndex` drops
      it and returns the records before it. */
  lemma LoadCutAfterPath(es: seq<IndexEntry>, e: IndexEntry)
    requires AllStorable(es) && Storable(e)
    ensures Load(ScanLines(JoinLines(IndexLines(es) + RecordLines(e)[..3]))) == Ok(SavedAll(es))
  {
    var lines := IndexLines(es) + RecordLines(e)[..3];
    var n := 5 * |es|;
    LoadCut(es, e, 3);
    assert lines[n + 0] == RecordLines(e)[0];
    IdTitlePathThenEnd(lines, n, e);
    assert SavedAll(es) + [] == SavedAll(es);
  }

  /** The id, title and path lines of a record with nothing after them: the
      record has every required field, but the scanner has no more lines, so
      it is not kept. */
  lemma IdTitlePathThenEnd(lines: seq<string>, n: nat, e: IndexEntry)
    requires |lines| == n + 3 && Trimmed(e.id) && Trimmed(e.title) && Trimmed(e.path)
    requires lines[n] == RecordLines(e)[0] && lines[n + 1] == RecordLines(e)[1] && lines[n + 2] == RecordLines(e)[2]
    ensures LoadFrom(lines, n) == Ok([])
  {
    RecordWithoutCreatedOnAtEnd(lines, n, e.id, e.title, e.path);
  }

  /** A save cut short just before the empty line that ends its last record:
      the record is read in full, but no line follows it, so `LoadIndex`
      drops it and returns the records before it. */
  lemma LoadCutAfterCreatedOn(es: seq<IndexEntry>, e: IndexEntry)
    requires AllStorable(es) && Storable(e)
    ensures Load(ScanLines(JoinLines(IndexLines(es) + RecordLines(e)[..4]))) == Ok(SavedAll(es))
  {
    var lines := IndexLines(es) + RecordLines(e)[..4];
    var n := 5 * |es|;
    LoadCut(es, e, 4);
    assert lines[n] == RecordLines(e)[0] && lines[n + 1] == RecordLines(e)[1] by {
      assert lines[n + 0] == RecordLines(e)[0];
    }
    ParseWrittenRecord(lines, n, e);
    assert LoadFrom(lines, n) == Ok([]);
    assert SavedAll(es) + [] == SavedAll(es);
  }

  /** Appending a record to a save appends the entry to what is read back. */
  lemma LoadAppendedRecord(es: seq<IndexEntry>, e: IndexEntry)
    requires AllStorable(es) && Storable(e)
    ensures Load(ScanLines(IndexText(es + [e]))) == Ok(SavedAll(es) + [Saved(e)])
  {
    assert AllStorable(es + [e]);
    SaveLoadRoundTrip(es + [e]);
    SavedAllAppend(es, e);
  }

  lemma {:induction false} SavedAllAppend(es: seq<IndexEntry>, e: IndexEntry)
    ensures SavedAll(es + [e]) == SavedAll(es) + [Saved(e)]
  {
    if es == [] {
      assert es + [e] == [e];
    } else {
      assert (es + [e])[1..] == es[1..] + [e];
      SavedAllAppend(es[1..], e);
    }
  }
}
