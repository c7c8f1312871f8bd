/** The text format of the note index (internal/notes/notes.go): the records
    `SaveIndex` writes and the scanner-driven parser `LoadIndex` reads them
    back with.

    The specification side is a set of functions over the lines of the file
    and a cursor `at`, the index of the line the scanner is on (`at == |lines|`
    once `Scan` has returned false). The imperative side is a `Scanner` object
    and the methods `SkipBlankLines`, `ParseNextIndexEntry`, `LoadIndex` and
    `SaveIndex`, each proved to compute what the functions describe. */
module IndexCodec {
  import opened Wrappers
  import opened GoStrings
  import opened Lines
  import opened Timestamps
  import opened Entries

  const IdLabel := "id:"
  const TitleLabel := "title:"
  const PathLabel := "path:"
  const CreatedOnLabel := "created_on:"

  /** The errors `parseNextIndexEntry` returns, with the text each message quotes. */
  datatype ParseError =
    | InvalidId(line: string)
    | NoMatchingTitle(id: string)
    | InvalidTitle(line: string)
    | NoMatchingPath(title: string)
    | InvalidPath(line: string)
    | InvalidCreatedOn(value: string)

  /** What one call of `parseNextIndexEntry` produces: no record because the
      input is used up, a record together with the cursor it leaves the
      scanner at, or an error. */
  datatype Step =
    | Done
    | Parsed(entry: IndexEntry, next: nat)
    | Failed(error: ParseError)

  // ---------------------------------------------------------------------
  // Writing

  /** The five lines `SaveIndex` writes for one entry. */
  function RecordLines(e: IndexEntry): (lines: seq<string>)
    ensures |lines| == 5 && lines[4] == ""
  {
    [IdLabel + " " + e.id,
     TitleLabel + " " + e.title,
     PathLabel + " " + e.path,
     CreatedOnLabel + " " + Format(e.createdOn),
     ""]
  }

  /** The lines of the whole index file, one record after the other. */
  function IndexLines(entries: seq<IndexEntry>): (lines: seq<string>)
    ensures |lines| == 5 * |entries|
  {
    if entries == [] then [] else RecordLines(entries[0]) + IndexLines(entries[1..])
  }

  /** The text of the index file written for `entries`. */
  function IndexText(entries: seq<IndexEntry>): (text: string)
    ensures |text| >= 5 * |entries|
    ensures entries != [] ==> text[|text| - 1] == '\n'
  {
    JoinLinesEnds(IndexLines(entries));
    JoinLines(IndexLines(entries))
  }

  lemma {:induction false} IndexLinesAppend(entries: seq<IndexEntry>, e: IndexEntry)
    ensures IndexLines(entries + [e]) == IndexLines(entries) + RecordLines(e)
  {
    if entries == [] {
      assert entries + [e] == [e];
    } else {
      assert (entries + [e])[1..] == entries[1..] + [e];
      IndexLinesAppend(entries[1..], e);
    }
  }

  /** `SaveIndex` (the truncation and the file writes aside): the text written
      for each entry in turn. */
  method SaveIndex(entries: seq<IndexEntry>) returns (text: string)
    ensures text == IndexText(entries)
  {
    text := "";
    for i := 0 to |entries|
      invariant text == IndexText(entries[..i])
    {
      var e := entries[i];
      var idLine := IdLabel + " " + e.id;
      var titleLine := TitleLabel + " " + e.title;
      var pathLine := PathLabel + " " + e.path;
      var createdOnLine := CreatedOnLabel + " " + Format(e.createdOn);
      text := text + idLine + "\n";
      text := text + titleLine + "\n";
      text := text + pathLine + "\n";
      text := text + createdOnLine + "\n";
      text := text + "\n";
      JoinFiveLines(IndexLines(entries[..i]), idLine, titleLine, pathLine, createdOnLine, "");
      assert entries[..i + 1] == entries[..i] + [e];
      IndexLinesAppend(entries[..i], e);
    }
    assert entries[..|entries|] == entries;
  }

  // ---------------------------------------------------------------------
  // Reading: specification

  /** The first line at or after `at` that `skipBlankLines` stops at: every
      line skipped is empty, and the line stopped at (if any) is not. */
  function SkipBlank(lines: seq<string>, at: nat): (k: nat)
    requires at <= |lines|
    ensures at <= k <= |lines|
    ensures k < |lines| ==> lines[k] != ""
    decreases |lines| - at
  {
    if at < |lines| && lines[at] == "" then SkipBlank(lines, at + 1) else at
  }

  /** A match of `^<name>\s*(.*)` followed by `strings.TrimSpace` of the
      group: the line starts with the field name, and the value is the rest of the
      line without surrounding spaces. */
  function FieldValue(line: string, name: string): (r: Option<string>)
    ensures r.Some? <==> HasPrefix(line, name)
    ensures r.Some? ==> Trimmed(r.value)
  {
    if HasPrefix(line, name) then Some(TrimSpace(line[|name|..])) else None
  }

  /** The field `parseNextIndexEntry` looks for next, with the values of the
      fields read before it. */
  datatype Expect =
    | WantId
    | WantTitle(id: string)
    | WantPath(id: string, title: string)
    | WantCreatedOn(entry: IndexEntry)

  /** The number of lines a record still needs at least. */
  function Needed(want: Expect): nat {
    match want
    case WantId => 3
    case WantTitle(_) => 2
    case WantPath(_, _) => 1
    case WantCreatedOn(_) => 0
  }

  /** `parseNextIndexEntry` from line `k` on, where the field `want` is
      looked for (the empty lines before it already skipped): the id, title
      and path lines are required in this order, each after any number of
      empty lines, and the created_on line is optional. Input that ends
      before the id ends the index; input that ends before the title or the
      path is an error. A line without the field's name is an error, except
      where the created_on field is looked for: that line is left for the
      next record, and the entry keeps the zero timestamp. */
  function ParseField(lines: seq<string>, k: nat, want: Expect): (s: Step)
    requires k <= |lines|
    ensures s.Parsed? ==> k + Needed(want) <= s.next <= |lines|
    decreases Needed(want)
  {
    match want
    case WantId =>
      if k == |lines| then Done
      else (
        match FieldValue(lines[k], IdLabel)
        case None => Failed(InvalidId(lines[k]))
        case Some(id) => ParseField(lines, SkipBlank(lines, k + 1), WantTitle(id)))
    case WantTitle(id) =>
      if k == |lines| then Failed(NoMatchingTitle(id))
      else (
        match FieldValue(lines[k], TitleLabel)
        case None => Failed(InvalidTitle(lines[k]))
        case Some(title) => ParseField(lines, SkipBlank(lines, k + 1), WantPath(id, title)))
    case WantPath(id, title) =>
      if k == |lines| then Failed(NoMatchingPath(title))
      else (
        match FieldValue(lines[k], PathLabel)
        case None => Failed(InvalidPath(lines[k]))
        case Some(path) => ParseField(lines, SkipBlank(lines, k + 1), WantCreatedOn(IndexEntry(id, title, path, Zero))))
    case WantCreatedOn(e) =>
      if k == |lines| then Parsed(e, k)
      else (
        match FieldValue(lines[k], CreatedOnLabel)
        case None => Parsed(e, k)
        case Some(value) => (
          match Timestamps.Parse(value)
          case None => Failed(InvalidCreatedOn(value))
          case Some(createdOn) => Parsed(e.(createdOn := createdOn), k + 1)))
  }

  /** `parseNextIndexEntry` on the scanner positioned at line `at`. A record
      always takes at least the id, title and path lines. */
  function ParseEntry(lines: seq<string>, at: nat): (s: Step)
    requires at <= |lines|
    ensures s.Parsed? ==> at + 3 <= s.next <= |lines|
  {
    ParseField(lines, SkipBlank(lines, at), WantId)
  }

  function Prepend(entries: seq<IndexEntry>, r: Result<seq<IndexEntry>, ParseError>): Result<seq<IndexEntry>, ParseError> {
    match r
    case Ok(rest) => Ok(entries + rest)
    case Err(e) => Err(e)
  }

  /** The loop of `LoadIndex` from the record starting at line `at` on. */
  function LoadFrom(lines: seq<string>, at: nat): (r: Result<seq<IndexEntry>, ParseError>)
    requires at <= |lines|
    ensures SkipBlank(lines, at) == |lines| ==> r == Ok([])
    decreases |lines| - at + 1, 0
  {
    Continue(lines, ParseEntry(lines, at))
  }

  /** Every record loaded from line `at` on took at least three lines. */
  lemma {:induction false} LoadFromBound(lines: seq<string>, at: nat)
    requires at <= |lines|
    ensures LoadFrom(lines, at).Ok? ==> 3 * |LoadFrom(lines, at).value| <= |lines| - at
    decreases |lines| - at
  {
    var step := ParseEntry(lines, at);
    if step.Parsed? && step.next < |lines| {
      LoadFromBound(lines, step.next);
    }
  }

  /** What the loop of `LoadIndex` does with the outcome of one parse: it
      keeps a record and goes on only while the scanner has more lines, and
      gives up everything on an error. */
  function Continue(lines: seq<string>, step: Step): (r: Result<seq<IndexEntry>, ParseError>)
    requires step.Parsed? ==> 0 < step.next <= |lines|
    ensures step.Done? ==> r == Ok([])
    ensures step.Failed? ==> r == Err(step.error)
    decreases if step.Parsed? then |lines| - step.next + 1 else 0, 1
  {
    match step
    case Done => Ok([])
    case Failed(e) => Err(e)
    case Parsed(e, next) =>
      if next < |lines| then Prepend([e], LoadFrom(lines, next)) else Ok([])
  }

  /** `LoadIndex` on the lines the scanner yields. */
  function Load(lines: seq<string>): (r: Result<seq<IndexEntry>, ParseError>)
    ensures r.Ok? ==> 3 * |r.value| <= |lines|
  {
    if lines == [] then Ok([]) else LoadFromBound(lines, 0); LoadFrom(lines, 0)
  }

  // ---------------------------------------------------------------------
  // Reading: the scanner and the parser as the source runs them

  /** A `bufio.Scanner` over the lines of a text: `pos` lines have been
      scanned, `token` is what `Text()` returns and `scanned` is what the
      last `Scan` returned. */
  class Scanner {
    const lines: seq<string>
    var pos: nat
    var token: string
    ghost var scanned: bool

    ghost predicate Valid()
      reads this
    {
      pos <= |lines|
    }

    /** After a `Scan` that returned true the token is the line it read;
        before any `Scan` and after one that returned false it is empty. */
    ghost predicate TokenOfLastScan()
      reads this
    {
      && (scanned ==> 0 < pos <= |lines| && token == lines[pos - 1])
      && (!scanned ==> token == "")
    }

    /** The scanner is on line `k`: the last `Scan` returned it. */
    ghost predicate On(k: nat)
      reads this
    {
      k < |lines| && pos == k + 1 && scanned && token == lines[k]
    }

    constructor (text: string)
      ensures lines == ScanLines(text) && pos == 0 && token == "" && !scanned
      ensures Valid() && TokenOfLastScan()
    {
      lines := ScanLines(text);
      pos := 0;
      token := "";
      scanned := false;
    }

    method Scan() returns (more: bool)
      requires Valid()
      modifies this
      ensures Valid() && TokenOfLastScan()
      ensures more == (old(pos) < |lines|) && scanned == more
      ensures more ==> On(old(pos))
      ensures !more ==> pos == old(pos) && token == ""
    {
      if pos < |lines| {
        token := lines[pos];
        pos := pos + 1;
        more := true;
      } else {
        token := "";
        more := false;
      }
      scanned := more;
    }

    /** The token of the last `Scan`: the line it read when it returned true,
        and the empty string before any `Scan` or after one that returned
        false. */
    function Text(): (t: string)
      reads this
      requires TokenOfLastScan()
      ensures scanned ==> 0 < pos && t == lines[pos - 1]
      ensures !scanned ==> t == ""
    {
      token
    }
  }

  /** `isWhitespace`: despite its name, true only for the empty string, since
      it returns false at the first non-space and `len(s) == 0` otherwise. */
  method IsWhitespace(s: string) returns (b: bool)
    ensures b <==> s == ""
  {
    for i := 0 to |s| {
      if !IsSpace(s[i]) {
        return false;
      }
    }
    return |s| == 0;
  }

  /** `skipBlankLines`: optionally scans first, then scans past empty lines.
      It stops on the line `SkipBlank` names, or reports that none is left. */
  method SkipBlankLines(sc: Scanner, scanFirst: bool) returns (more: bool, line: string)
    requires sc.Valid()
    requires !scanFirst ==> sc.pos > 0 && sc.On(sc.pos - 1)
    modifies sc
    ensures sc.Valid()
    ensures var k := SkipBlank(sc.lines, if scanFirst then old(sc.pos) else old(sc.pos) - 1);
            (more <==> k < |sc.lines|)
            && (more ==> sc.On(k) && line == sc.lines[k])
            && (!more ==> sc.pos == |sc.lines|)
  {
    ghost var start: nat := if scanFirst then sc.pos else sc.pos - 1;
    if scanFirst {
      more := sc.Scan();
    } else {
      more := true;
    }
    line := sc.Text();
    ghost var cur: nat := if more then start else |sc.lines|;
    var blank := IsWhitespace(line);
    while more && blank
      invariant sc.Valid()
      invariant start <= cur <= |sc.lines|
      invariant SkipBlank(sc.lines, start) == SkipBlank(sc.lines, cur)
      invariant more ==> sc.On(cur) && line == sc.lines[cur]
      invariant !more ==> cur == |sc.lines| && sc.pos == |sc.lines|
      invariant blank <==> line == ""
      decreases |sc.lines| - cur
    {
      more := sc.Scan();
      cur := if more then cur + 1 else |sc.lines|;
      if more {
        line := sc.Text();
      }
      blank := IsWhitespace(line);
    }
  }

  /** How the results of `parseNextIndexEntry` report a `Step`. */
  ghost predicate Reports(sc: Scanner, step: Step, entry: Option<IndexEntry>, more: bool, err: Option<ParseError>)
    reads sc
  {
    match step
    case Done => entry == None && !more && err == None
    case Failed(e) => entry == None && !more && err == Some(e)
    case Parsed(e, next) =>
      entry == Some(e) && err == None && (more <==> next < |sc.lines|) && (more ==> sc.On(next))
  }

  /** `parseNextIndexEntry`: reads one record from the line the scanner is on. */
  method ParseNextIndexEntry(sc: Scanner) returns (entry: Option<IndexEntry>, more: bool, err: Option<ParseError>)
    requires sc.Valid() && sc.pos > 0 && sc.On(sc.pos - 1)
    modifies sc
    ensures sc.Valid()
    ensures Reports(sc, ParseEntry(sc.lines, old(sc.pos) - 1), entry, more, err)
  {
    var line;
    more, line := SkipBlankLines(sc, false);
    if !more {
      return None, false, None;
    }
    var matches := FieldValue(line, IdLabel);
    if matches.None? {
      return None, false, Some(InvalidId(line));
    }
    entry, more, err := ParseTitle(sc, matches.value);
  }

  /** The title part of `parseNextIndexEntry`: scan past empty lines, then
      read the title line or report why there is none. */
  method ParseTitle(sc: Scanner, id: string) returns (entry: Option<IndexEntry>, more: bool, err: Option<ParseError>)
    requires sc.Valid()
    modifies sc
    ensures sc.Valid()
    ensures Reports(sc, ParseField(sc.lines, SkipBlank(sc.lines, old(sc.pos)), WantTitle(id)), entry, more, err)
  {
    var line;
    more, line := SkipBlankLines(sc, true);
    if !more {
      return None, false, Some(NoMatchingTitle(id));
    }
    var matches := FieldValue(line, TitleLabel);
    if matches.None? {
      return None, false, Some(InvalidTitle(line));
    }
    entry, more, err := ParsePath(sc, id, matches.value);
  }

  /** The path part of `parseNextIndexEntry`: scan past empty lines, then
      read the path line or report why there is none. */
  method ParsePath(sc: Scanner, id: string, title: string) returns (entry: Option<IndexEntry>, more: bool, err: Option<ParseError>)
    requires sc.Valid()
    modifies sc
    ensures sc.Valid()
    ensures Reports(sc, ParseField(sc.lines, SkipBlank(sc.lines, old(sc.pos)), WantPath(id, title)), entry, more, err)
  {
    ghost var k := SkipBlank(sc.lines, sc.pos);
    var line;
    more, line := SkipBlankLines(sc, true);
    if !more {
      return None, false, Some(NoMatchingPath(title));
    }
    var matches := FieldValue(line, PathLabel);
    if matches.None? {
      return None, false, Some(InvalidPath(line));
    }
    PathThenCreatedOn(sc.lines, k, id, title, matches.value);
    entry, more, err := ParseCreatedOn(sc, IndexEntry(id, title, matches.value, Zero));
  }

  /** A path line where one is expected: the record goes on with the
      optional created_on field at the next non-empty line. */
  lemma PathThenCreatedOn(lines: seq<string>, k: nat, id: string, title: string, path: string)
    requires k < |lines| && FieldValue(lines[k], PathLabel) == Some(path)
    ensures ParseField(lines, k, WantPath(id, title))
         == ParseField(lines, SkipBlank(lines, k + 1), WantCreatedOn(IndexEntry(id, title, path, Zero)))
  {
  }

  /** The end of `parseNextIndexEntry`, from the `created_on` field on: the
      entry read so far keeps the zero timestamp unless the next non-empty
      line is a `created_on:` line, which is then parsed and consumed. */
  method ParseCreatedOn(sc: Scanner, e: IndexEntry) returns (entry: Option<IndexEntry>, more: bool, err: Option<ParseError>)
    requires sc.Valid()
    modifies sc
    ensures sc.Valid()
    ensures Reports(sc, ParseField(sc.lines, SkipBlank(sc.lines, old(sc.pos)), WantCreatedOn(e)), entry, more, err)
  {
    ghost var lines := sc.lines;
    ghost var k := SkipBlank(lines, sc.pos);
    var createdOn := e.createdOn;
    var line;
    more, line := SkipBlankLines(sc, true);
    if more {
      assert sc.pos == k + 1 && line == lines[k];
      var matches := FieldValue(line, CreatedOnLabel);
      if matches.Some? {
        var parsed := Timestamps.Parse(matches.value);
        if parsed.None? {
          return None, false, Some(InvalidCreatedOn(matches.value));
        }
        createdOn := parsed.value;
        more := sc.Scan();
      }
    }
    entry := Some(e.(createdOn := createdOn));
    err := None;
  }

  /** The loop of `LoadIndex` starts from the record on the first line. */
  lemma LoadStart(lines: seq<string>)
    requires lines != []
    ensures Load(lines) == Prepend([], Continue(lines, ParseEntry(lines, 0)))
  {
    match LoadFrom(lines, 0)
    case Ok(rest) => assert [] + rest == rest;
    case Err(_) =>
  }

  /** One turn of the loop of `LoadIndex`: the record read is kept and the
      next one is read from where the scanner stopped. */
  lemma LoadStep(lines: seq<string>, entries: seq<IndexEntry>, step: Step)
    requires step.Parsed? && 0 < step.next < |lines|
    ensures Prepend(entries, Continue(lines, step))
         == Prepend(entries + [step.entry], Continue(lines, ParseEntry(lines, step.next)))
  {
    match LoadFrom(lines, step.next)
    case Ok(rest) => assert entries + ([step.entry] + rest) == entries + [step.entry] + rest;
    case Err(_) =>
  }

  /** The loop of `LoadIndex` stops: at the end of the input, or with the
      first error, which discards every record read so far. */
  lemma LoadStop(lines: seq<string>, entries: seq<IndexEntry>, step: Step)
    requires step.Parsed? ==> 0 < step.next == |lines|
    ensures Prepend(entries, Continue(lines, step)) == if step.Failed? then Err(step.error) else Ok(entries)
  {
    assert entries + [] == entries;
  }

  /** `LoadIndex` on the text of the index file: the records in order, or the
      first error and no records at all. */
  method LoadIndex(text: string) returns (r: Result<seq<IndexEntry>, ParseError>)
    ensures r == Load(ScanLines(text))
  {
    var sc := new Scanner(text);
    var more := sc.Scan();
    if !more {
      return Ok([]);
    }
    ghost var lines := sc.lines;
    var entries: seq<IndexEntry> := [];
    var entry, err;
    ghost var step := ParseEntry(sc.lines, sc.pos - 1);
    ghost var loaded := Prepend(entries, Continue(lines, step));
    LoadStart(lines);
    assert sc.pos - 1 == 0;
    assert loaded == Load(lines);
    entry, more, err := ParseNextIndexEntry(sc);
    while entry.Some? && more && err.None?
      invariant sc.Valid() && sc.lines == lines
      invariant step.Parsed? ==> 0 < step.next <= |lines|
      invariant Reports(sc, step, entry, more, err)
      invariant loaded == Prepend(entries, Continue(lines, step))
      decreases if more && step.Parsed? then |lines| + 1 - step.next else 0
    {
      LoadStep(lines, entries, step);
      entries := entries + [entry.value];
      assert sc.pos - 1 == step.next;
      step := ParseEntry(sc.lines, sc.pos - 1);
      entry, more, err := ParseNextIndexEntry(sc);
    }
    LoadStop(lines, entries, step);
    if err.Some? {
      assert step.Failed? && err.value == step.error;
      return Err(err.value);
    }
    assert !step.Failed?;
    return Ok(entries);
  }
}
