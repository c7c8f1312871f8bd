/** Text as lines: `bufio.ScanLines`, the split function a default
    `bufio.Scanner` uses, and the inverse operation of writing each line
    followed by "\n". */
module Lines {

  /** Index of the first '\n' in `s`, or |s| when there is none. */
  function LineEnd(s: string): (k: nat)
    ensures k <= |s|
    ensures k < |s| ==> s[k] == '\n'
    ensures forall i :: 0 <= i < k ==> s[i] != '\n'
  {
    if s == [] || s[0] == '\n' then 0 else 1 + LineEnd(s[1..])
  }

  /** A line with one trailing carriage return removed, as `bufio.ScanLines` does. */
  function DropCR(line: string): string {
    if line != [] && line[|line| - 1] == '\r' then line[..|line| - 1] else line
  }

  /** The tokens a `bufio.Scanner` with `bufio.ScanLines` yields for `text`:
      the pieces between '\n' characters, each without a trailing '\r'; a
      final piece is yielded only when it is non-empty, so text ending in
      "\n" has no empty last line. */
  function ScanLines(text: string): (lines: seq<string>)
    ensures forall i :: 0 <= i < |lines| ==> '\n' !in lines[i]
    decreases |text|
  {
    if text == [] then []
    else
      var k := LineEnd(text);
      if k == |text| then [DropCR(text)]
      else [DropCR(text[..k])] + ScanLines(text[k + 1..])
  }

  /** Writing each line followed by "\n". */
  function JoinLines(lines: seq<string>): (text: string)
  {
    if lines == [] then [] else lines[0] + "\n" + JoinLines(lines[1..])
  }

  /** Written lines take at least one character each, and the text ends
      with the newline after the last one. */
  lemma {:induction false} JoinLinesEnds(lines: seq<string>)
    ensures |JoinLines(lines)| >= |lines|
    ensures lines != [] ==> JoinLines(lines)[|JoinLines(lines)| - 1] == '\n'
  {
    if lines != [] {
      JoinLinesEnds(lines[1..]);
    }
  }

  /** A line the scanner gives back unchanged: no '\n' inside and no '\r' at the end. */
  predicate ScannableLine(line: string) {
    '\n' !in line && (line == [] || line[|line| - 1] != '\r')
  }

  predicate AllScannable(lines: seq<string>) {
    forall i :: 0 <= i < |lines| ==> ScannableLine(lines[i])
  }

  /** Lines that are each readable stay so when put one after the other or cut short. */
  lemma AllScannableAppend(a: seq<string>, b: seq<string>, k: nat)
    requires AllScannable(a) && AllScannable(b) && k <= |b|
    ensures AllScannable(a + b[..k])
  {
    forall i | 0 <= i < |a + b[..k]|
      ensures ScannableLine((a + b[..k])[i])
    {
      if i < |a| {
        assert (a + b[..k])[i] == a[i];
      } else {
        assert (a + b[..k])[i] == b[i - |a|];
      }
    }
  }

  /** Scanning text written line by line gives the same lines back. */
  lemma {:induction false} ScanJoinLines(lines: seq<string>)
    requires AllScannable(lines)
    ensures ScanLines(JoinLines(lines)) == lines
  {
    if lines != [] {
      var text := JoinLines(lines);
      var first := lines[0];
      assert text == first + ("\n" + JoinLines(lines[1..]));
      LineEndAfter(first, JoinLines(lines[1..]));
      assert text[..|first|] == first;
      assert text[|first| + 1..] == JoinLines(lines[1..]);
      ScanJoinLines(lines[1..]);
    }
  }

  lemma {:induction false} LineEndAfter(line: string, rest: string)
    requires '\n' !in line
    ensures LineEnd(line + "\n" + rest) == |line|
  {
    if line != [] {
      assert (line + "\n" + rest)[1..] == line[1..] + "\n" + rest;
      LineEndAfter(line[1..], rest);
    }
  }

  /** Writing two runs of lines one after the other writes their texts one after the other. */
  lemma {:induction false} JoinLinesAppend(a: seq<string>, b: seq<string>)
    ensures JoinLines(a + b) == JoinLines(a) + JoinLines(b)
  {
    if a == [] {
      assert a + b == b;
    } else {
      assert (a + b)[1..] == a[1..] + b;
      JoinLinesAppend(a[1..], b);
    }
  }

  /** Writing one more line appends it and its "\n" to the text. */
  lemma JoinLinesSnoc(lines: seq<string>, line: string)
    ensures JoinLines(lines + [line]) == JoinLines(lines) + line + "\n"
  {
    JoinLinesAppend(lines, [line]);
    assert [line][1..] == [];
  }

  /** Writing five more lines, one at a time. */
  lemma JoinFiveLines(lines: seq<string>, a: string, b: string, c: string, d: string, e: string)
    ensures JoinLines(lines + [a, b, c, d, e]) ==
      JoinLines(lines) + a + "\n" + b + "\n" + c + "\n" + d + "\n" + e + "\n"
  {
    JoinLinesSnoc(lines, a);
    JoinLinesSnoc(lines + [a], b);
    JoinLinesSnoc(lines + [a] + [b], c);
    JoinLinesSnoc(lines + [a] + [b] + [c], d);
    JoinLinesSnoc(lines + [a] + [b] + [c] + [d], e);
    assert lines + [a] + [b] + [c] + [d] + [e] == lines + [a, b, c, d, e];
  }
}
