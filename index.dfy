/** The in-memory index of notes: choosing the next ID, adding a note,
    looking a note up and deleting one (internal/notes/notes.go). The index
    is the slice `[]*IndexEntry` the functions pass around; reading it is
    modelled on a sequence, and the in-place removal on an array whose first
    `n` cells are the slice. */
module NoteIndex {
  import opened Wrappers
  import opened Decimal
  import opened Timestamps
  import opened Entries

  // ---------------------------------------------------------------------
  // Next ID

  /** `id, _ := strconv.Atoi(entry.ID)`: the error is dropped, and the value
      that comes with it is 0. A value other than 0 is what the ID reads as,
      and only an ID written with a minus sign reads as a negative value. */
  function IdValue(id: string): (n: int)
    ensures n != 0 ==> Atoi(id) == Some(n)
    ensures n < 0 ==> |id| >= 2 && id[0] == '-'
  {
    match Atoi(id)
    case Some(n) => n
    case None => 0
  }

  /** One turn of the loop of `getNextID`: `max` takes the new value when it
      is not positive or when the new value is larger. */
  function MaxStep(max: int, id: int): int {
    if max <= 0 || max < id then id else max
  }

  /** `max` after the loop of `getNextID` has seen the entries `es`. */
  function RunningMax(es: seq<IndexEntry>): (max: int)
    ensures max == 0 || exists k :: 0 <= k < |es| && max == IdValue(es[k].id)
  {
    if es == [] then 0 else MaxStep(RunningMax(es[..|es| - 1]), IdValue(es[|es| - 1].id))
  }

  /** The loop of `getNextID` takes one more entry into `max`. */
  lemma RunningMaxStep(es: seq<IndexEntry>, i: nat)
    requires i < |es|
    ensures RunningMax(es[..i + 1]) == MaxStep(RunningMax(es[..i]), IdValue(es[i].id))
  {
    assert es[..i + 1][..i] == es[..i];
  }

  /** What `getNextID` returns: one more than the final `max`, in decimal. */
  function NextId(index: seq<IndexEntry>): (id: string)
    ensures Atoi(id) == Some(RunningMax(index) + 1)
  {
    AtoiFormatInt(RunningMax(index) + 1);
    FormatInt(RunningMax(index) + 1)
  }

  /** No ID of the index reads as a negative number (IDs that are not numbers
      read as 0). */
  predicate NoNegativeIds(index: seq<IndexEntry>) {
    forall k :: 0 <= k < |index| ==> IdValue(index[k].id) >= 0
  }

  /** `getNextID`. */
  method GetNextId(index: seq<IndexEntry>) returns (id: string)
    ensures id == NextId(index)
    ensures Atoi(id) == Some(RunningMax(index) + 1)
    ensures NoNegativeIds(index) ==> forall k :: 0 <= k < |index| ==> IdValue(index[k].id) < RunningMax(index) + 1
  {
    var max := 0;
    for i := 0 to |index|
      invariant max == RunningMax(index[..i])
    {
      var n := IdValue(index[i].id);
      RunningMaxStep(index, i);
      if max <= 0 || max < n {
        max := n;
      }
    }
    assert index[..|index|] == index;
    id := FormatInt(max + 1);
    assert id == NextId(index);
    if NoNegativeIds(index) {
      RunningMaxIsLargest(index);
    }
  }

  /** With no negative IDs, the loop of `getNextID` finds the largest ID
      (0 for an empty index): it is at least every ID, and `RunningMax`
      already says it is 0 or one of them. */
  lemma RunningMaxIsLargest(es: seq<IndexEntry>)
    requires NoNegativeIds(es)
    ensures forall k :: 0 <= k < |es| ==> IdValue(es[k].id) <= RunningMax(es)
  {
    var vs := IdValues(es);
    RunningMaxIsMaxFold(es);
    forall k | 0 <= k < |es|
      ensures IdValue(es[k].id) <= RunningMax(es)
    {
      MaxFoldAbove(vs, k);
    }
  }

  /** The parsed IDs of the entries, in order. */
  function IdValues(es: seq<IndexEntry>): (vs: seq<int>)
    ensures |vs| == |es| && forall k :: 0 <= k < |es| ==> vs[k] == IdValue(es[k].id)
  {
    seq(|es|, k requires 0 <= k < |es| => IdValue(es[k].id))
  }

  /** The loop of `getNextID` over the parsed IDs alone. */
  function MaxFold(vs: seq<int>): int {
    if vs == [] then 0 else MaxStep(MaxFold(vs[..|vs| - 1]), vs[|vs| - 1])
  }

  lemma {:induction false} RunningMaxIsMaxFold(es: seq<IndexEntry>)
    ensures RunningMax(es) == MaxFold(IdValues(es))
    decreases |es|
  {
    if es != [] {
      var n := |es| - 1;
      RunningMaxIsMaxFold(es[..n]);
      assert IdValues(es)[..n] == IdValues(es[..n]);
    }
  }

  /** With no negative values, the fold is at least the value at `k`. */
  lemma {:induction false} MaxFoldAbove(vs: seq<int>, k: nat)
    requires forall j :: 0 <= j < |vs| ==> vs[j] >= 0
    requires k < |vs|
    ensures vs[k] <= MaxFold(vs)
    decreases |vs|
  {
    var n := |vs| - 1;
    var init := vs[..n];
    MaxStepBounds(MaxFold(init), vs[n]);
    if k < n {
      assert forall j :: 0 <= j < |init| ==> init[j] == vs[j];
      MaxFoldAbove(init, k);
    }
  }

  /** One turn of the loop never lowers `max` below a non-negative ID, nor
      below its old value. */
  lemma MaxStepBounds(max: int, id: int)
    requires id >= 0
    ensures max <= MaxStep(max, id) && id <= MaxStep(max, id)
  {
  }

  /** An empty index gets the ID "1". */
  lemma NextIdOfEmpty()
    ensures NextId([]) == "1"
  {
    assert FormatNat(1) == ['1'];
  }

  /** With no negative IDs, the next ID is new: no entry of the index has it. */
  lemma NextIdIsFresh(index: seq<IndexEntry>)
    requires NoNegativeIds(index)
    ensures forall k :: 0 <= k < |index| ==> index[k].id != NextId(index)
  {
    RunningMaxIsLargest(index);
    AtoiFormatInt(RunningMax(index) + 1);
    forall k | 0 <= k < |index|
      ensures index[k].id != NextId(index)
    {
      assert IdValue(index[k].id) != IdValue(NextId(index));
    }
  }

  /** The `max <= 0` test lets a negative ID replace the maximum: for IDs "-4"
      then "-5" the loop ends on -5, and the next ID, "-4", is already taken. */
  lemma NextIdCollidesWithNegativeIds(t: Timestamp)
    ensures var index := [IndexEntry("-4", "", "", t), IndexEntry("-5", "", "", t)];
      NextId(index) == "-4" && index[0].id == NextId(index)
  {
    var index := [IndexEntry("-4", "", "", t), IndexEntry("-5", "", "", t)];
    AtoiOfNegativeDigits("4");
    AtoiOfNegativeDigits("5");
    assert "-" + "4" == "-4" && "-" + "5" == "-5";
    assert index[..1][..0] == [];
    assert RunningMax(index[..1]) == -4;
    assert index[..1] == index[..|index| - 1];
    assert RunningMax(index) == -5;
    assert FormatNat(4) == "4";
  }

  // ---------------------------------------------------------------------
  // Adding a note

  /** `NewNote` without the file system and the clock: `path` is where the
      empty note file was created and `createdOn` is the time it was made.
      The entry with the next ID is appended to the index. */
  method NewNote(title: string, path: string, createdOn: Timestamp, index: seq<IndexEntry>)
    returns (entry: IndexEntry, index': seq<IndexEntry>)
    ensures entry.id == NextId(index) && entry.title == title
    ensures entry.path == path && entry.createdOn == createdOn
    ensures |index'| == |index| + 1 && index'[..|index|] == index && index'[|index|] == entry
    ensures NoNegativeIds(index) ==> forall k :: 0 <= k < |index| ==> index[k].id != entry.id
  {
    var id := GetNextId(index);
    entry := IndexEntry(id, title, path, createdOn);
    index' := index + [entry];
    assert index'[..|index|] == index;
    if NoNegativeIds(index) {
      NextIdIsFresh(index);
    }
  }

  // ---------------------------------------------------------------------
  // Looking a note up

  /** The position of the first entry with ID `id`, if any. */
  function Find(index: seq<IndexEntry>, id: string): (r: Option<nat>)
    ensures r.Some? ==> r.value < |index|
  {
    if index == [] then None
    else if index[0].id == id then Some(0)
    else match Find(index[1..], id)
      case None => None
      case Some(k) => Some(k + 1)
  }

  /** `Find` gives the first match, and nothing exactly when no entry matches. */
  lemma {:induction false} FindIsFirstMatch(index: seq<IndexEntry>, id: string)
    ensures Find(index, id).None? <==> forall k :: 0 <= k < |index| ==> index[k].id != id
    ensures Find(index, id).Some? ==> var k := Find(index, id).value;
      index[k].id == id && forall m :: 0 <= m < k ==> index[m].id != id
  {
    if index != [] && index[0].id != id {
      FindIsFirstMatch(index[1..], id);
      assert forall k :: 0 < k < |index| ==> index[k] == index[1..][k - 1];
    }
  }

  /** `LookupNote`: the first entry with ID `id`, or nil. */
  method LookupNote(id: string, index: seq<IndexEntry>) returns (found: Option<IndexEntry>)
    ensures found.None? <==> forall k :: 0 <= k < |index| ==> index[k].id != id
    ensures found.Some? ==>
      (exists k :: 0 <= k < |index| && index[k] == found.value
         && index[k].id == id && forall m :: 0 <= m < k ==> index[m].id != id)
    ensures found == if Find(index, id).Some? then Some(index[Find(index, id).value]) else None
  {
    found := None;
    var i := 0;
    while i < |index|
      invariant i <= |index|
      invariant forall m :: 0 <= m < i ==> index[m].id != id
      invariant found == None
    {
      if index[i].id == id {
        found := Some(index[i]);
        break;
      }
      i := i + 1;
    }
    FindIsFirstMatch(index, id);
    if found.Some? {
      assert found.value == index[i] && index[i].id == id;
    }
  }

  // ---------------------------------------------------------------------
  // Removing a note

  /** The index without its first entry with ID `id`, the rest in order. */
  function RemoveFirst(index: seq<IndexEntry>, id: string): (r: seq<IndexEntry>)
    ensures |r| == if Find(index, id).Some? then |index| - 1 else |index|
  {
    if index == [] then []
    else if index[0].id == id then index[1..]
    else [index[0]] + RemoveFirst(index[1..], id)
  }

  /** `RemoveFirst` cuts out exactly the entry `Find` points at, and changes
      nothing when there is none. */
  lemma {:induction false} RemoveFirstCutsFound(index: seq<IndexEntry>, id: string)
    ensures Find(index, id).None? ==> RemoveFirst(index, id) == index
    ensures Find(index, id).Some? ==> var k := Find(index, id).value;
      RemoveFirst(index, id) == index[..k] + index[k + 1..]
  {
    if index != [] && index[0].id != id {
      RemoveFirstCutsFound(index[1..], id);
      if Find(index, id).Some? {
        var k := Find(index[1..], id).value;
        assert [index[0]] + (index[1..][..k] + index[1..][k + 1..]) == index[..k + 1] + index[k + 2..];
      } else {
        assert [index[0]] + index[1..] == index;
      }
    }
  }

  /** Removing keeps every entry but the one removed: the multiset of entries
      loses exactly the entry found. */
  lemma RemoveFirstMultiset(index: seq<IndexEntry>, id: string)
    ensures Find(index, id).None? ==> multiset(RemoveFirst(index, id)) == multiset(index)
    ensures Find(index, id).Some? ==>
      multiset(RemoveFirst(index, id)) + multiset{index[Find(index, id).value]} == multiset(index)
  {
    RemoveFirstCutsFound(index, id);
    if Find(index, id).Some? {
      var k := Find(index, id).value;
      MultisetCut(index, k);
    }
  }

  /** Cutting out one element loses exactly that element. */
  lemma MultisetCut(s: seq<IndexEntry>, k: nat)
    requires k < |s|
    ensures multiset(s[..k] + s[k + 1..]) + multiset{s[k]} == multiset(s)
  {
    assert s == s[..k] + [s[k]] + s[k + 1..];
  }

  /** When at most one entry has ID `id`, none is left after removing it, so
      removing again changes nothing. */
  lemma RemoveUniqueId(index: seq<IndexEntry>, id: string)
    requires forall p, q :: 0 <= p < q < |index| && index[p].id == id ==> index[q].id != id
    ensures Find(RemoveFirst(index, id), id).None?
    ensures RemoveFirst(RemoveFirst(index, id), id) == RemoveFirst(index, id)
  {
    var r := RemoveFirst(index, id);
    RemoveFirstCutsFound(index, id);
    FindIsFirstMatch(index, id);
    if Find(index, id).Some? {
      var k := Find(index, id).value;
      forall m | 0 <= m < |r|
        ensures r[m].id != id
      {
        if m < k {
          assert r[m] == index[m];
        } else {
          assert r[m] == index[m + 1];
        }
      }
    }
    FindIsFirstMatch(r, id);
    RemoveFirstCutsFound(r, id);
  }

  /** `removeEntry` on the slice held in `a[..n]`: the first entry with ID
      `id` is found, and the entries after it are shifted down one cell in
      the same backing array, as `append(index[:i], index[i+1:]...)` does.
      The returned length is that of the new slice; the cell just past it
      keeps the old last entry. */
  method RemoveEntry(id: string, a: array<IndexEntry>, n: nat) returns (n': nat)
    requires n <= a.Length
    modifies a
    ensures n' <= n
    ensures a[..n'] == RemoveFirst(old(a[..n]), id)
    ensures n' == if Find(old(a[..n]), id).Some? then n - 1 else n
    ensures a[n'..] == old(a[n'..])
  {
    ghost var index := a[..n];
    var found := -1;
    var i := 0;
    while i < n
      invariant i <= n
      invariant forall m :: 0 <= m < i ==> a[m].id != id
      invariant found == -1
    {
      if a[i].id == id {
        found := i;
        break;
      }
      i := i + 1;
    }
    FindIsFirstMatch(index, id);
    RemoveFirstCutsFound(index, id);
    if found >= 0 {
      assert Find(index, id) == Some(found as nat) by {
        FindAt(index, id, found);
      }
      ghost var before := a[..];
      Shift(a, found, n);
      n' := n - 1;
      assert a[..found] == index[..found];
      assert a[found..n'] == before[found + 1..n] == index[found + 1..];
      assert a[..n'] == a[..found] + a[found..n'];
    } else {
      n' := n;
    }
  }

  /** `Find` gives `k` when entry `k` is the first with ID `id`. */
  lemma FindAt(index: seq<IndexEntry>, id: string, k: nat)
    requires k < |index| && index[k].id == id
    requires forall m :: 0 <= m < k ==> index[m].id != id
    ensures Find(index, id) == Some(k)
  {
    FindIsFirstMatch(index, id);
  }

  /** Moves the cells `k + 1 .. n` of `a` down by one. */
  method Shift(a: array<IndexEntry>, k: nat, n: nat)
    requires k < n <= a.Length
    modifies a
    ensures a[..k] == old(a[..k])
    ensures a[k..n - 1] == old(a[k + 1..n])
    ensures a[n - 1..] == old(a[n - 1..])
  {
    for j := k to n - 1
      invariant a[..k] == old(a[..k])
      invariant a[k..j] == old(a[k + 1..j + 1])
      invariant a[j..] == old(a[j..])
    {
      a[j] := a[j + 1];
    }
  }

  // ---------------------------------------------------------------------
  // Deleting a note

  /** What `os.Remove` did with the note file: removed it, found it already
      gone, or failed with another error. */
  datatype RemoveOutcome = Removed | NotExist | RemoveFailed(message: string)

  /** `DeleteNote` on the slice held in `a[..n]`, with `outcome` the result
      of removing the note's file. An absent ID leaves everything as it is
      without an error; a failed removal leaves the index as it is and
      returns the error; otherwise the entry leaves the index. */
  method DeleteNote(id: string, a: array<IndexEntry>, n: nat, outcome: RemoveOutcome)
    returns (n': nat, err: Option<string>)
    requires n <= a.Length
    modifies a
    ensures Find(old(a[..n]), id).None? ==> n' == n && err == None && a[..] == old(a[..])
    ensures Find(old(a[..n]), id).Some? && outcome.RemoveFailed? ==>
      n' == n && err == Some(outcome.message) && a[..] == old(a[..])
    ensures Find(old(a[..n]), id).Some? && !outcome.RemoveFailed? ==>
      n' == n - 1 && err == None && a[..n'] == RemoveFirst(old(a[..n]), id) && a[n'..] == old(a[n'..])
  {
    var entry := LookupNote(id, a[..n]);
    if entry == None {
      return n, None;
    }
    if outcome.RemoveFailed? {
      return n, Some(outcome.message);
    }
    n' := RemoveEntry(id, a, n);
    err := None;
  }

  // ---------------------------------------------------------------------
  // Note file names

  /** `newNoteName` for the clock reading `millis` (milliseconds since the
      Unix epoch): "note", the number as `%015d` prints it, and ".txt". The
      digits in the middle read back as the clock reading. */
  function NoteName(millis: int): (name: string)
    ensures |name| >= 23
    ensures name[..4] == "note" && name[|name| - 4..] == ".txt"
    ensures Atoi(name[4..|name| - 4]) == Some(millis)
  {
    var name := "note" + ZeroPad(millis, 15) + ".txt";
    assert name[4..|name| - 4] == ZeroPad(millis, 15);
    AtoiZeroPad(millis, 15);
    name
  }

  /** Notes created at different milliseconds get different file names. */
  lemma NoteNamesDiffer(m1: int, m2: int)
    requires m1 != m2
    ensures NoteName(m1) != NoteName(m2)
  {
  }
}
