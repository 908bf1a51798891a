/**
 * The drop zone's intake: a batch of candidate files is checked against the
 * current selection and the validation rules, and the survivors are appended.
 * The selection itself belongs to the page; the drop zone hands a new list back
 * through its `onFilesSelected` callback, which is modelled as a returned value.
 */
module FileDropZone {
  import opened Wrappers
  import opened Toasts
  import opened FileUtils

  /** The names of the selected files, position by position. */
  function Names(files: seq<File>): (names: seq<string>)
    ensures |names| == |files|
    ensures forall i :: 0 <= i < |files| ==> names[i] == files[i].name
  {
    seq(|files|, i requires 0 <= i < |files| => files[i].name)
  }

  /** What becomes of one candidate. */
  datatype Verdict = Duplicate | Invalid(reason: string) | Accept

  /** The duplicate check comes first and uses only the names selected before the batch. */
  function Judge(existingNames: seq<string>, f: File): (v: Verdict)
    ensures v.Duplicate? <==> f.name in existingNames
    ensures v.Accept? <==> f.name !in existingNames && ValidateExcelFile(f).valid
    ensures v.Invalid? ==> ValidateExcelFile(f).message == Some(v.reason)
  {
    if f.name in existingNames then Duplicate
    else
      var validation := ValidateExcelFile(f);
      if !validation.valid then Invalid(validation.message.value) else Accept
  }

  /** A candidate the batch admits. */
  predicate Admissible(existingNames: seq<string>, f: File) {
    f.name !in existingNames && ValidateExcelFile(f).valid
  }

  function DuplicateToast(name: string): Toast {
    Toast("Duplicate file", name + " is already in your upload list.", Destructive)
  }

  function InvalidToast(reason: string): Toast {
    Toast("Invalid file", reason, Destructive)
  }

  /** The notification a verdict raises: none for an accepted file, one for each rejection. */
  function Report(f: File, v: Verdict): seq<Toast> {
    match v
    case Duplicate => [DuplicateToast(f.name)]
    case Invalid(reason) => [InvalidToast(reason)]
    case Accept => []
  }

  /** The candidates a batch admits, in input order. */
  function Accepted(candidates: seq<File>, existingNames: seq<string>): seq<File> {
    if candidates == [] then []
    else
      var last := candidates[|candidates| - 1];
      Accepted(candidates[..|candidates| - 1], existingNames)
        + (if Judge(existingNames, last).Accept? then [last] else [])
  }

  /** The notifications a batch raises, in input order. */
  function Reports(candidates: seq<File>, existingNames: seq<string>): seq<Toast> {
    if candidates == [] then []
    else
      var last := candidates[|candidates| - 1];
      Reports(candidates[..|candidates| - 1], existingNames)
        + Report(last, Judge(existingNames, last))
  }

  /**
   * `processFiles`: a missing or empty batch changes nothing; otherwise every
   * candidate is judged on its own, each rejection is reported, and when at
   * least one candidate survives the new selection is the old one followed by
   * the survivors. When none survives `onFilesSelected` is not called (None).
   */
  method ProcessFiles(filesToProcess: Option<seq<File>>, selectedFiles: seq<File>)
    returns (selection: Option<seq<File>>, reports: seq<Toast>)
    ensures filesToProcess.None? ==> selection.None? && reports == []
    ensures filesToProcess.Some? ==>
      var accepted := Accepted(filesToProcess.value, Names(selectedFiles));
      && reports == Reports(filesToProcess.value, Names(selectedFiles))
      && selection == if accepted == [] then None else Some(selectedFiles + accepted)
  {
    if filesToProcess.None? || |filesToProcess.value| == 0 {
      return None, [];
    }
    var newFiles := filesToProcess.value;
    var existingFileNames := Names(selectedFiles);
    var validFiles: seq<File> := [];
    reports := [];
    for i := 0 to |newFiles|
      invariant validFiles == Accepted(newFiles[..i], existingFileNames)
      invariant reports == Reports(newFiles[..i], existingFileNames)
    {
      var file := newFiles[i];
      assert newFiles[..i + 1][..i] == newFiles[..i];
      if file.name in existingFileNames {
        reports := reports + [DuplicateToast(file.name)];
        continue;
      }
      var validation := ValidateExcelFile(file);
      if !validation.valid {
        reports := reports + [InvalidToast(validation.message.value)];
        continue;
      }
      validFiles := validFiles + [file];
    }
    assert newFiles[..|newFiles|] == newFiles;
    selection := if |validFiles| > 0 then Some(selectedFiles + validFiles) else None;
  }

  /** Judging is per candidate: the files a batch admits are those its parts admit, in order. */
  lemma {:induction false} AcceptedAppend(a: seq<File>, b: seq<File>, existingNames: seq<string>)
    ensures Accepted(a + b, existingNames) == Accepted(a, existingNames) + Accepted(b, existingNames)
    decreases |b|
  {
    if b == [] {
      assert a + b == a;
    } else {
      var init := b[..|b| - 1];
      assert (a + b)[..|a + b| - 1] == a + init;
      AcceptedAppend(a, init, existingNames);
    }
  }

  /** Likewise the reports of a batch are those of its parts, in order. */
  lemma {:induction false} ReportsAppend(a: seq<File>, b: seq<File>, existingNames: seq<string>)
    ensures Reports(a + b, existingNames) == Reports(a, existingNames) + Reports(b, existingNames)
    decreases |b|
  {
    if b == [] {
      assert a + b == a;
    } else {
      var init := b[..|b| - 1];
      assert (a + b)[..|a + b| - 1] == a + init;
      ReportsAppend(a, init, existingNames);
    }
  }

  /** A single candidate is accepted exactly when it is admissible, and otherwise reported once. */
  lemma AcceptedSingle(f: File, existingNames: seq<string>)
    ensures Accepted([f], existingNames) == if Admissible(existingNames, f) then [f] else []
    ensures Reports([f], existingNames) == Report(f, Judge(existingNames, f))
    ensures |Reports([f], existingNames)| == if Admissible(existingNames, f) then 0 else 1
  {
    assert [f][..0] == [];
  }

  /** Everything accepted is an admissible candidate of the batch. */
  lemma {:induction false} AcceptedSound(candidates: seq<File>, existingNames: seq<string>)
    ensures forall f :: f in Accepted(candidates, existingNames) ==>
      f in candidates && Admissible(existingNames, f)
    decreases |candidates|
  {
    if candidates != [] {
      var init := candidates[..|candidates| - 1];
      AcceptedSound(init, existingNames);
      forall f | f in init ensures f in candidates {
        var i :| 0 <= i < |init| && init[i] == f;
        assert candidates[i] == f;
      }
    }
  }

  /** Every admissible candidate is accepted, whatever else the batch holds. */
  lemma AcceptedComplete(candidates: seq<File>, existingNames: seq<string>, i: nat)
    requires i < |candidates| && Admissible(existingNames, candidates[i])
    ensures candidates[i] in Accepted(candidates, existingNames)
  {
    var f := candidates[i];
    assert candidates == candidates[..i] + [f] + candidates[i + 1..];
    AcceptedAppend(candidates[..i] + [f], candidates[i + 1..], existingNames);
    AcceptedAppend(candidates[..i], [f], existingNames);
    AcceptedSingle(f, existingNames);
  }

  /** A rejected candidate is reported with its own reason, whatever else the batch holds. */
  lemma RejectionReported(candidates: seq<File>, existingNames: seq<string>, i: nat)
    requires i < |candidates| && !Admissible(existingNames, candidates[i])
    ensures var f := candidates[i];
      if f.name in existingNames then DuplicateToast(f.name) in Reports(candidates, existingNames)
      else InvalidToast(ValidateExcelFile(f).message.value) in Reports(candidates, existingNames)
  {
    var f := candidates[i];
    assert candidates == candidates[..i] + [f] + candidates[i + 1..];
    ReportsAppend(candidates[..i] + [f], candidates[i + 1..], existingNames);
    ReportsAppend(candidates[..i], [f], existingNames);
    AcceptedSingle(f, existingNames);
    var r := Reports(candidates[..i], existingNames);
    assert Reports(candidates, existingNames)
      == r + Report(f, Judge(existingNames, f)) + Reports(candidates[i + 1..], existingNames);
    assert Reports(candidates, existingNames)[|r|] == Report(f, Judge(existingNames, f))[0];
  }

  /** Each candidate is either accepted or reported, never both and never neither. */
  lemma {:induction false} EveryCandidateAccountedFor(candidates: seq<File>, existingNames: seq<string>)
    ensures |Accepted(candidates, existingNames)| + |Reports(candidates, existingNames)| == |candidates|
    decreases |candidates|
  {
    if candidates != [] {
      EveryCandidateAccountedFor(candidates[..|candidates| - 1], existingNames);
    }
  }

  /** No two files of a list share a name. */
  predicate DistinctNames(files: seq<File>) {
    forall i, j :: 0 <= i < j < |files| ==> files[i].name != files[j].name
  }

  /** Accepting keeps a subsequence, so a batch without repeated names yields none. */
  lemma {:induction false} AcceptedKeepsDistinct(candidates: seq<File>, existingNames: seq<string>)
    requires DistinctNames(candidates)
    ensures DistinctNames(Accepted(candidates, existingNames))
    decreases |candidates|
  {
    if candidates != [] {
      var init := candidates[..|candidates| - 1];
      var last := candidates[|candidates| - 1];
      AcceptedKeepsDistinct(init, existingNames);
      AcceptedSound(init, existingNames);
      var acc := Accepted(init, existingNames);
      forall f | f in acc ensures f.name != last.name {
        var i :| 0 <= i < |init| && init[i] == f;
        assert candidates[i] == f;
      }
    }
  }

  /**
   * The selection keeps distinct names when the prior selection and the batch
   * each have distinct names: the duplicate check covers the prior selection only.
   */
  lemma SelectionStaysDistinct(selectedFiles: seq<File>, candidates: seq<File>)
    requires DistinctNames(selectedFiles) && DistinctNames(candidates)
    ensures DistinctNames(selectedFiles + Accepted(candidates, Names(selectedFiles)))
  {
    var names := Names(selectedFiles);
    var acc := Accepted(candidates, names);
    AcceptedKeepsDistinct(candidates, names);
    AcceptedSound(candidates, names);
    var all := selectedFiles + acc;
    forall i, j | 0 <= i < j < |all| ensures all[i].name != all[j].name {
      if i < |selectedFiles| && j >= |selectedFiles| {
        assert all[j] in acc;
        assert all[i].name == names[i];
      } else if i >= |selectedFiles| {
        assert all[i] == acc[i - |selectedFiles|] && all[j] == acc[j - |selectedFiles|];
      }
    }
  }

  /**
   * Two admissible candidates with the same name in one batch are both accepted:
   * the selection can end up holding the same name twice.
   */
  lemma SameBatchDuplicatesAccepted(f: File, existingNames: seq<string>)
    requires Admissible(existingNames, f)
    ensures Accepted([f, f], existingNames) == [f, f]
    ensures !DistinctNames(Accepted([f, f], existingNames))
  {
    AcceptedAppend([f], [f], existingNames);
    AcceptedSingle(f, existingNames);
  }

  /** Where `splice(index, 1)` starts on an array of length len: negative indices count from the end. */
  function SpliceStart(index: int, len: nat): (start: nat)
    ensures start <= len
    ensures 0 <= index + len && index < len ==> start < len && start % len == index % len
    ensures index >= len ==> start == len
    ensures index + len < 0 ==> start == 0
  {
    if index < 0 then (if len + index < 0 then 0 else len + index)
    else if index > len then len
    else index
  }

  /** The list without its entry at position start, or unchanged when start is past the end. */
  function Without(s: seq<File>, start: nat): seq<File>
    requires start <= |s|
  {
    if start == |s| then s else s[..start] + s[start + 1..]
  }

  /**
   * `removeFile`: copies the selection into a fresh array, takes the entry at the
   * splice position out by shifting the rest down, and returns the shorter list.
   */
  method RemoveFile(selectedFiles: seq<File>, index: int) returns (updatedFiles: seq<File>)
    ensures updatedFiles == Without(selectedFiles, SpliceStart(index, |selectedFiles|))
  {
    var n := |selectedFiles|;
    var updated := new File[n](i requires 0 <= i < n => selectedFiles[i]);
    var start := SpliceStart(index, n);
    if start == n {
      assert updated[..] == selectedFiles;
      return updated[..];
    }
    var k := start;
    while k < n - 1
      invariant start <= k <= n - 1
      invariant forall j :: 0 <= j < start ==> updated[j] == selectedFiles[j]
      invariant forall j :: start <= j < k ==> updated[j] == selectedFiles[j + 1]
      invariant forall j :: k <= j < n ==> updated[j] == selectedFiles[j]
    {
      updated[k] := updated[k + 1];
      k := k + 1;
    }
    updatedFiles := updated[..n - 1];
    assert updatedFiles == selectedFiles[..start] + selectedFiles[start + 1..];
  }

  /**
   * Removing position i of a list of n entries leaves n - 1 entries: every other
   * entry once, in the original relative order.
   */
  lemma RemoveInRange(s: seq<File>, i: int)
    requires 0 <= i < |s|
    ensures var r := Without(s, SpliceStart(i, |s|));
      && |r| == |s| - 1
      && (forall j :: 0 <= j < |r| ==> r[j] == if j < i then s[j] else s[j + 1])
      && multiset(r) + multiset{s[i]} == multiset(s)
  {
    assert s == s[..i] + [s[i]] + s[i + 1..];
  }

  /** An index at or past the end removes nothing. */
  lemma RemovePastEnd(s: seq<File>, i: int)
    requires i >= |s|
    ensures Without(s, SpliceStart(i, |s|)) == s
  {
  }

  /** A negative index counts from the end: -1 removes the last entry. */
  lemma RemoveNegative(s: seq<File>, i: int)
    requires -|s| <= i < 0
    ensures Without(s, SpliceStart(i, |s|)) == s[..|s| + i] + s[|s| + i + 1..]
  {
  }
}
