/**
 * The choice of the consumption file: among the files matching `downloads/consumption*.csv`,
 * the one modified last, as `max(files, key=os.path.getmtime)` picks it. The directory
 * listing and the modification times are inputs here.
 */
module Selector {
  import opened Wrappers

  /** An empty listing raises `FileNotFoundError` (data_processing.py:116-117) before `max` is called. */
  datatype SelectError = NoConsumptionFile

  /** A matching file and its modification time. */
  datatype Candidate = Candidate(path: string, mtime: real)

  /** `k` is the position `max` returns: no file is newer, and every file before it is strictly older. */
  predicate IsNewest(files: seq<Candidate>, k: nat) {
    k < |files|
    && (forall j :: 0 <= j < |files| ==> files[j].mtime <= files[k].mtime)
    && (forall j :: 0 <= j < k ==> files[j].mtime < files[k].mtime)
  }

  /** There is only one such position, so the choice does not depend on how ties are broken. */
  lemma NewestUnique(files: seq<Candidate>, k: nat, m: nat)
    requires IsNewest(files, k) && IsNewest(files, m)
    ensures k == m
  {
    assert files[k].mtime <= files[m].mtime && files[m].mtime <= files[k].mtime;
  }

  /** The empty listing raises `FileNotFoundError`; otherwise the first newest file is chosen. */
  method NewestFile(files: seq<Candidate>) returns (r: Result<string, SelectError>)
    ensures files == [] ==> r == Failure(NoConsumptionFile)
    ensures files != [] ==> r.Success? && exists k: nat :: IsNewest(files, k) && r.value == files[k].path
  {
    if |files| == 0 {
      return Failure(NoConsumptionFile);
    }
    var best := 0;
    for i := 1 to |files|
      invariant best < i
      invariant forall j :: 0 <= j < i ==> files[j].mtime <= files[best].mtime
      invariant forall j :: 0 <= j < best ==> files[j].mtime < files[best].mtime
    {
      if files[i].mtime > files[best].mtime {
        best := i;
      }
    }
    assert IsNewest(files, best);
    return Success(files[best].path);
  }
}
