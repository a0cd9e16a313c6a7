/**
  Writing a report as a Markdown and a JSON file: both are created or neither, whatever fails,
  except for files that refuse to be removed again.
 */
module ReportPair {
  import opened Wrappers

  /** The files of the numbered attempts, and all others in the directory. */
  datatype Path = Markdown(attempt: nat) | Json(attempt: nat) | Elsewhere(name: string)

  type Files = map<Path, string>

  /** Which file operation fails, by number; a failed write leaves part of the text. */
  datatype Faults = Faults(fails: nat -> bool, partial: nat -> string)

  datatype Error = DirectoryFailed | CreateFailed | WriteFailed | TooManyConflicts

  /** `stuck` is history: the files whose removal failed. */
  datatype Disk = Disk(files: Files, step: nat, stuck: set<Path>) {

    function Put(path: Path, text: string): Disk {
      Disk(files[path := text], step + 1, stuck)
    }

    function Skip(): Disk {
      Disk(files, step + 1, stuck)
    }

    function Remove(path: Path, faults: Faults): Disk {
      if faults.fails(step) then Disk(files, step + 1, stuck + {path}) else Disk(files - {path}, step + 1, stuck)
    }
  }

  datatype Outcome = Outcome(disk: Disk, result: Result<nat, Error>)

  const ATTEMPTS := 100

  datatype Report = Report(markdown: string, json: string)

  /** Both files of the attempt exist and are empty: write them, or take them away again. */
  function Fill(n: nat, d: Disk, report: Report, faults: Faults): Outcome {
    if faults.fails(d.step) then
      var bad := d.Put(Markdown(n), faults.partial(d.step));
      Outcome(bad.Remove(Markdown(n), faults).Remove(Json(n), faults), Err(WriteFailed))
    else
      var half := d.Put(Markdown(n), report.markdown);
      if faults.fails(half.step) then
        var bad := half.Put(Json(n), faults.partial(half.step));
        Outcome(bad.Remove(Markdown(n), faults).Remove(Json(n), faults), Err(WriteFailed))
      else Outcome(half.Put(Json(n), report.json), Ok(n))
  }

  /** The attempts from number `n` on. */
  function WriteFrom(n: nat, d: Disk, report: Report, faults: Faults): Outcome
    decreases ATTEMPTS - n, d
  {
    if n >= ATTEMPTS then Outcome(d, Err(TooManyConflicts))
    else if Markdown(n) in d.files then WriteFrom(n + 1, d.Skip(), report, faults)
    else if faults.fails(d.step) then Outcome(d.Skip(), Err(CreateFailed))
    else
      var made := d.Put(Markdown(n), "");
      if Json(n) in d.files then WriteFrom(n + 1, made.Skip().Remove(Markdown(n), faults), report, faults)
      else if faults.fails(made.step) then Outcome(made.Skip().Remove(Markdown(n), faults), Err(CreateFailed))
      else Fill(n, made.Put(Json(n), ""), report, faults)
  }

  /** The directory is created first, if need be. */
  function WriteReport(d: Disk, report: Report, faults: Faults): Outcome {
    if faults.fails(d.step) then Outcome(d.Skip(), Err(DirectoryFailed)) else WriteFrom(0, d.Skip(), report, faults)
  }

  class Directory {
    var files: Files
    var step: nat
    ghost var stuck: set<Path>

    ghost function View(): Disk
      reads this
    {
      Disk(files, step, stuck)
    }

    method Put(path: Path, text: string)
      modifies `files, `step
      ensures View() == old(View()).Put(path, text)
    {
      files, step := files[path := text], step + 1;
    }

    method Remove(path: Path, faults: Faults)
      modifies this
      ensures View() == old(View()).Remove(path, faults)
    {
      if faults.fails(step) {
        stuck := stuck + {path};
      } else {
        files := files - {path};
      }
      step := step + 1;
    }

    method RemoveBoth(n: nat, faults: Faults)
      modifies this
      ensures View() == old(View()).Remove(Markdown(n), faults).Remove(Json(n), faults)
    {
      Remove(Markdown(n), faults);
      Remove(Json(n), faults);
    }

    method FillPair(n: nat, report: Report, faults: Faults) returns (result: Result<nat, Error>)
      modifies this
      ensures Outcome(View(), result) == Fill(n, old(View()), report, faults)
    {
      if faults.fails(step) {
        Put(Markdown(n), faults.partial(step));
        RemoveBoth(n, faults);
        return Err(WriteFailed);
      }
      Put(Markdown(n), report.markdown);
      if faults.fails(step) {
        Put(Json(n), faults.partial(step));
        RemoveBoth(n, faults);
        return Err(WriteFailed);
      }
      Put(Json(n), report.json);
      return Ok(n);
    }

    method WriteReportPair(report: Report, faults: Faults) returns (result: Result<nat, Error>)
      modifies this
      ensures Outcome(View(), result) == WriteReport(old(View()), report, faults)
    {
      step := step + 1;
      if faults.fails(step - 1) { return Err(DirectoryFailed); }
      result := WriteAttempts(report, faults);
    }

    method WriteAttempts(report: Report, faults: Faults) returns (result: Result<nat, Error>)
      modifies this
      ensures Outcome(View(), result) == WriteFrom(0, old(View()), report, faults)
    {
      for n := 0 to ATTEMPTS
        invariant WriteFrom(n, View(), report, faults) == WriteFrom(0, old(View()), report, faults)
      {
        if Markdown(n) in files {
          step := step + 1;
          continue;
        }
        if faults.fails(step) {
          step := step + 1;
          return Err(CreateFailed);
        }
        var jsonExists := Json(n) in files;
        Put(Markdown(n), "");
        if jsonExists {
          step := step + 1;
          Remove(Markdown(n), faults);
          continue;
        }
        if faults.fails(step) {
          step := step + 1;
          Remove(Markdown(n), faults);
          return Err(CreateFailed);
        }
        Put(Json(n), "");
        result := FillPair(n, report, faults);
        return;
      }
      return Err(TooManyConflicts);
    }
  }

  // ---------- both or neither ----------

  /** What was there stays as it was; what is new is `added` or stuck. */
  ghost predicate OnlyAdds(before: Files, d: Disk, added: set<Path>) {
    && (forall p :: p in before ==> p in d.files && d.files[p] == before[p])
    && (forall p :: p in d.files ==> p in before || p in added || p in d.stuck)
    && (forall p :: p in d.stuck ==> p !in before && p in d.files)
    && d.stuck !! added
  }

  function Pair(n: nat): set<Path> {
    {Markdown(n), Json(n)}
  }

  /** The stuck files are of attempts already made. */
  ghost predicate StuckBelow(d: Disk, n: nat) {
    forall p :: p in d.stuck ==> !p.Elsewhere? && p.attempt < n
  }

  /**
    On success exactly the two files are new, with the report in them, under names that were
    free; on failure nothing is new. Files that were there are never touched, and the only other
    files left behind are those whose removal failed.
   */
  ghost predicate BothOrNeither(before: Files, o: Outcome, report: Report) {
    match o.result
    case Ok(n) =>
      && OnlyAdds(before, o.disk, Pair(n))
      && Markdown(n) !in before && Json(n) !in before
      && Markdown(n) in o.disk.files && o.disk.files[Markdown(n)] == report.markdown
      && Json(n) in o.disk.files && o.disk.files[Json(n)] == report.json
    case Err(_) => OnlyAdds(before, o.disk, {})
  }

  lemma RemovedKeeps(before: Files, d: Disk, path: Path, rest: set<Path>, faults: Faults)
    requires OnlyAdds(before, d, rest + {path}) && path !in before && path !in rest && path in d.files
    ensures OnlyAdds(before, d.Remove(path, faults), rest)
  {
  }

  lemma PutKeeps(before: Files, d: Disk, path: Path, text: string, added: set<Path>)
    requires OnlyAdds(before, d, added) && path !in before && path !in d.stuck
    ensures OnlyAdds(before, d.Put(path, text), added + {path})
  {
  }

  lemma BothRemoved(before: Files, d: Disk, n: nat, faults: Faults)
    requires OnlyAdds(before, d, Pair(n)) && Markdown(n) !in before && Json(n) !in before
    requires Markdown(n) in d.files && Json(n) in d.files
    ensures OnlyAdds(before, d.Remove(Markdown(n), faults).Remove(Json(n), faults), {})
  {
  }

  lemma FillIsBothOrNeither(before: Files, n: nat, d: Disk, report: Report, faults: Faults)
    requires OnlyAdds(before, d, Pair(n)) && Markdown(n) !in before && Json(n) !in before
    requires Markdown(n) in d.files && Json(n) in d.files
    ensures BothOrNeither(before, Fill(n, d, report, faults), report)
  {
    PutKeeps(before, d, Markdown(n), faults.partial(d.step), Pair(n));
    PutKeeps(before, d, Markdown(n), report.markdown, Pair(n));
    assert Pair(n) + {Markdown(n)} == Pair(n) && Pair(n) + {Json(n)} == Pair(n);
    var half := d.Put(Markdown(n), report.markdown);
    PutKeeps(before, half, Json(n), faults.partial(half.step), Pair(n));
    PutKeeps(before, half, Json(n), report.json, Pair(n));
    if faults.fails(d.step) {
      BothRemoved(before, d.Put(Markdown(n), faults.partial(d.step)), n, faults);
    } else if faults.fails(half.step) {
      BothRemoved(before, half.Put(Json(n), faults.partial(half.step)), n, faults);
    }
  }

  lemma {:induction false} WriteIsBothOrNeither(before: Files, n: nat, d: Disk, report: Report, faults: Faults)
    requires OnlyAdds(before, d, {}) && StuckBelow(d, n)
    ensures BothOrNeither(before, WriteFrom(n, d, report, faults), report)
    decreases ATTEMPTS - n
  {
    if n >= ATTEMPTS {
    } else if Markdown(n) in d.files {
      WriteIsBothOrNeither(before, n + 1, d.Skip(), report, faults);
    } else if !faults.fails(d.step) {
      var made := d.Put(Markdown(n), "");
      PutKeeps(before, d, Markdown(n), "", {});
      assert {} + {Markdown(n)} == {Markdown(n)};
      if Json(n) in d.files || faults.fails(made.step) {
        RemovedKeeps(before, made.Skip(), Markdown(n), {}, faults);
        if Json(n) in d.files {
          WriteIsBothOrNeither(before, n + 1, made.Skip().Remove(Markdown(n), faults), report, faults);
        }
      } else {
        PutKeeps(before, made, Json(n), "", {Markdown(n)});
        assert {Markdown(n)} + {Json(n)} == Pair(n);
        FillIsBothOrNeither(before, n, made.Put(Json(n), ""), report, faults);
      }
    }
  }

  lemma StuckIsWhatIsLeft(before: Files, o: Outcome, report: Report)
    requires BothOrNeither(before, o, report)
    ensures var d := o.disk;
            && (o.result.Err? ==> (d.files == before <==> d.stuck == {}))
            && (o.result.Ok? ==> (d.files.Keys == before.Keys + Pair(o.result.value) <==> d.stuck == {}))
  {
    if o.disk.stuck != {} {
      var p :| p in o.disk.stuck;
      assert p in o.disk.files && p !in before;
    } else if o.result.Err? {
      assert o.disk.files.Keys == before.Keys;
    }
  }

  lemma ReportIsBothOrNeither(d: Disk, report: Report, faults: Faults)
    requires d.stuck == {}
    ensures BothOrNeither(d.files, WriteReport(d, report, faults), report)
  {
    WriteIsBothOrNeither(d.files, 0, d.Skip(), report, faults);
  }

  /** From any directory and under any faults; and nothing is left behind exactly when no removal fails. */
  lemma PairIsAtomic(files: Files, step: nat, report: Report, faults: Faults)
    ensures var o := WriteReport(Disk(files, step, {}), report, faults);
            && BothOrNeither(files, o, report)
            && (o.result.Err? ==> (o.disk.files == files <==> o.disk.stuck == {}))
            && (o.result.Ok? ==> (o.disk.files.Keys == files.Keys + Pair(o.result.value) <==> o.disk.stuck == {}))
  {
    ReportIsBothOrNeither(Disk(files, step, {}), report, faults);
    StuckIsWhatIsLeft(files, WriteReport(Disk(files, step, {}), report, faults), report);
  }

  // ---------- which attempt it is, and why there may be none ----------

  predicate Taken(files: Files, n: nat) {
    Markdown(n) in files || Json(n) in files
  }

  /** Nothing of the attempts from `n` on has been touched. */
  ghost predicate Untouched(files: Files, d: Disk, n: nat) {
    forall m :: m >= n ==>
                  && (Markdown(m) in d.files <==> Markdown(m) in files)
                  && (Json(m) in d.files <==> Json(m) in files)
  }

  /** The attempt that succeeds is the first whose names are free; none does when all are taken or something fails. */
  ghost predicate FirstFree(files: Files, n: nat, o: Outcome, somethingFails: bool) {
    match o.result
    case Ok(k) => n <= k < 100 && !Taken(files, k) && forall m :: n <= m < k ==> Taken(files, m)
    case Err(TooManyConflicts) => forall m :: n <= m < 100 ==> Taken(files, m)
    case Err(_) => somethingFails
  }

  ghost predicate FailsFrom(faults: Faults, step: nat) {
    exists i :: i >= step && faults.fails(i)
  }

  lemma FillSucceeds(n: nat, d: Disk, report: Report, faults: Faults)
    ensures Fill(n, d, report, faults).result.Err? ==> FailsFrom(faults, d.step)
    ensures Fill(n, d, report, faults).result.Ok? ==> Fill(n, d, report, faults).result.value == n
  {
  }

  lemma FailsEarlier(faults: Faults, step: nat, later: nat)
    requires step <= later
    ensures FailsFrom(faults, later) ==> FailsFrom(faults, step)
  {
  }

  lemma {:induction false} WriteFindsFirstFree(files: Files, n: nat, d: Disk, report: Report, faults: Faults)
    requires Untouched(files, d, n) && n <= ATTEMPTS
    ensures FirstFree(files, n, WriteFrom(n, d, report, faults), FailsFrom(faults, d.step))
    decreases ATTEMPTS - n
  {
    if n < ATTEMPTS && Markdown(n) in d.files {
      WriteFindsFirstFree(files, n + 1, d.Skip(), report, faults);
      FailsEarlier(faults, d.step, d.step + 1);
    } else if n < ATTEMPTS && !faults.fails(d.step) {
      var made := d.Put(Markdown(n), "");
      if Json(n) in d.files {
        var next := made.Skip().Remove(Markdown(n), faults);
        WriteFindsFirstFree(files, n + 1, next, report, faults);
        FailsEarlier(faults, d.step, next.step);
      } else if !faults.fails(made.step) {
        FillSucceeds(n, made.Put(Json(n), ""), report, faults);
        FailsEarlier(faults, d.step, made.Put(Json(n), "").step);
      }
    }
  }

  /**
    From any directory and under any faults: on success the pair has the first of a hundred names of
    which both are free; there are too many conflicts only if none of these is; and any other failure
    has a fault of the directory behind it, so without faults there is none.
   */
  lemma FirstFreeNameIsUsed(files: Files, step: nat, report: Report, faults: Faults)
    ensures FirstFree(files, 0, WriteReport(Disk(files, step, {}), report, faults), FailsFrom(faults, step))
  {
    if !faults.fails(step) {
      WriteFindsFirstFree(files, 0, Disk(files, step + 1, {}), report, faults);
      FailsEarlier(faults, step, step + 1);
    }
  }
}
