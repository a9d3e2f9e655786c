/** Replacing a file through a sibling temp file, one filesystem operation at a time
    (crates/sentinel-cli/src/hash_bake.rs, hub.rs). Any operation may fail and the process may stop after
    any of them: `history` holds every state the disk has been in. */
module AtomicWrite {
  import opened Wrappers

  type Bytes = seq<int>

  datatype Path = Path(name: string)

  type Files = map<Path, Bytes>

  /** Both writers put the temp file beside the target, under its name and `.tmp`. */
  function Temp(target: Path): (tmp: Path)
    ensures tmp != target && tmp.name == target.name + ".tmp"
  {
    assert |target.name + ".tmp"| > |target.name|;
    Path(target.name + ".tmp")
  }

  class Disk {
    var files: Files
    var history: seq<Files>
    /** Operations that failed although the state allowed them: I/O errors, not refusals. */
    ghost var faults: nat

    constructor (files: Files)
      ensures this.files == files && history == [files] && faults == 0
    {
      this.files := files;
      history := [files];
      faults := 0;
    }

    /** `create_new`: refuses a path that exists. */
    method CreateNew(p: Path) returns (ok: bool)
      modifies this
      ensures history == old(history) + [files]
      ensures ok ==> p !in old(files) && files == old(files)[p := []] && faults == old(faults)
      ensures !ok ==> files == old(files)
      ensures !ok ==> faults == old(faults) + (if p in old(files) then 0 else 1)
    {
      ok := *;
      if p in files {
        ok := false;
      } else if ok {
        files := files[p := []];
      } else {
        faults := faults + 1;
      }
      history := history + [files];
    }

    /** A buffered write of everything up to `sofar`: some more of it reaches the file. */
    method Advance(p: Path, sofar: Bytes) returns (ok: bool)
      requires p in files && files[p] <= sofar
      modifies this
      ensures history == old(history) + [files]
      ensures exists k :: |old(files)[p]| <= k <= |sofar| && files == old(files)[p := sofar[..k]]
      ensures faults == old(faults) + (if ok then 0 else 1)
    {
      var k :| |files[p]| <= k <= |sofar|;
      files := files[p := sofar[..k]];
      history := history + [files];
      ok := *;
      if !ok { faults := faults + 1; }
    }

    /** A write that succeeds only once all of `content` is in the file. */
    method Flush(p: Path, content: Bytes) returns (ok: bool)
      requires p in files && files[p] <= content
      modifies this
      ensures |history| == |old(history)| + 2 && history[..|old(history)|] == old(history)
      ensures forall i :: |old(history)| <= i < |history| ==> OnlyTouches(old(files), history[i], p)
      ensures OnlyTouches(old(files), files, p) && p in files
      ensures ok ==> files[p] == content
      ensures faults == old(faults) + (if ok then 0 else 1)
    {
      var started := Advance(p, content);
      if started {
        files := files[p := content];
      }
      history := history + [files];
      ok := started;
    }

    method Remove(p: Path) returns (ok: bool)
      modifies this
      ensures history == old(history) + [files]
      ensures ok ==> p in old(files) && files == old(files) - {p} && faults == old(faults)
      ensures !ok ==> files == old(files)
      ensures !ok ==> faults == old(faults) + (if p in old(files) then 1 else 0)
    {
      ok := *;
      if p !in files {
        ok := false;
      } else if ok {
        files := files - {p};
      } else {
        faults := faults + 1;
      }
      history := history + [files];
    }

    /** Replaces `b` by `a` in one step, or does nothing. */
    method Rename(a: Path, b: Path) returns (ok: bool)
      requires a in files && a != b
      modifies this
      ensures history == old(history) + [files]
      ensures ok ==> files == (old(files) - {a})[b := old(files)[a]] && faults == old(faults)
      ensures !ok ==> files == old(files) && faults == old(faults) + 1
    {
      ok := *;
      if ok {
        files := (files - {a})[b := files[a]];
      } else {
        faults := faults + 1;
      }
      history := history + [files];
    }

    /** An operation that can fail and changes no file: creating the directory, syncing. */
    method Other() returns (ok: bool)
      modifies this
      ensures files == old(files) && history == old(history) + [files]
      ensures faults == old(faults) + (if ok then 0 else 1)
    {
      ok := *;
      if !ok { faults := faults + 1; }
      history := history + [files];
    }
  }

  predicate OnlyTouches(before: Files, now: Files, p: Path) {
    now - {p} == before - {p}
  }

  /** The temp file aside, nothing changed or the target holds the whole new content. */
  predicate Whole(before: Files, now: Files, target: Path, content: Bytes) {
    var tmp := Temp(target);
    now - {tmp} == before - {tmp} || now - {tmp} == (before - {tmp})[target := content]
  }

  /** Where a `hash-bake` that started from `before` can stop: a temp file already there stops it at once. */
  predicate BakeStop(before: Files, now: Files, target: Path, content: Bytes) {
    Whole(before, now, target, content) && (Temp(target) in before ==> now == before)
  }

  /** `write_atomic_pretty`: the pretty JSON, then a newline, then the rename. */
  method WriteAtomicPretty(disk: Disk, target: Path, json: Bytes, newline: Bytes) returns (ok: bool)
    modifies disk
    ensures |disk.history| >= |old(disk.history)| && disk.history[..|old(disk.history)|] == old(disk.history)
    ensures forall i :: |old(disk.history)| <= i < |disk.history| ==>
              BakeStop(old(disk.files), disk.history[i], target, json + newline)
    ensures ok ==> disk.files == (old(disk.files) - {Temp(target)})[target := json + newline]
    ensures ok ==> |disk.history| > |old(disk.history)|
    ensures ok ==> disk.history[|old(disk.history)|] == old(disk.files)[Temp(target) := []]
    ensures !ok ==> OnlyTouches(old(disk.files), disk.files, Temp(target))
    ensures Temp(target) in old(disk.files) ==> !ok && disk.files == old(disk.files)
    ensures disk.faults == old(disk.faults) ==> (ok <==> Temp(target) !in old(disk.files))
    ensures Temp(target) in disk.files ==> Temp(target) in old(disk.files) || disk.faults >= old(disk.faults) + 2
  {
    ghost var before, start := disk.files, disk.history;
    var tmp := Temp(target);
    ok := disk.CreateNew(tmp);
    assert BakeStop(before, disk.files, target, json + newline);
    if !ok {
      return;
    }
    ok := WriteReport(disk, tmp, json, newline);
    assert OnlyTouches(before, disk.files, tmp);
    if !ok {
      var _ := disk.Remove(tmp);
      return;
    }
    ok := disk.Rename(tmp, target);
    if !ok {
      var _ := disk.Remove(tmp);
    }
  }

  /** The buffered writes and the flush into the fresh temp file. */
  method WriteReport(disk: Disk, tmp: Path, json: Bytes, newline: Bytes) returns (ok: bool)
    requires tmp in disk.files && disk.files[tmp] == []
    modifies disk
    ensures |disk.history| >= |old(disk.history)| && disk.history[..|old(disk.history)|] == old(disk.history)
    ensures forall i :: |old(disk.history)| <= i < |disk.history| ==>
              OnlyTouches(old(disk.files), disk.history[i], tmp)
    ensures OnlyTouches(old(disk.files), disk.files, tmp) && tmp in disk.files
    ensures ok ==> disk.files[tmp] == json + newline
    ensures disk.faults == old(disk.faults) + (if ok then 0 else 1)
  {
    ok := disk.Advance(tmp, json);
    if ok {
      ok := disk.Advance(tmp, json + newline);
    }
    if ok {
      ok := disk.Flush(tmp, json + newline);
    }
  }

  /** `write_token`: a stale temp file is removed first, a failed run leaves its own. */
  method WriteToken(disk: Disk, target: Path, json: Bytes) returns (ok: bool)
    modifies disk
    ensures |disk.history| >= |old(disk.history)| && disk.history[..|old(disk.history)|] == old(disk.history)
    ensures forall i :: |old(disk.history)| <= i < |disk.history| ==>
              Whole(old(disk.files), disk.history[i], target, json)
    ensures ok ==> disk.files == (old(disk.files) - {Temp(target)})[target := json]
    ensures !ok ==> OnlyTouches(old(disk.files), disk.files, Temp(target))
    ensures disk.faults == old(disk.faults) ==> ok
  {
    var tmp := Temp(target);
    ok := disk.Other();
    if !ok {
      return;
    }
    ok := FillTemp(disk, tmp, json);
    if ok {
      ok := disk.Rename(tmp, target);
    }
  }

  /** A fresh temp file in place of a stale one, filled and synced. */
  method FillTemp(disk: Disk, tmp: Path, json: Bytes) returns (ok: bool)
    modifies disk
    ensures |disk.history| >= |old(disk.history)| && disk.history[..|old(disk.history)|] == old(disk.history)
    ensures forall i :: |old(disk.history)| <= i < |disk.history| ==>
              OnlyTouches(old(disk.files), disk.history[i], tmp)
    ensures OnlyTouches(old(disk.files), disk.files, tmp)
    ensures ok ==> tmp in disk.files && disk.files[tmp] == json
    ensures disk.faults >= old(disk.faults) && (disk.faults == old(disk.faults) ==> ok)
  {
    ghost var before := disk.files;
    var _ := disk.Remove(tmp);
    assert OnlyTouches(before, disk.files, tmp);
    ok := disk.CreateNew(tmp);
    assert OnlyTouches(before, disk.files, tmp);
    if ok {
      ok := disk.Flush(tmp, json);
    }
    if ok {
      ok := disk.Other();
    }
  }

  // ----- `hash-bake` around its write

  datatype Report = Report(body: Bytes, signature: Option<Bytes>, contentHash: Bytes)

  datatype Input = TooLarge | Unreadable | Malformed | Parsed(report: Report)

  const EXIT_OK := 0
  const EXIT_REFUSED := 1
  const EXIT_INPUT_ERROR := 3

  /** `cmd_hash_bake`. Hashing (which can fail) and printing are the library's. */
  method CmdHashBake(disk: Disk, input: Input, allowSigned: bool, target: Path, newline: Bytes,
                     hash: Report -> Option<Bytes>, pretty: Report -> Bytes) returns (code: int)
    modifies disk
    ensures code == EXIT_OK ==> input.Parsed? && hash(input.report).Some?
    ensures code == EXIT_OK ==>
              disk.files == (old(disk.files) - {Temp(target)})[target :=
                pretty(input.report.(contentHash := hash(input.report).value)) + newline]
    ensures (&& input.Parsed? && (input.report.signature.None? || allowSigned) && hash(input.report).Some?
             && Temp(target) !in old(disk.files) && disk.faults == old(disk.faults)) ==>
              code == EXIT_OK
    ensures code != EXIT_OK ==> OnlyTouches(old(disk.files), disk.files, Temp(target))
    ensures code == EXIT_REFUSED <==> input.Parsed? && input.report.signature.Some? && !allowSigned
    ensures code == EXIT_REFUSED || !input.Parsed? ==>
              disk.history == old(disk.history) && disk.files == old(disk.files)
    ensures code in {0, 1, 3}
  {
    match input {
      case TooLarge => return EXIT_INPUT_ERROR;
      case Unreadable => return EXIT_INPUT_ERROR;
      case Malformed => return EXIT_INPUT_ERROR;
      case Parsed(read) =>
        var report := read;
        if report.signature.Some? && !allowSigned {
          return EXIT_REFUSED;
        }
        var baked := hash(report);
        if baked.None? {
          return EXIT_INPUT_ERROR;
        }
        report := report.(contentHash := baked.value);
        var ok := WriteAtomicPretty(disk, target, pretty(report), newline);
        return if ok then EXIT_OK else EXIT_INPUT_ERROR;
    }
  }

  // ----- any number of runs, each stopped wherever it was

  /** One run of either writer on one target. */
  datatype Job = Bake(json: Bytes, newline: Bytes) | Token(json: Bytes)

  function Content(job: Job): Bytes {
    match job
    case Bake(json, newline) => json + newline
    case Token(json) => json
  }

  /** A run that ends, or is killed in any state it goes through. */
  method RunJob(before: Files, target: Path, job: Job) returns (stop: Files)
    ensures Whole(before, stop, target, Content(job))
    ensures job.Bake? ==> BakeStop(before, stop, target, Content(job))
  {
    var disk := new Disk(before);
    match job {
      case Bake(json, newline) => var _ := WriteAtomicPretty(disk, target, json, newline);
      case Token(json) => var _ := WriteToken(disk, target, json);
    }
    assert disk.history[..1] == [before];
    assert disk.history[0] == before;
    var k: nat :| k < |disk.history|;
    stop := disk.history[k];
  }

  function Held(fs: Files, p: Path): Option<Bytes> {
    if p in fs then Some(fs[p]) else None
  }

  /** `fs` holds the disk before the first run and after each. */
  ghost predicate Stops(fs: seq<Files>, jobs: seq<Job>, target: Path) {
    && |fs| == |jobs| + 1
    && (forall i :: 0 <= i < |jobs| ==> Whole(fs[i], fs[i + 1], target, Content(jobs[i])))
    && (forall i :: 0 <= i < |jobs| && jobs[i].Bake? ==> BakeStop(fs[i], fs[i + 1], target, Content(jobs[i])))
  }

  /** Runs one after the other, each stopped anywhere. */
  method RunJobs(files: Files, target: Path, jobs: seq<Job>) returns (fs: seq<Files>)
    ensures Stops(fs, jobs, target) && fs[0] == files
  {
    fs := [files];
    for i := 0 to |jobs|
      invariant Stops(fs, jobs[..i], target) && fs[0] == files
    {
      var stop := RunJob(fs[i], target, jobs[i]);
      fs := fs + [stop];
    }
    assert jobs[..|jobs|] == jobs;
  }

  /** The run whose rename was the last to happen, if any. */
  function LastCommit(fs: seq<Files>, jobs: seq<Job>, target: Path): (run: Option<nat>)
    requires |fs| == |jobs| + 1
    ensures run.Some? ==> run.value < |jobs|
    decreases |jobs|
  {
    if jobs == [] then None
    else
      var n := |jobs| - 1;
      var tmp := Temp(target);
      if fs[n + 1] - {tmp} == fs[n] - {tmp} then LastCommit(fs[..n + 1], jobs[..n], target) else Some(n)
  }

  /** After runs that each ended or stopped anywhere, the target holds whole what the last renaming run wrote,
      or what it held at first; no other file but the temp has changed. */
  lemma {:induction false} TargetIsNeverTorn(fs: seq<Files>, jobs: seq<Job>, target: Path)
    requires Stops(fs, jobs, target)
    ensures Held(fs[|jobs|], target)
         == match LastCommit(fs, jobs, target) case Some(j) => Some(Content(jobs[j])) case None => Held(fs[0], target)
    ensures forall p :: p != target && p != Temp(target) ==> Held(fs[|jobs|], p) == Held(fs[0], p)
    decreases |jobs|
  {
    if jobs != [] {
      var n := |jobs| - 1;
      TargetIsNeverTorn(fs[..n + 1], jobs[..n], target);
      assert Whole(fs[n], fs[n + 1], target, Content(jobs[n]));
      HeldOutsideTemp(fs[n], fs[n + 1], target, Content(jobs[n]));
    }
  }

  lemma HeldOutsideTemp(before: Files, now: Files, target: Path, content: Bytes)
    requires Whole(before, now, target, content)
    ensures forall p :: p != target && p != Temp(target) ==> Held(now, p) == Held(before, p)
    ensures now - {Temp(target)} == before - {Temp(target)} ==> Held(now, target) == Held(before, target)
    ensures now - {Temp(target)} != before - {Temp(target)} ==> Held(now, target) == Some(content)
  {
    var tmp := Temp(target);
    forall p | p != tmp
      ensures Held(now, p) == Held(now - {tmp}, p) && Held(before, p) == Held(before - {tmp}, p)
    {
    }
  }

  /** A kill can leave the temp file, with any part of the report in it, beside the old target. */
  lemma KilledBakeLeavesTemp(before: Files, target: Path, content: Bytes, part: Bytes)
    requires Temp(target) !in before
    ensures BakeStop(before, before[Temp(target) := part], target, content)
    ensures Temp(target) in before[Temp(target) := part]
    ensures Held(before[Temp(target) := part], target) == Held(before, target)
  {
    assert before[Temp(target) := part] - {Temp(target)} == before - {Temp(target)};
  }

  /** A `hash-bake` killed while its temp file existed blocks every later one: nothing changes until somebody
      removes the temp file. (A fault-free `WriteToken` succeeds from any disk.) */
  lemma {:induction false} StaleTempFreezesBaking(fs: seq<Files>, jobs: seq<Job>, target: Path, i: nat, j: nat)
    requires Stops(fs, jobs, target) && i <= j < |fs|
    requires forall k :: i <= k < j ==> jobs[k].Bake?
    requires Temp(target) in fs[i]
    ensures fs[j] == fs[i]
    decreases j
  {
    if i < j {
      StaleTempFreezesBaking(fs, jobs, target, i, j - 1);
      assert BakeStop(fs[j - 1], fs[j], target, Content(jobs[j - 1]));
    }
  }
}
