/** `checkTask`: the functional images of a session are renamed
    `<sub>_<ses>_task-<label>_bold<ext>`. A first pass over the sorted folder
    listing builds two dictionaries, one for resting-state scans and one for
    task scans, from a scan key (the second `_`-separated field of the name)
    to a label; a second pass renames every file by its key's label. */
module TaskLabels {
  import opened Wrappers
  import opened PyStr
  import opened PyReplace
  import opened PyInt
  import opened PyPath
  import opened Naming
  import opened SeqFacts

  /** Why the first pass stops: a task file has no `bold` in its name, or a
      file has no second `_`-separated field (both an IndexError). */
  datatype TaskError = NoBoldField(file: string) | NoScanField(file: string)

  /** The dictionaries `task['rest']` and `task['task']`. */
  datatype Labels = Labels(rest: map<string, string>, task: map<string, string>)

  const NoLabels := Labels(map[], map[])

  /** `f.find('rest') != -1`: the file is a resting-state scan. */
  predicate IsRest(f: string) {
    Find(f, "rest") != -1
  }

  /** `f.split('_')[1]`: the scan key, or None where Python raises. */
  function ScanKey(f: string): (r: Option<string>)
    ensures r.Some? <==> Contains(f, "_")
    ensures r.Some? ==> '_' !in r.value
  {
    var r := SecondField(f, "_");
    if r.Some? then
      ContainsChar(r.value, '_');
      r
    else r
  }

  /** `f.split('bold')[1].split('.')[0]` with every `(MB4iPAT2)`, `task`, `_`
      and `-` deleted, in that order; None where there is no `bold`. */
  function RunText(f: string): (r: Option<string>)
    ensures r.Some? <==> Contains(f, "bold")
  {
    match SecondField(f, "bold")
    case None => None
    case Some(after) =>
      var stem := BeforeFirst(after, ".");
      Some(Replace(Replace(Replace(Replace(stem, "(MB4iPAT2)", ""), "task", ""), "_", ""), "-", ""))
  }

  /** What the first pass reads from one file name. */
  datatype Scan = Scan(file: string, rest: bool, run: Option<string>, key: Option<string>)

  function ReadScan(f: string): Scan {
    Scan(f, IsRest(f), RunText(f), ScanKey(f))
  }

  function Scans(fs: seq<string>): (ss: seq<Scan>)
    ensures |ss| == |fs|
  {
    seq(|fs|, i requires 0 <= i < |fs| => ReadScan(fs[i]))
  }

  /** `kind + str(len(m))`: the numbered label a key gets from the size the
      dictionary has before the key is stored. */
  function Counter(kind: string, m: map<string, string>): string {
    kind + NatToString(|m|)
  }

  /** One iteration of the first pass, as written: a resting-state key is
      (re)labelled with the current count; a task key with its run text, or
      with the current count when the run text is empty. The run text is read
      before the key, so a task file lacking both fails on `bold`. */
  function Step(l: Labels, s: Scan): Result<Labels, TaskError> {
    if s.rest then
      match s.key
      case None => Err(NoScanField(s.file))
      case Some(k) => Ok(l.(rest := l.rest[k := Counter("rest", l.rest)]))
    else
      match s.run
      case None => Err(NoBoldField(s.file))
      case Some(run) =>
        match s.key
        case None => Err(NoScanField(s.file))
        case Some(k) => Ok(l.(task := l.task[k := if run == "" then Counter("task", l.task) else run]))
  }

  /** The first pass over the scans, from empty dictionaries. */
  function Pass(ss: seq<Scan>): Result<Labels, TaskError>
    decreases |ss|
  {
    if ss == [] then Ok(NoLabels)
    else
      match Pass(ss[..|ss| - 1])
      case Err(e) => Err(e)
      case Ok(l) => Step(l, ss[|ss| - 1])
  }

  function LabelsOf(fs: seq<string>): Result<Labels, TaskError> {
    Pass(Scans(fs))
  }

  /** `task[kind][f.split('_')[1]]`: the label of a scan, where `kind` is
      `rest` for a resting-state scan and `task` otherwise; None where Python
      would raise. */
  function Lookup(l: Labels, s: Scan): Option<string> {
    match s.key
    case None => None
    case Some(k) =>
      var m := if s.rest then l.rest else l.task;
      if k in m then Some(m[k]) else None
  }

  /** Every scan has a label in `l`. */
  predicate Covers(l: Labels, ss: seq<Scan>) {
    forall i :: 0 <= i < |ss| ==> Lookup(l, ss[i]).Some?
  }

  /** `<sub>_<ses>_task-<label>_bold<ext>`. */
  function TaskName(sub: string, ses: string, scanLabel: string, ext: string): string {
    EntityName(sub, ses, "task", scanLabel, "bold", ext)
  }

  /** The renames of the second pass. */
  function TaskRenames(sorted: seq<string>, l: Labels, sub: string, ses: string): (rs: seq<Rename>)
    requires Covers(l, Scans(sorted))
    ensures |rs| == |sorted|
  {
    seq(|sorted|, i requires 0 <= i < |sorted| =>
      assert Scans(sorted)[i] == ReadScan(sorted[i]);
      Rename(sorted[i], TaskName(sub, ses, Lookup(l, ReadScan(sorted[i])).value, NiftiExt(sorted[i]))))
  }

  /** The renames `checkTask` performs on the folder listing `files`, in
      order, or the error that stops its first pass before any rename. */
  function TaskPlan(files: seq<string>, sub: string, ses: string): Result<seq<Rename>, TaskError> {
    var sorted := SortNames(files);
    match LabelsOf(sorted)
    case Err(e) => Err(e)
    case Ok(l) =>
      PassCovers(Scans(sorted));
      Ok(TaskRenames(sorted, l, sub, ses))
  }

  // ---- the method ----

  /** The first loop of `checkTask`. */
  method ReadLabels(sorted: seq<string>) returns (r: Result<Labels, TaskError>)
    ensures r == LabelsOf(sorted)
  {
    ghost var ss := Scans(sorted);
    var rest: map<string, string> := map[];
    var task: map<string, string> := map[];
    var i := 0;
    while i < |sorted|
      invariant 0 <= i <= |sorted|
      invariant Pass(ss[..i]) == Ok(Labels(rest, task))
    {
      var f := sorted[i];
      TakeSnoc(ss, i);
      TakeTake(ss, i, i + 1);
      ghost var next := Step(Labels(rest, task), ss[i]);
      assert ss[i] == ReadScan(f);
      assert Pass(ss[..i + 1]) == next;
      if Find(f, "rest") != -1 {
        var key := SecondField(f, "_");
        if key.None? {
          PassStops(ss, i + 1);
          return Err(NoScanField(f));
        }
        rest := rest[key.value := "rest" + NatToString(|rest|)];
      } else {
        var bold := SecondField(f, "bold");
        if bold.None? {
          PassStops(ss, i + 1);
          return Err(NoBoldField(f));
        }
        var run := Replace(Replace(Replace(Replace(BeforeFirst(bold.value, "."), "(MB4iPAT2)", ""), "task", ""), "_", ""), "-", "");
        var key := SecondField(f, "_");
        if key.None? {
          PassStops(ss, i + 1);
          return Err(NoScanField(f));
        }
        if run == "" {
          task := task[key.value := "task" + NatToString(|task|)];
        } else {
          task := task[key.value := run];
        }
      }
      assert next == Ok(Labels(rest, task));
      i := i + 1;
    }
    TakeAll(ss);
    return Ok(Labels(rest, task));
  }

  /** What the second loop computes for the file at index `i`. */
  lemma {:induction false} RenameAt(sorted: seq<string>, l: Labels, sub: string, ses: string, i: nat)
    requires Covers(l, Scans(sorted)) && i < |sorted|
    ensures var f := sorted[i];
      var kind := if Find(f, "rest") != -1 then l.rest else l.task;
      SecondField(f, "_").Some? && SecondField(f, "_").value in kind &&
      TaskRenames(sorted, l, sub, ses)[i] ==
        Rename(f, TaskName(sub, ses, kind[SecondField(f, "_").value], CheckGz(SplitExt(f))))
  {
    assert Scans(sorted)[i] == ReadScan(sorted[i]);
  }

  /** The second loop of `checkTask`. */
  method RenameTasks(sorted: seq<string>, l: Labels, sub: string, ses: string) returns (renames: seq<Rename>)
    requires Covers(l, Scans(sorted))
    ensures renames == TaskRenames(sorted, l, sub, ses)
  {
    ghost var all := TaskRenames(sorted, l, sub, ses);
    renames := [];
    var i := 0;
    while i < |sorted|
      invariant 0 <= i <= |sorted|
      invariant renames == all[..i]
    {
      var f := sorted[i];
      RenameAt(sorted, l, sub, ses, i);
      var ext := CheckGz(SplitExt(f));
      var kind := if Find(f, "rest") != -1 then l.rest else l.task;
      var scanLabel := kind[SecondField(f, "_").value];
      TakeSnoc(all, i);
      renames := renames + [Rename(f, TaskName(sub, ses, scanLabel, ext))];
      i := i + 1;
    }
    TakeAll(all);
  }

  /** `checkTask`: sort the listing, label the scan keys, then rename every
      file. */
  method CheckTask(files: seq<string>, sub: string, ses: string) returns (r: Result<seq<Rename>, TaskError>)
    ensures r == TaskPlan(files, sub, ses)
  {
    var sorted := SortNames(files);
    var read := ReadLabels(sorted);
    if read.Err? {
      return Err(read.error);
    }
    PassCovers(Scans(sorted));
    var renames := RenameTasks(sorted, read.value, sub, ses);
    return Ok(renames);
  }

  // ---- when the first pass stops ----

  /** Once a scan stops the first pass, later scans change nothing. */
  lemma {:induction false} PassStops(ss: seq<Scan>, n: nat)
    requires n <= |ss| && Pass(ss[..n]).Err?
    ensures Pass(ss) == Pass(ss[..n])
    decreases |ss| - n
  {
    if n < |ss| {
      TakeSnoc(ss, n);
      TakeTake(ss, n, n + 1);
      PassStops(ss, n + 1);
    } else {
      TakeAll(ss);
    }
  }

  /** The error one scan stops the pass with, whatever the dictionaries hold. */
  function ScanError(s: Scan): Option<TaskError> {
    if s.rest then (if s.key.None? then Some(NoScanField(s.file)) else None)
    else if s.run.None? then Some(NoBoldField(s.file))
    else if s.key.None? then Some(NoScanField(s.file))
    else None
  }

  lemma {:induction false} StepFails(l: Labels, s: Scan)
    ensures Step(l, s).Err? <==> ScanError(s).Some?
    ensures Step(l, s).Err? ==> Step(l, s).error == ScanError(s).value
  {
  }

  /** The first pass stops exactly when some scan is unreadable, and then
      with the error of the first such scan. */
  lemma {:induction false} PassFailsIff(ss: seq<Scan>)
    ensures Pass(ss).Err? <==> exists i :: 0 <= i < |ss| && ScanError(ss[i]).Some?
    ensures Pass(ss).Err? ==> exists i :: (0 <= i < |ss| && ScanError(ss[i]) == Some(Pass(ss).error) &&
      forall j :: 0 <= j < i ==> ScanError(ss[j]).None?)
    decreases |ss|
  {
    if ss != [] {
      var init := ss[..|ss| - 1];
      PassFailsIff(init);
      assert forall j :: 0 <= j < |init| ==> init[j] == ss[j];
      if Pass(init).Ok? {
        StepFails(Pass(init).value, ss[|ss| - 1]);
      }
    }
  }

  /** A file stops the first pass exactly when it is a resting-state file
      without `_`, or another file without `bold` or without `_`. */
  predicate Unreadable(f: string) {
    if IsRest(f) then !Contains(f, "_") else !Contains(f, "bold") || !Contains(f, "_")
  }

  lemma {:induction false} ScanErrorOf(f: string)
    ensures ScanError(ReadScan(f)).Some? <==> Unreadable(f)
    ensures Unreadable(f) ==>
      ScanError(ReadScan(f)).value == (if !IsRest(f) && !Contains(f, "bold") then NoBoldField(f) else NoScanField(f))
  {
  }

  /** `checkTask` renames nothing exactly when some file of the folder is
      unreadable. */
  lemma {:induction false} TaskPlanFailsIff(files: seq<string>, sub: string, ses: string)
    ensures TaskPlan(files, sub, ses).Err? <==> exists f :: f in files && Unreadable(f)
  {
    var sorted := SortNames(files);
    var ss := Scans(sorted);
    PassFailsIff(ss);
    SortNamesMembers(files);
    if Pass(ss).Err? {
      var i :| 0 <= i < |ss| && ScanError(ss[i]).Some?;
      ScanErrorOf(sorted[i]);
      assert sorted[i] in files;
    } else {
      forall f | f in files ensures !Unreadable(f) {
        var i :| 0 <= i < |sorted| && sorted[i] == f;
        assert ss[i] == ReadScan(f);
        ScanErrorOf(f);
      }
    }
  }

  // ---- every file is labelled ----

  /** Every file of the folder is renamed once, as long as the first pass
      does not stop. */
  lemma {:induction false} TaskRenamesEveryFile(files: seq<string>, sub: string, ses: string)
    requires TaskPlan(files, sub, ses).Ok?
    ensures multiset(Sources(TaskPlan(files, sub, ses).value)) == multiset(files)
  {
    var sorted := SortNames(files);
    var l := LabelsOf(sorted).value;
    PassCovers(Scans(sorted));
    var rs := TaskRenames(sorted, l, sub, ses);
    assert TaskPlan(files, sub, ses).value == rs;
    assert Sources(rs) == sorted;
  }

  /** A step labels the scan it reads and keeps every label it had. */
  lemma {:induction false} StepCovers(l: Labels, s: Scan, t: Scan)
    requires Step(l, s).Ok?
    ensures Lookup(Step(l, s).value, s).Some?
    ensures Lookup(l, t).Some? ==> Lookup(Step(l, s).value, t).Some?
  {
  }

  /** After a pass that does not stop, every scan has a label, so the second
      pass raises no KeyError. */
  lemma {:induction false} PassCovers(ss: seq<Scan>)
    ensures Pass(ss).Ok? ==> Covers(Pass(ss).value, ss)
    decreases |ss|
  {
    if ss != [] && Pass(ss).Ok? {
      var init := ss[..|ss| - 1];
      var last := ss[|ss| - 1];
      PassCovers(init);
      var l := Pass(init).value;
      forall i | 0 <= i < |ss| ensures Lookup(Pass(ss).value, ss[i]).Some? {
        if i < |init| {
          assert ss[i] == init[i];
          StepCovers(l, last, ss[i]);
        } else {
          StepCovers(l, last, last);
        }
      }
    }
  }

  // ---- every label can stand in a BIDS name ----

  /** A label fits between the `-` and the `_` of a BIDS entity: it is not
      empty and holds no `_`, `-` or `.`. */
  predicate SafeLabel(s: string) {
    s != [] && '_' !in s && '-' !in s && '.' !in s
  }

  predicate AllSafe(l: Labels) {
    (forall k :: k in l.rest ==> SafeLabel(l.rest[k])) &&
    (forall k :: k in l.task ==> SafeLabel(l.task[k]))
  }

  /** The run text, when there is one and it is not empty, is a safe label. */
  predicate SafeRun(s: Scan) {
    s.run.Some? && s.run.value != "" ==> SafeLabel(s.run.value)
  }

  lemma {:induction false} CounterSafe(kind: string, n: nat)
    requires kind == "rest" || kind == "task"
    ensures SafeLabel(kind + NatToString(n))
  {
    var s := kind + NatToString(n);
    var digits := NatToString(n);
    forall k | 0 <= k < |s| ensures s[k] != '_' && s[k] != '-' && s[k] != '.' {
      if k >= |kind| {
        assert s[k] == digits[k - |kind|];
      }
    }
  }

  /** The deletions leave no `_` or `-`, and `split('.')[0]` left no `.`. */
  lemma {:induction false} RunTextSafe(f: string)
    ensures SafeRun(ReadScan(f))
  {
    if RunText(f).Some? && RunText(f).value != "" {
      var after := SecondField(f, "bold").value;
      var stem := BeforeFirst(after, ".");
      var s1 := Replace(stem, "(MB4iPAT2)", "");
      var s2 := Replace(s1, "task", "");
      var s3 := Replace(s2, "_", "");
      var run := Replace(s3, "-", "");
      assert run == RunText(f).value;
      DeleteCharRemovesAll(s3, '-');
      DeleteCharRemovesAll(s2, '_');
      if '_' in run {
        DeleteKeepsChars(s3, "-", '_');
      }
      if '.' in run {
        DeleteKeepsChars(s3, "-", '.');
        DeleteKeepsChars(s2, "_", '.');
        DeleteKeepsChars(s1, "task", '.');
        DeleteKeepsChars(stem, "(MB4iPAT2)", '.');
        ContainsChar(stem, '.');
      }
    }
  }

  lemma {:induction false} StepKeepsSafe(l: Labels, s: Scan)
    requires AllSafe(l) && SafeRun(s) && Step(l, s).Ok?
    ensures AllSafe(Step(l, s).value)
  {
    CounterSafe("rest", |l.rest|);
    CounterSafe("task", |l.task|);
  }

  lemma {:induction false} PassSafe(ss: seq<Scan>)
    requires forall i :: 0 <= i < |ss| ==> SafeRun(ss[i])
    ensures Pass(ss).Ok? ==> AllSafe(Pass(ss).value)
    decreases |ss|
  {
    if ss != [] {
      var init := ss[..|ss| - 1];
      assert forall i :: 0 <= i < |init| ==> init[i] == ss[i];
      PassSafe(init);
      if Pass(init).Ok? && Pass(ss).Ok? {
        assert SafeRun(ss[|ss| - 1]);
        StepKeepsSafe(Pass(init).value, ss[|ss| - 1]);
      }
    }
  }

  /** Every label the first pass produces can stand in a BIDS name. */
  lemma {:induction false} LabelsSafe(fs: seq<string>)
    ensures LabelsOf(fs).Ok? ==> AllSafe(LabelsOf(fs).value)
  {
    var ss := Scans(fs);
    forall i | 0 <= i < |ss| ensures SafeRun(ss[i]) {
      RunTextSafe(fs[i]);
    }
    PassSafe(ss);
  }

  lemma {:induction false} LookupSafe(l: Labels, s: Scan)
    requires AllSafe(l) && Lookup(l, s).Some?
    ensures SafeLabel(Lookup(l, s).value)
  {
  }

  /** Names built from safe labels collide exactly when the labels and the
      kept extensions are equal. */
  lemma {:induction false} TaskNameInjective(sub: string, ses: string, a: string, b: string, e1: string, e2: string)
    requires SafeLabel(a) && SafeLabel(b)
    ensures TaskName(sub, ses, a, e1) == TaskName(sub, ses, b, e2) <==> a == b && e1 == e2
  {
    EntityNameInjective(sub, ses, "task", a, b, "bold", e1, e2);
  }

  /** Two files of a plan get the same new name exactly when their scan keys
      have the same label and their kept extensions are equal. */
  lemma {:induction false} TaskNamesCollideIff(files: seq<string>, sub: string, ses: string, i: nat, j: nat)
    requires TaskPlan(files, sub, ses).Ok?
    requires i < |TaskPlan(files, sub, ses).value| && j < |TaskPlan(files, sub, ses).value|
    ensures var rs := TaskPlan(files, sub, ses).value;
      var l := LabelsOf(SortNames(files)).value;
      Lookup(l, ReadScan(rs[i].source)).Some? && Lookup(l, ReadScan(rs[j].source)).Some? &&
      (rs[i].dest == rs[j].dest <==>
        Lookup(l, ReadScan(rs[i].source)) == Lookup(l, ReadScan(rs[j].source)) &&
        NiftiExt(rs[i].source) == NiftiExt(rs[j].source))
  {
    var sorted := SortNames(files);
    var l := LabelsOf(sorted).value;
    PassCovers(Scans(sorted));
    LabelsSafe(sorted);
    var rs := TaskRenames(sorted, l, sub, ses);
    assert TaskPlan(files, sub, ses).value == rs;
    assert Scans(sorted)[i] == ReadScan(sorted[i]) && Scans(sorted)[j] == ReadScan(sorted[j]);
    var a, b := Lookup(l, ReadScan(sorted[i])).value, Lookup(l, ReadScan(sorted[j])).value;
    LookupSafe(l, ReadScan(sorted[i]));
    LookupSafe(l, ReadScan(sorted[j]));
    TaskNameInjective(sub, ses, a, b, NiftiExt(sorted[i]), NiftiExt(sorted[j]));
  }

  // ---- the relabelling of a key seen again ----

  /** The key of a file is the text between its first two underscores. */
  lemma {:induction false} ScanKeyOf(a: string, k: string, t: string)
    requires '_' !in a && '_' !in k
    ensures ScanKey(a + "_" + k + "_" + t) == Some(k)
  {
    var f := a + "_" + k + "_" + t;
    var after := k + "_" + t;
    assert f == a + ['_'] + after;
    FindFirstChar(a, '_', after);
    assert f[|a| + 1..] == after;
    assert after == k + ['_'] + t;
    BeforeFirstChar(k, '_', t);
  }

  lemma {:induction false} IsRestOf(a: string, t: string)
    ensures IsRest(a + "rest" + t)
  {
    var f := a + "rest" + t;
    assert f[|a|..] == "rest" + t;
    OccurrenceFound(f, "rest", |a|);
  }

  /** A gzip name without a directory keeps `.nii.gz`. */
  lemma {:induction false} GzipKeepsNiftiExt(n: string)
    requires '/' !in n && |n| > 3 && n[|n| - 4] != '.' && n[|n| - 3..] == ".gz"
    ensures NiftiExt(n) == ".nii.gz"
  {
    assert GzipName(n);
    NiftiExtOfName(n);
  }

  /** The label a key ends with is the one its last scan of that kind wrote,
      because the assignments of BIDS_conversion.py:60-66 never test whether
      the key is already there. That label is computed from the dictionaries
      as they stood just before that scan, and no later scan changes it. */
  lemma {:induction false} PassLastWrite(ss: seq<Scan>, i: nat)
    requires Pass(ss).Ok? && i < |ss| && ss[i].key.Some?
    requires forall j :: i < j < |ss| ==> ss[j].rest != ss[i].rest || ss[j].key != ss[i].key
    ensures Pass(ss[..i]).Ok?
    ensures var k := ss[i].key.value;
      ss[i].rest ==>
        k in Pass(ss).value.rest &&
        Pass(ss).value.rest[k] == Counter("rest", Pass(ss[..i]).value.rest)
    ensures var k := ss[i].key.value;
      !ss[i].rest ==>
        ss[i].run.Some? && k in Pass(ss).value.task &&
        Pass(ss).value.task[k] ==
          (if ss[i].run.value == "" then Counter("task", Pass(ss[..i]).value.task) else ss[i].run.value)
    decreases |ss|
  {
    var pre := ss[..|ss| - 1];
    assert Pass(pre).Ok?;
    if |ss| == i + 1 {
      assert pre == ss[..i];
    } else {
      assert pre[..i] == ss[..i];
      assert forall j :: i < j < |pre| ==> pre[j] == ss[j];
      PassLastWrite(pre, i);
    }
  }

  /** Three resting-state scans keyed 1, 1 and 2: the second relabels key 1
      with the count 1, and the third labels key 2 with the count 1 again. */
  lemma {:induction false} PassRelabels(ss: seq<Scan>)
    requires |ss| == 3 && ss[0].rest && ss[1].rest && ss[2].rest
    requires ss[0].key == Some("1") && ss[1].key == Some("1") && ss[2].key == Some("2")
    ensures Pass(ss).Ok? && "1" in Pass(ss).value.rest && "2" in Pass(ss).value.rest
    ensures Pass(ss).value.rest["1"] == "rest1" && Pass(ss).value.rest["2"] == "rest1"
  {
    assert ss[..3] == ss && ss[..3][..2] == ss[..2] && ss[..2][..1] == ss[..1] && ss[..1][..0] == [];
    assert ss[..1][0] == ss[0] && ss[..2][1] == ss[1];
    var r0, r1 := map["1" := "rest0"], map["1" := "rest1"];
    assert NatToString(0) == "0" && NatToString(1) == "1";
    assert Counter("rest", map[]) == "rest0";
    assert |r0| == 1 && Counter("rest", r0) == "rest1";
    assert |r1| == 1 && Counter("rest", r1) == "rest1";
    assert r0["1" := "rest1"] == r1;
    assert Pass(ss[..1]) == Step(NoLabels, ss[0]) == Ok(Labels(r0, map[]));
    assert Pass(ss[..2]) == Step(Labels(r0, map[]), ss[1]) == Ok(Labels(r1, map[]));
    assert Pass(ss) == Step(Labels(r1, map[]), ss[2]) == Ok(Labels(map["1" := "rest1", "2" := "rest1"], map[]));
  }

  /** A resting-state image with its sidecar, and a second resting-state
      image without one, all sharing the prefix `a`. */
  function CollidingListing(a: string): seq<string> {
    [a + "_1_rest.json", a + "_1_rest.nii.gz", a + "_2_rest.nii.gz"]
  }

  /** The sidecar sorts before its image: `json` < `nii.gz`. */
  lemma {:induction false} SidecarFirst(a: string)
    ensures LexLe(a + "_1_rest.json", a + "_1_rest.nii.gz")
  {
    assert LexLe("json", "nii.gz");
    assert a + "_1_rest.json" == (a + "_1_rest.") + "json";
    assert a + "_1_rest.nii.gz" == (a + "_1_rest.") + "nii.gz";
    LexLeCommon(a + "_1_rest.", "json", "nii.gz");
  }

  /** Key `1` sorts before key `2`. */
  lemma {:induction false} KeyOrder(a: string)
    ensures LexLe(a + "_1_rest.nii.gz", a + "_2_rest.nii.gz")
  {
    assert LexLe("1_rest.nii.gz", "2_rest.nii.gz");
    assert a + "_1_rest.nii.gz" == (a + "_") + "1_rest.nii.gz";
    assert a + "_2_rest.nii.gz" == (a + "_") + "2_rest.nii.gz";
    LexLeCommon(a + "_", "1_rest.nii.gz", "2_rest.nii.gz");
  }

  lemma {:induction false} CollidingListingSorted(a: string)
    ensures SortNames(CollidingListing(a)) == CollidingListing(a)
  {
    var files := CollidingListing(a);
    SidecarFirst(a);
    KeyOrder(a);
    assert files[1..][1..] == [files[2]];
    assert Sorted(files[1..][1..]);
    assert Sorted(files[1..]);
    assert Sorted(files);
    SortNamesOfSorted(files);
  }

  /** A resting-state file named `<a>_<k>_rest<t>` has key `k`. */
  lemma {:induction false} RestFileKey(a: string, k: string, t: string)
    requires '_' !in a && '_' !in k
    ensures IsRest(a + "_" + k + "_rest" + t) && ScanKey(a + "_" + k + "_rest" + t) == Some(k)
  {
    var f := a + "_" + k + "_rest" + t;
    assert f == a + "_" + k + "_" + ("rest" + t);
    ScanKeyOf(a, k, "rest" + t);
    assert f == (a + "_" + k + "_") + "rest" + t;
    IsRestOf(a + "_" + k + "_", t);
  }

  lemma {:induction false} CollidingListingKeys(a: string)
    requires '_' !in a
    ensures var files := CollidingListing(a);
      IsRest(files[0]) && IsRest(files[1]) && IsRest(files[2]) &&
      ScanKey(files[0]) == Some("1") && ScanKey(files[1]) == Some("1") && ScanKey(files[2]) == Some("2")
  {
    var files := CollidingListing(a);
    assert files[0] == a + "_" + "1" + "_rest" + ".json";
    assert files[1] == a + "_" + "1" + "_rest" + ".nii.gz";
    assert files[2] == a + "_" + "2" + "_rest" + ".nii.gz";
    RestFileKey(a, "1", ".json");
    RestFileKey(a, "1", ".nii.gz");
    RestFileKey(a, "2", ".nii.gz");
  }

  lemma {:induction false} GzipSuffix(a: string, t: string)
    requires '/' !in a && '/' !in t && |t| > 3 && t[|t| - 4] != '.' && t[|t| - 3..] == ".gz"
    ensures NiftiExt(a + t) == ".nii.gz"
  {
    var n := a + t;
    assert n[|n| - 4] == t[|t| - 4] && n[|n| - 3..] == t[|t| - 3..];
    GzipKeepsNiftiExt(n);
  }

  lemma {:induction false} CollidingListingExts(a: string)
    requires '/' !in a
    ensures var files := CollidingListing(a);
      NiftiExt(files[1]) == ".nii.gz" && NiftiExt(files[2]) == ".nii.gz"
  {
    GzipSuffix(a, "_1_rest.nii.gz");
    GzipSuffix(a, "_2_rest.nii.gz");
  }

  /** The plan of a listing already in order, once its labels are known. */
  lemma {:induction false} TaskPlanOfSorted(files: seq<string>, l: Labels, sub: string, ses: string)
    requires SortNames(files) == files && LabelsOf(files) == Ok(l)
    ensures Covers(l, Scans(files))
    ensures TaskPlan(files, sub, ses) == Ok(TaskRenames(files, l, sub, ses))
  {
    PassCovers(Scans(files));
  }

  /** A sorted listing of three resting-state files keyed 1, 1 and 2: the
      last two are renamed to the same name. */
  lemma {:induction false} RelabelledPlan(files: seq<string>, sub: string, ses: string)
    requires |files| == 3 && SortNames(files) == files
    requires IsRest(files[0]) && IsRest(files[1]) && IsRest(files[2])
    requires ScanKey(files[0]) == Some("1") && ScanKey(files[1]) == Some("1") && ScanKey(files[2]) == Some("2")
    ensures var plan := TaskPlan(files, sub, ses);
      plan.Ok? && |plan.value| == 3 &&
      plan.value[1] == Rename(files[1], TaskName(sub, ses, "rest1", NiftiExt(files[1]))) &&
      plan.value[2] == Rename(files[2], TaskName(sub, ses, "rest1", NiftiExt(files[2])))
  {
    var ss := Scans(files);
    assert ss[0] == ReadScan(files[0]) && ss[1] == ReadScan(files[1]) && ss[2] == ReadScan(files[2]);
    PassRelabels(ss);
    var l := Pass(ss).value;
    TaskPlanOfSorted(files, l, sub, ses);
    LookupRest(l, ss[1], "1");
    LookupRest(l, ss[2], "2");
  }

  lemma {:induction false} LookupRest(l: Labels, s: Scan, k: string)
    requires s.rest && s.key == Some(k) && k in l.rest
    ensures Lookup(l, s) == Some(l.rest[k])
  {
  }

  /** As written, a resting-state image whose sidecar shares its key is
      labelled `rest1`, and so is the next resting-state image: two different
      files are renamed to the same name, and the second rename replaces the
      first file. */
  lemma {:induction false} RestLabelsCollideAsWritten(a: string, sub: string, ses: string)
    requires '_' !in a && '/' !in a
    ensures var plan := TaskPlan(CollidingListing(a), sub, ses);
      plan.Ok? && |plan.value| == 3 &&
      plan.value[1].source == a + "_1_rest.nii.gz" && plan.value[2].source == a + "_2_rest.nii.gz" &&
      plan.value[1].dest == TaskName(sub, ses, "rest1", ".nii.gz") &&
      plan.value[2].dest == TaskName(sub, ses, "rest1", ".nii.gz")
  {
    CollidingListingSorted(a);
    CollidingListingKeys(a);
    CollidingListingExts(a);
    RelabelledPlan(CollidingListing(a), sub, ses);
  }

  // ---- the corrected numbering: a key keeps the label it first got ----

  /** One iteration of the first pass where a key already labelled with a
      count keeps its label, so counts are handed out in order of first
      appearance. */
  function StepFirstSeen(l: Labels, s: Scan): Result<Labels, TaskError> {
    if s.rest then
      match s.key
      case None => Err(NoScanField(s.file))
      case Some(k) => Ok(if k in l.rest then l else l.(rest := l.rest[k := Counter("rest", l.rest)]))
    else
      match s.run
      case None => Err(NoBoldField(s.file))
      case Some(run) =>
        match s.key
        case None => Err(NoScanField(s.file))
        case Some(k) =>
          Ok(if run == "" && k in l.task then l
             else l.(task := l.task[k := if run == "" then Counter("task", l.task) else run]))
  }

  function PassFirstSeen(ss: seq<Scan>): Result<Labels, TaskError>
    decreases |ss|
  {
    if ss == [] then Ok(NoLabels)
    else
      match PassFirstSeen(ss[..|ss| - 1])
      case Err(e) => Err(e)
      case Ok(l) => StepFirstSeen(l, ss[|ss| - 1])
  }

  /** The renames with the corrected numbering. */
  function TaskPlanFirstSeen(files: seq<string>, sub: string, ses: string): Result<seq<Rename>, TaskError> {
    var sorted := SortNames(files);
    match PassFirstSeen(Scans(sorted))
    case Err(e) => Err(e)
    case Ok(l) =>
      PassFirstSeenCovers(Scans(sorted));
      Ok(TaskRenames(sorted, l, sub, ses))
  }

  /** The corrected pass stops where the pass as written stops, and labels
      the same keys. */
  lemma {:induction false} PassFirstSeenAgrees(ss: seq<Scan>)
    ensures PassFirstSeen(ss).Err? <==> Pass(ss).Err?
    ensures PassFirstSeen(ss).Err? ==> PassFirstSeen(ss).error == Pass(ss).error
    ensures PassFirstSeen(ss).Ok? ==> SameKeys(PassFirstSeen(ss).value, Pass(ss).value)
    decreases |ss|
  {
    if ss != [] {
      var init := ss[..|ss| - 1];
      PassFirstSeenAgrees(init);
      if PassFirstSeen(init).Ok? {
        StepsAgree(PassFirstSeen(init).value, Pass(init).value, ss[|ss| - 1]);
      }
    }
  }

  /** Both dictionaries hold the same keys. */
  predicate SameKeys(l: Labels, l': Labels) {
    l.rest.Keys == l'.rest.Keys && l.task.Keys == l'.task.Keys
  }

  /** From dictionaries with the same keys, one step of either pass stops
      alike or leaves dictionaries with the same keys. */
  lemma {:induction false} StepsAgree(l: Labels, l': Labels, s: Scan)
    requires SameKeys(l, l')
    ensures StepFirstSeen(l, s).Err? <==> Step(l', s).Err?
    ensures StepFirstSeen(l, s).Err? ==> StepFirstSeen(l, s).error == Step(l', s).error
    ensures StepFirstSeen(l, s).Ok? ==> SameKeys(StepFirstSeen(l, s).value, Step(l', s).value)
  {
  }

  /** After a corrected pass that does not stop, every scan has a label. */
  lemma {:induction false} PassFirstSeenCovers(ss: seq<Scan>)
    ensures PassFirstSeen(ss).Ok? ==> Covers(PassFirstSeen(ss).value, ss)
  {
    PassFirstSeenAgrees(ss);
    PassCovers(ss);
    if PassFirstSeen(ss).Ok? {
      var l, l' := Pass(ss).value, PassFirstSeen(ss).value;
      forall i | 0 <= i < |ss| ensures Lookup(l', ss[i]).Some? {
        assert Lookup(l, ss[i]).Some?;
      }
    }
  }

  /** Every resting-state label is `rest<n>` for a count below the number of
      keys. */
  predicate Numbered(m: map<string, string>) {
    forall k :: k in m ==> exists n: nat :: n < |m| && m[k] == "rest" + NatToString(n)
  }

  /** No two keys share a label. */
  predicate Distinct(m: map<string, string>) {
    forall k1, k2 :: k1 in m && k2 in m && k1 != k2 ==> m[k1] != m[k2]
  }

  lemma {:induction false} NumberedSafe(m: map<string, string>, k: string)
    requires Numbered(m) && k in m
    ensures SafeLabel(m[k])
  {
    var n: nat :| n < |m| && m[k] == "rest" + NatToString(n);
    CounterSafe("rest", n);
  }

  /** A new key gets a label no key had. */
  lemma {:induction false} FreshLabel(m: map<string, string>, k: string)
    requires Numbered(m) && Distinct(m) && k !in m
    ensures Numbered(m[k := Counter("rest", m)]) && Distinct(m[k := Counter("rest", m)])
  {
    var m' := m[k := Counter("rest", m)];
    assert |m'| == |m| + 1;
    forall j | j in m ensures m[j] != Counter("rest", m) {
      var n: nat :| n < |m| && m[j] == "rest" + NatToString(n);
      if m[j] == Counter("rest", m) {
        PrefixCancel("rest", NatToString(n), NatToString(|m|));
      }
    }
    forall j | j in m' ensures exists n: nat :: n < |m'| && m'[j] == "rest" + NatToString(n) {
      if j == k {
        assert m'[j] == "rest" + NatToString(|m|);
      } else {
        var n: nat :| n < |m| && m[j] == "rest" + NatToString(n);
        assert m'[j] == "rest" + NatToString(n);
      }
    }
  }

  /** With the corrected numbering, distinct resting-state keys get distinct
      labels. */
  lemma {:induction false} PassFirstSeenDistinct(ss: seq<Scan>)
    ensures PassFirstSeen(ss).Ok? ==>
      Numbered(PassFirstSeen(ss).value.rest) && Distinct(PassFirstSeen(ss).value.rest)
    decreases |ss|
  {
    if ss != [] {
      var init := ss[..|ss| - 1];
      var s := ss[|ss| - 1];
      PassFirstSeenDistinct(init);
      if PassFirstSeen(init).Ok? && s.rest && s.key.Some? && s.key.value !in PassFirstSeen(init).value.rest {
        FreshLabel(PassFirstSeen(init).value.rest, s.key.value);
      }
    }
  }

  /** Renames built from a numbering without shared labels keep apart the
      resting-state files whose keys differ. */
  lemma {:induction false} TaskRenamesRestDistinct(sorted: seq<string>, l: Labels, sub: string, ses: string, i: nat, j: nat)
    requires Covers(l, Scans(sorted)) && Numbered(l.rest) && Distinct(l.rest)
    requires i < |sorted| && j < |sorted|
    requires IsRest(sorted[i]) && IsRest(sorted[j]) && ScanKey(sorted[i]) != ScanKey(sorted[j])
    ensures TaskRenames(sorted, l, sub, ses)[i].dest != TaskRenames(sorted, l, sub, ses)[j].dest
  {
    var si, sj := ReadScan(sorted[i]), ReadScan(sorted[j]);
    assert Scans(sorted)[i] == si && Scans(sorted)[j] == sj;
    assert Lookup(l, si).Some? && Lookup(l, sj).Some?;
    var a, b := l.rest[si.key.value], l.rest[sj.key.value];
    NumberedSafe(l.rest, si.key.value);
    NumberedSafe(l.rest, sj.key.value);
    TaskNameInjective(sub, ses, a, b, NiftiExt(sorted[i]), NiftiExt(sorted[j]));
  }

  /** With the corrected numbering, two resting-state files with different
      keys are never renamed to the same name. */
  lemma {:induction false} RestNamesDistinctFirstSeen(files: seq<string>, sub: string, ses: string, i: nat, j: nat)
    requires TaskPlanFirstSeen(files, sub, ses).Ok?
    requires i < |TaskPlanFirstSeen(files, sub, ses).value| && j < |TaskPlanFirstSeen(files, sub, ses).value|
    requires var rs := TaskPlanFirstSeen(files, sub, ses).value;
      IsRest(rs[i].source) && IsRest(rs[j].source) && ScanKey(rs[i].source) != ScanKey(rs[j].source)
    ensures var rs := TaskPlanFirstSeen(files, sub, ses).value;
      rs[i].dest != rs[j].dest
  {
    var sorted := SortNames(files);
    var ss := Scans(sorted);
    var l := PassFirstSeen(ss).value;
    PassFirstSeenCovers(ss);
    PassFirstSeenDistinct(ss);
    assert TaskPlanFirstSeen(files, sub, ses).value == TaskRenames(sorted, l, sub, ses);
    TaskRenamesRestDistinct(sorted, l, sub, ses, i, j);
  }
}
