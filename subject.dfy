/** The top level of the script: the subject id is read from each matched
    DICOM folder path, and every path becomes one conversion job for session
    `ses-1` under the subject folder `sub-<id>`. */
module Subject {
  import opened Wrappers
  import opened PyStr
  import opened SeqFacts

  /** Why `line.split('/')[6].split('_')[1]` raises IndexError: the path has
      fewer than seven `/`-separated segments, or the seventh has no `_`. */
  datatype SubjectError = TooFewSegments(path: string) | NoIdField(path: string)

  /** The subject id of one matched path: the second `_`-separated field of
      its seventh `/`-separated segment. */
  function SubjectId(path: string): (r: Result<string, SubjectError>)
    ensures r.Err? <==> |Split(path, "/")| < 7 || !Contains(Split(path, "/")[6], "_")
    ensures r.Err? ==>
      r.error == (if |Split(path, "/")| < 7 then TooFewSegments(path) else NoIdField(path))
    ensures r.Ok? ==> '/' !in r.value && '_' !in r.value
  {
    var segs := Split(path, "/");
    if |segs| < 7 then Err(TooFewSegments(path))
    else
      match SecondField(segs[6], "_")
      case None => Err(NoIdField(path))
      case Some(id) =>
        IdHasNoSeparators(segs[6], id);
        Ok(id)
  }

  /** The field read from a segment holds neither separator. */
  lemma {:induction false} IdHasNoSeparators(seg: string, id: string)
    requires !Contains(seg, "/") && SecondField(seg, "_") == Some(id)
    ensures '/' !in id && '_' !in id
  {
    var i := Find(seg, "_");
    var tail := seg[i + 1..];
    assert id <= tail;
    ContainsChar(seg, '/');
    ContainsChar(id, '_');
    forall k | 0 <= k < |id| ensures id[k] != '/' {
      assert id[k] == tail[k] == seg[i + 1 + k];
    }
  }

  /** A segment that is a head free of `_`, then `_`, the id, and a tail that
      is empty or starts a further field, has that id as its second field. */
  lemma {:induction false} SecondFieldOf(head: string, id: string, tail: string)
    requires '_' !in head && '_' !in id && (tail == [] || tail[0] == '_')
    ensures SecondField(head + "_" + id + tail, "_") == Some(id)
  {
    var seg := head + "_" + id + tail;
    assert seg == head + ['_'] + (id + tail);
    FindFirstChar(head, '_', id + tail);
    assert seg[|head| + 1..] == id + tail;
    if tail == [] {
      assert id + tail == id;
      ContainsChar(id, '_');
      assert Split(id, "_") == [id];
    } else {
      assert id + tail == id + ['_'] + tail[1..];
      BeforeFirstChar(id, '_', tail[1..]);
    }
  }

  /** A path made of seven or more segments free of `/`, whose seventh has
      the id as its second `_`-field, yields that id. */
  lemma {:induction false} SubjectIdOfSegments(segs: seq<string>, head: string, id: string, tail: string)
    requires |segs| >= 7 && forall k :: 0 <= k < |segs| ==> '/' !in segs[k]
    requires segs[6] == head + "_" + id + tail
    requires '_' !in head && '_' !in id && (tail == [] || tail[0] == '_')
    ensures SubjectId(Join(segs, "/")) == Ok(id)
  {
    SplitJoin(segs, '/');
    SecondFieldOf(head, id, tail);
  }

  /** The segments of a path that the script's glob template matches: the
      root `/home/levylab/Documents/Rest/dicom`, then a subject folder `dir`
      (the first wildcard), then `<series>_T1` (the second) and `MRI`. */
  function MatchedSegments(dir: string, series: string): (segs: seq<string>)
    ensures |segs| == 9 && segs[6] == dir
  {
    ["", "home", "levylab", "Documents", "Rest", "dicom", dir, series + "_T1", "MRI"]
  }

  /** Under the script's glob template the id comes from the subject folder
      alone: it is the second `_`-field of that folder's name, and there is
      none when the name has no `_`. */
  lemma {:induction false} SubjectIdOfMatch(dir: string, series: string)
    requires '/' !in dir && '/' !in series
    ensures var r := SubjectId(Join(MatchedSegments(dir, series), "/"));
      (r.Ok? <==> '_' in dir) && (r.Ok? ==> Some(r.value) == SecondField(dir, "_"))
  {
    var segs := MatchedSegments(dir, series);
    assert '/' !in series + "_T1";
    forall k | 0 <= k < |segs| ensures '/' !in segs[k] {
    }
    SplitJoin(segs, '/');
    ContainsChar(dir, '_');
  }

  /** `'sub-' + subNumber`: the subject folder and file-name prefix. */
  function SubjectName(id: string): (name: string)
    ensures |name| == |id| + 4 && name[..4] == "sub-" && name[4..] == id
  {
    "sub-" + id
  }

  /** Different ids give different subject names, and the name of an id read
      from a path holds no `_`, so it is one BIDS entity. */
  lemma {:induction false} SubjectNameInjective(id1: string, id2: string)
    ensures SubjectName(id1) == SubjectName(id2) <==> id1 == id2
    ensures '_' !in id1 ==> '_' !in SubjectName(id1)
  {
    if SubjectName(id1) == SubjectName(id2) {
      assert id1 == SubjectName(id1)[4..];
    }
    if '_' !in id1 {
      forall k | 0 <= k < |SubjectName(id1)| ensures SubjectName(id1)[k] != '_' {
        if k >= 4 {
          assert SubjectName(id1)[k] == id1[k - 4];
        }
      }
    }
  }

  /** The ids of the matched paths, in order. */
  function Ids(paths: seq<string>): (rs: seq<Result<string, SubjectError>>)
    ensures |rs| == |paths|
  {
    seq(|paths|, i requires 0 <= i < |paths| => SubjectId(paths[i]))
  }

  /** The loop that fills `subs`: the id of every path, or the error of the
      first path it cannot read. */
  method CollectIds(paths: seq<string>) returns (r: Result<seq<string>, SubjectError>)
    ensures r == AllOk(Ids(paths))
  {
    ghost var ids := Ids(paths);
    var subs: seq<string> := [];
    var i := 0;
    while i < |paths|
      invariant 0 <= i <= |paths|
      invariant AllOk(ids[..i]) == Ok(subs)
    {
      var sub := SubjectId(paths[i]);
      assert sub == ids[i];
      TakeSnoc(ids, i);
      AllOkSnoc(ids[..i], sub);
      if sub.Err? {
        AllOkStops(ids[..i + 1], ids[i + 1..]);
        TakeDrop(ids, i + 1);
        return Err(sub.error);
      }
      subs := subs + [sub.value];
      i := i + 1;
    }
    TakeAll(ids);
    return Ok(subs);
  }

  /** One call `fullBids(subs[i], 'ses-1', sub_list[i])`: convert the DICOM
      folder `source` into the session folder `session` of `subName`, then
      organise that folder. */
  datatype Job = Job(source: string, subName: string, session: string)

  /** The session every job is given. */
  const Session := "ses-1"

  /** The root of the BIDS tree every job writes into. */
  const OutputDir := "/home/levylab/Documents/Rest/BIDS/"

  /** `os.path.join(output_dir, subName, session)`, with `output_dir` ending
      in `/`. */
  function SessionDir(subName: string, session: string): (d: string)
    ensures |d| == |OutputDir| + |subName| + 1 + |session|
    ensures d[..|OutputDir|] == OutputDir && d[|OutputDir|..] == subName + "/" + session
  {
    OutputDir + subName + "/" + session
  }

  /** The jobs for the paths and their ids, paired by position. */
  function Jobs(paths: seq<string>, ids: seq<string>): (js: seq<Job>)
    requires |ids| == |paths|
    ensures |js| == |paths|
  {
    seq(|paths|, i requires 0 <= i < |paths| => Job(paths[i], SubjectName(ids[i]), Session))
  }

  /** What the script does with the glob result: no job at all if some id
      cannot be read, otherwise one job per path in glob order. */
  function ScriptPlan(paths: seq<string>): Result<seq<Job>, SubjectError> {
    match AllOk(Ids(paths))
    case Err(e) => Err(e)
    case Ok(ids) => Ok(Jobs(paths, ids))
  }

  /** The loop that calls `fullBids` once per path. */
  method RunJobs(paths: seq<string>, subs: seq<string>) returns (jobs: seq<Job>)
    requires |subs| == |paths|
    ensures jobs == Jobs(paths, subs)
  {
    jobs := [];
    var i := 0;
    while i < |paths|
      invariant 0 <= i <= |paths| && |jobs| == i
      invariant forall k :: 0 <= k < i ==> jobs[k] == Job(paths[k], SubjectName(subs[k]), Session)
    {
      var subName := "sub-" + subs[i];
      jobs := jobs + [Job(paths[i], subName, "ses-1")];
      i := i + 1;
    }
  }

  /** The script's top level, given the glob result. */
  method Script(paths: seq<string>) returns (r: Result<seq<Job>, SubjectError>)
    ensures r == ScriptPlan(paths)
  {
    var subs := CollectIds(paths);
    if subs.Err? {
      return Err(subs.error);
    }
    var jobs := RunJobs(paths, subs.value);
    return Ok(jobs);
  }

  /** The script starts no job exactly when some path lacks an id, and then
      reports the first such path. */
  lemma {:induction false} ScriptPlanFailsIff(paths: seq<string>)
    ensures ScriptPlan(paths).Err? <==> exists p :: p in paths && SubjectId(p).Err?
    ensures ScriptPlan(paths).Err? ==>
      (exists i :: 0 <= i < |paths| && SubjectId(paths[i]) == Err(ScriptPlan(paths).error) &&
        forall j :: 0 <= j < i ==> SubjectId(paths[j]).Ok?)
  {
    var ids := Ids(paths);
    AllOkSpec(ids);
    if AllOk(ids).Err? {
      var i :| 0 <= i < |ids| && ids[i] == Err(AllOk(ids).error) && forall j :: 0 <= j < i ==> ids[j].Ok?;
      assert ScriptPlan(paths).error == AllOk(ids).error;
      assert forall j :: 0 <= j < i ==> SubjectId(paths[j]) == ids[j];
      assert paths[i] in paths;
    } else {
      forall p | p in paths ensures SubjectId(p).Ok? {
        var i :| 0 <= i < |paths| && paths[i] == p;
        assert ids[i].Ok?;
      }
    }
  }

  /** Otherwise job `i` converts path `i`, for session `ses-1` of the subject
      named by that path's id. */
  lemma {:induction false} ScriptPlanJobs(paths: seq<string>, i: nat)
    requires ScriptPlan(paths).Ok? && i < |paths|
    ensures |ScriptPlan(paths).value| == |paths| && SubjectId(paths[i]).Ok?
    ensures ScriptPlan(paths).value[i] == Job(paths[i], SubjectName(SubjectId(paths[i]).value), Session)
  {
    var ids := Ids(paths);
    AllOkSpec(ids);
    assert ids[i] == Ok(AllOk(ids).value[i]);
  }

  /** Two subject folders with the same session coincide exactly when the
      subject names do, as long as the names hold no `/`. */
  lemma {:induction false} SessionDirInjective(n1: string, n2: string, session: string)
    requires '/' !in n1 && '/' !in n2
    ensures SessionDir(n1, session) == SessionDir(n2, session) <==> n1 == n2
  {
    if SessionDir(n1, session) == SessionDir(n2, session) {
      var t1, t2 := SessionDir(n1, session)[|OutputDir|..], SessionDir(n2, session)[|OutputDir|..];
      assert n1 + ['/'] + session == t1 == t2 == n2 + ['/'] + session;
      FindFirstChar(n1, '/', session);
      FindFirstChar(n2, '/', session);
      assert n1 == t1[..|n1|] && n2 == t2[..|n2|];
    }
  }

  /** Two jobs convert into the same session folder exactly when their paths
      yield the same id. For two DICOM folders of one subject the second job
      then finds `<session>/dwi` already there, and `organizeFiles` stops at
      its first `os.makedirs` (BIDS_conversion.py:97). */
  lemma {:induction false} JobsShareFolderIff(paths: seq<string>, i: nat, j: nat)
    requires ScriptPlan(paths).Ok? && i < |paths| && j < |paths|
    ensures var js := ScriptPlan(paths).value;
      (SessionDir(js[i].subName, js[i].session) == SessionDir(js[j].subName, js[j].session) <==>
       SubjectId(paths[i]) == SubjectId(paths[j]))
  {
    ScriptPlanJobs(paths, i);
    ScriptPlanJobs(paths, j);
    var id1, id2 := SubjectId(paths[i]).value, SubjectId(paths[j]).value;
    var n1, n2 := SubjectName(id1), SubjectName(id2);
    assert '/' !in n1 by {
      forall k | 0 <= k < |n1| ensures n1[k] != '/' {
        if k >= 4 {
          assert n1[k] == id1[k - 4];
        }
      }
    }
    assert '/' !in n2 by {
      forall k | 0 <= k < |n2| ensures n2[k] != '/' {
        if k >= 4 {
          assert n2[k] == id2[k - 4];
        }
      }
    }
    SessionDirInjective(n1, n2, Session);
    SubjectNameInjective(id1, id2);
  }
}
