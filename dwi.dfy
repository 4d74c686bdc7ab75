/** `checkdwi`: the diffusion images of a session are renamed
    `<sub>_<ses>_run-<k>_dwi<ext>`, where the run number comes from the
    second `_`-separated field of the converted name, shifted so that the
    smallest becomes 1. */
module Diffusion {
  import opened Wrappers
  import opened PyStr
  import opened PyInt
  import opened PyPath
  import opened Naming
  import opened SeqFacts

  /** Why the script stops: `f.split('_')[1]` has no such field
      (IndexError), the field is not an integer (ValueError from `int`), or
      the folder holds no file (ValueError from `min` of an empty list). */
  datatype DwiError = NoRunField(file: string) | RunNotInteger(file: string) | NoFiles

  /** `int(f.split('_')[1])`. */
  function RunToken(f: string): (r: Result<int, DwiError>)
    ensures r.Err? ==> r.error == NoRunField(f) || r.error == RunNotInteger(f)
    ensures r == Err(NoRunField(f)) <==> SecondField(f, "_").None?
    ensures r == Err(RunNotInteger(f)) <==>
      SecondField(f, "_").Some? && ParseInt(SecondField(f, "_").value).None?
    ensures r.Ok? ==> SecondField(f, "_").Some? && Some(r.value) == ParseInt(SecondField(f, "_").value)
  {
    match SecondField(f, "_")
    case None => Err(NoRunField(f))
    case Some(field) =>
      match ParseInt(field)
      case None => Err(RunNotInteger(f))
      case Some(v) => Ok(v)
  }

  /** The token, or the error, of each file in order. */
  function Tokens(fs: seq<string>): (ts: seq<Result<int, DwiError>>)
    ensures |ts| == |fs|
  {
    seq(|fs|, i requires 0 <= i < |fs| => RunToken(fs[i]))
  }

  /** Python's `min`. */
  function Min(s: seq<int>): (m: int)
    requires s != []
    ensures exists i :: 0 <= i < |s| && s[i] == m
    ensures forall i :: 0 <= i < |s| ==> m <= s[i]
    decreases |s|
  {
    if |s| == 1 then s[0]
    else
      var m := Min(s[1..]);
      assert forall i :: 1 <= i < |s| ==> s[i] == s[1..][i - 1];
      if s[0] <= m then s[0] else m
  }

  /** `1 + token - min(tokens)` for every token: runs start at 1 and keep the
      gaps between the tokens. */
  function RunNumbers(toks: seq<int>): (runs: seq<nat>)
    requires toks != []
    ensures |runs| == |toks|
    ensures forall i :: 0 <= i < |runs| ==> runs[i] >= 1
    ensures exists i :: 0 <= i < |runs| && runs[i] == 1
    ensures forall i :: 0 <= i < |runs| ==> runs[i] - toks[i] == runs[0] - toks[0]
  {
    var m := Min(toks);
    var runs := seq(|toks|, i requires 0 <= i < |toks| => (1 + toks[i] - m) as nat);
    var k :| 0 <= k < |toks| && toks[k] == m;
    assert runs[k] == 1;
    runs
  }

  lemma RunNumberOf(toks: seq<int>, i: int)
    requires toks != [] && 0 <= i < |toks|
    ensures RunNumbers(toks)[i] == 1 + toks[i] - Min(toks)
  {
  }

  /** `<sub>_<ses>_run-<run>_dwi<ext>`. */
  function DwiName(sub: string, ses: string, run: nat, ext: string): string {
    EntityName(sub, ses, "run", NatToString(run), "dwi", ext)
  }

  /** The renames of the sorted files once their run numbers are known. */
  function DwiRenames(sorted: seq<string>, runs: seq<nat>, sub: string, ses: string): (rs: seq<Rename>)
    requires |runs| == |sorted|
    ensures |rs| == |sorted|
  {
    seq(|sorted|, i requires 0 <= i < |sorted| =>
      Rename(sorted[i], DwiName(sub, ses, runs[i], NiftiExt(sorted[i]))))
  }

  /** The renames `checkdwi` performs on the folder listing `files`, in the
      order it performs them, or the error that stops it before any rename. */
  function DwiPlan(files: seq<string>, sub: string, ses: string): Result<seq<Rename>, DwiError> {
    var sorted := SortNames(files);
    match AllOk(Tokens(sorted))
    case Err(e) => Err(e)
    case Ok(toks) =>
      if toks == [] then Err(NoFiles)
      else Ok(DwiRenames(sorted, RunNumbers(toks), sub, ses))
  }

  /** The first loop of `checkdwi`: the token of every file, or the error of
      the first file whose token cannot be read. */
  method ReadRuns(sorted: seq<string>) returns (r: Result<seq<int>, DwiError>)
    ensures r == AllOk(Tokens(sorted))
  {
    ghost var toks := Tokens(sorted);
    var runs: seq<int> := [];
    var i := 0;
    while i < |sorted|
      invariant 0 <= i <= |sorted|
      invariant AllOk(toks[..i]) == Ok(runs)
    {
      var tok := RunToken(sorted[i]);
      assert tok == toks[i];
      TakeSnoc(toks, i);
      AllOkSnoc(toks[..i], tok);
      if tok.Err? {
        AllOkStops(toks[..i + 1], toks[i + 1..]);
        TakeDrop(toks, i + 1);
        return Err(tok.error);
      }
      runs := runs + [tok.value];
      i := i + 1;
    }
    TakeAll(toks);
    return Ok(runs);
  }

  /** The second loop of `checkdwi`: rename each file to its run number and
      kept extension. */
  method RenameRuns(sorted: seq<string>, runs: seq<nat>, sub: string, ses: string) returns (renames: seq<Rename>)
    requires |runs| == |sorted|
    ensures renames == DwiRenames(sorted, runs, sub, ses)
  {
    renames := [];
    var i := 0;
    while i < |sorted|
      invariant 0 <= i <= |sorted| && |renames| == i
      invariant forall k :: 0 <= k < i ==>
        renames[k] == Rename(sorted[k], DwiName(sub, ses, runs[k], NiftiExt(sorted[k])))
    {
      var f := sorted[i];
      var ext := CheckGz(SplitExt(f));
      renames := renames + [Rename(f, DwiName(sub, ses, runs[i], ext))];
      i := i + 1;
    }
  }

  /** `checkdwi`: sort the listing, read the tokens, then rename every file.
      The second loop reads each file's token again; it is the token the
      first loop read, so the run numbers computed once are used there. */
  method CheckDwi(files: seq<string>, sub: string, ses: string) returns (r: Result<seq<Rename>, DwiError>)
    ensures r == DwiPlan(files, sub, ses)
  {
    var sorted := SortNames(files);
    var read := ReadRuns(sorted);
    if read.Err? {
      return Err(read.error);
    }
    var runs := read.value;
    if runs == [] {
      return Err(NoFiles);
    }
    var minrun := Min(runs);
    var numbers := seq(|runs|, i requires 0 <= i < |runs| => (1 + runs[i] - minrun) as nat);
    assert numbers == RunNumbers(runs);
    var renames := RenameRuns(sorted, numbers, sub, ses);
    return Ok(renames);
  }

  /** `checkdwi` stops exactly when the folder is empty or some file's token
      cannot be read. */
  lemma {:induction false} DwiPlanFailsIff(files: seq<string>, sub: string, ses: string)
    ensures DwiPlan(files, sub, ses).Err? <==>
      files == [] || exists f :: f in files && RunToken(f).Err?
  {
    var sorted := SortNames(files);
    var toks := Tokens(sorted);
    AllOkOfItems(toks, sorted, RunToken);
    SortNamesMembers(files);
    assert files == [] <==> sorted == [] by {
      assert |files| == |multiset(files)| == |multiset(sorted)| == |sorted|;
    }
    assert (exists f :: f in sorted && RunToken(f).Err?) <==> (exists f :: f in files && RunToken(f).Err?);
  }

  /** Every file of the folder is renamed once. */
  lemma {:induction false} DwiRenamesEveryFile(files: seq<string>, sub: string, ses: string)
    requires DwiPlan(files, sub, ses).Ok?
    ensures multiset(Sources(DwiPlan(files, sub, ses).value)) == multiset(files)
  {
    var sorted := SortNames(files);
    var toks := AllOk(Tokens(sorted)).value;
    var runs := RunNumbers(toks);
    assert DwiPlan(files, sub, ses).value == DwiRenames(sorted, runs, sub, ses);
    DwiRenamesSources(sorted, runs, sub, ses);
  }

  lemma {:induction false} DwiRenamesSources(sorted: seq<string>, runs: seq<nat>, sub: string, ses: string)
    requires |runs| == |sorted|
    ensures Sources(DwiRenames(sorted, runs, sub, ses)) == sorted
  {
  }

  /** Distinct run numbers or extensions give distinct names. */
  lemma {:induction false} DwiNameInjective(sub: string, ses: string, r1: nat, r2: nat, e1: string, e2: string)
    ensures DwiName(sub, ses, r1, e1) == DwiName(sub, ses, r2, e2) <==> r1 == r2 && e1 == e2
  {
    var a, b := NatToString(r1), NatToString(r2);
    assert '_' !in a by {
      assert forall k :: 0 <= k < |a| ==> a[k] != '_';
    }
    assert '_' !in b by {
      assert forall k :: 0 <= k < |b| ==> b[k] != '_';
    }
    EntityNameInjective(sub, ses, "run", a, b, "dwi", e1, e2);
    if a == b {
      NatToStringInjective(r1, r2);
    }
  }

  lemma {:induction false} DwiRenamesCollideIff(sorted: seq<string>, runs: seq<nat>, sub: string, ses: string, i: nat, j: nat)
    requires |runs| == |sorted| && i < |sorted| && j < |sorted|
    ensures var rs := DwiRenames(sorted, runs, sub, ses);
      rs[i].source == sorted[i] && rs[j].source == sorted[j] &&
      (rs[i].dest == rs[j].dest <==> runs[i] == runs[j] && NiftiExt(sorted[i]) == NiftiExt(sorted[j]))
  {
    DwiNameInjective(sub, ses, runs[i], runs[j], NiftiExt(sorted[i]), NiftiExt(sorted[j]));
  }

  /** Two files get the same new name exactly when their tokens are equal and
      their kept extensions are equal. */
  lemma {:induction false} DwiNamesCollideIff(files: seq<string>, sub: string, ses: string, i: nat, j: nat)
    requires DwiPlan(files, sub, ses).Ok?
    requires i < |DwiPlan(files, sub, ses).value| && j < |DwiPlan(files, sub, ses).value|
    ensures var rs := DwiPlan(files, sub, ses).value;
      rs[i].dest == rs[j].dest <==>
        RunToken(rs[i].source) == RunToken(rs[j].source) && NiftiExt(rs[i].source) == NiftiExt(rs[j].source)
  {
    var sorted := SortNames(files);
    var toks := AllOk(Tokens(sorted)).value;
    var runs := RunNumbers(toks);
    assert DwiPlan(files, sub, ses).value == DwiRenames(sorted, runs, sub, ses);
    DwiRenamesCollideIff(sorted, runs, sub, ses, i, j);
    AllOkSpec(Tokens(sorted));
    assert RunToken(sorted[i]) == Ok(toks[i]) && RunToken(sorted[j]) == Ok(toks[j]);
    assert runs[i] == runs[j] <==> toks[i] == toks[j];
  }

  /** Runs numbered from tokens 5, 6, 7 and 9 keep their gap. */
  lemma RunNumbersKeepGaps()
    ensures RunNumbers([5, 6, 7, 9]) == [1, 2, 3, 5]
  {
    var toks := [5, 6, 7, 9];
    assert toks[1..] == [6, 7, 9] && toks[1..][1..] == [7, 9] && toks[1..][1..][1..] == [9];
    assert Min([9]) == 9 && Min([7, 9]) == 7 && Min([6, 7, 9]) == 6 && Min(toks) == 5;
    RunNumberOf(toks, 0);
    RunNumberOf(toks, 1);
    RunNumberOf(toks, 2);
    RunNumberOf(toks, 3);
  }
}
