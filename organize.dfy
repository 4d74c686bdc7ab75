/** `organizeFiles`: every file the converter left in the session folder is
    moved into `anat/`, `func/` or `misc/`, and anatomical scans are renamed
    to BIDS names on the way. */
module Organize {
  import opened PyStr
  import opened PyPath
  import opened ScanKinds
  import opened Naming

  /** The four sub-folders the script creates in the session folder. */
  datatype Folder = AnatDir | FuncDir | DwiDir | MiscDir

  /** Where one file goes: the folder, and its name inside that folder. */
  datatype Move = Move(source: string, folder: Folder, dest: string)

  /** `<sub>_<ses>_acq-<tag>_T1w<ext>`. */
  function AnatName(sub: string, ses: string, tag: AcqTag, ext: string): string {
    EntityName(sub, ses, "acq", TagName(tag), "T1w", ext)
  }

  /** What the loop body does with the file `n`. */
  function Route(n: string, sub: string, ses: string): Move {
    match Classify(n)
    case Anat(tag) => Move(n, AnatDir, AnatName(sub, ses, tag, CheckGz(SplitExt(n))))
    case Func => Move(n, FuncDir, n)
    case Misc => Move(n, MiscDir, n)
  }

  /** The moves for a whole listing, in listing order. */
  function Plan(listing: seq<string>, sub: string, ses: string): (plan: seq<Move>)
    ensures |plan| == |listing|
  {
    seq(|listing|, i requires 0 <= i < |listing| => Route(listing[i], sub, ses))
  }

  /** The loop over the session folder's files (`a[2]`), producing the move
      each iteration performs. */
  method OrganizeFiles(listing: seq<string>, sub: string, ses: string) returns (plan: seq<Move>)
    ensures plan == Plan(listing, sub, ses)
  {
    plan := [];
    var i := 0;
    while i < |listing|
      invariant 0 <= i <= |listing|
      invariant plan == Plan(listing[..i], sub, ses)
    {
      var n := listing[i];
      var m := Route(n, sub, ses);
      plan := plan + [m];
      i := i + 1;
      assert plan == Plan(listing[..i], sub, ses);
    }
    assert listing[..i] == listing;
  }

  /** Each file keeps its name unless it is anatomical, which is renamed by
      its tag and kept extension; nothing goes to `dwi/`. */
  lemma {:induction false} RouteSpec(n: string, sub: string, ses: string)
    ensures Route(n, sub, ses).source == n && Route(n, sub, ses).folder != DwiDir
    ensures Route(n, sub, ses).folder == AnatDir <==> Classify(n).Anat?
    ensures Route(n, sub, ses).folder == FuncDir <==> Classify(n) == Func
    ensures Route(n, sub, ses).folder != AnatDir ==> Route(n, sub, ses).dest == n
    ensures Route(n, sub, ses).folder == AnatDir ==>
      Route(n, sub, ses).dest == AnatName(sub, ses, Classify(n).tag, NiftiExt(n))
  {
  }

  /** The files a plan moves into `folder`, in order. */
  function MovedInto(plan: seq<Move>, folder: Folder): (r: seq<string>)
    ensures |r| <= |plan|
    decreases |plan|
  {
    if plan == [] then []
    else (if plan[0].folder == folder then [plan[0].source] else []) + MovedInto(plan[1..], folder)
  }

  /** The files a plan moves, in order. */
  function Sources(plan: seq<Move>): (r: seq<string>)
    ensures |r| == |plan|
  {
    seq(|plan|, i requires 0 <= i < |plan| => plan[i].source)
  }

  /** What the first move of a plan puts into `folder`. */
  function HeadInto(plan: seq<Move>, folder: Folder): multiset<string>
    requires plan != []
  {
    if plan[0].folder == folder then multiset{plan[0].source} else multiset{}
  }

  lemma {:induction false} MovedIntoHead(plan: seq<Move>, folder: Folder)
    requires plan != []
    ensures multiset(MovedInto(plan, folder)) == HeadInto(plan, folder) + multiset(MovedInto(plan[1..], folder))
  {
  }

  /** The first move lands in exactly one folder. */
  lemma {:induction false} HeadIntoPartition(plan: seq<Move>)
    requires plan != []
    ensures HeadInto(plan, AnatDir) + HeadInto(plan, FuncDir) + HeadInto(plan, DwiDir) + HeadInto(plan, MiscDir) ==
            multiset{plan[0].source}
  {
  }

  lemma {:induction false} Regroup<T>(x: multiset<T>, ha: multiset<T>, hf: multiset<T>, hd: multiset<T>, hm: multiset<T>,
                                      a: multiset<T>, f: multiset<T>, d: multiset<T>, m: multiset<T>)
    requires ha + hf + hd + hm == x
    ensures (ha + a) + (hf + f) + (hd + d) + (hm + m) == x + (a + f + d + m)
  {
  }

  /** Each moved file goes to exactly one folder. */
  lemma {:induction false} MovedIntoPartition(plan: seq<Move>)
    ensures multiset(MovedInto(plan, AnatDir)) + multiset(MovedInto(plan, FuncDir)) +
            multiset(MovedInto(plan, DwiDir)) + multiset(MovedInto(plan, MiscDir)) ==
            multiset(Sources(plan))
    decreases |plan|
  {
    if plan != [] {
      var rest := plan[1..];
      MovedIntoPartition(rest);
      assert Sources(plan) == [plan[0].source] + Sources(rest);
      MovedIntoHead(plan, AnatDir);
      MovedIntoHead(plan, FuncDir);
      MovedIntoHead(plan, DwiDir);
      MovedIntoHead(plan, MiscDir);
      HeadIntoPartition(plan);
      Regroup(multiset{plan[0].source},
        HeadInto(plan, AnatDir), HeadInto(plan, FuncDir), HeadInto(plan, DwiDir), HeadInto(plan, MiscDir),
        multiset(MovedInto(rest, AnatDir)), multiset(MovedInto(rest, FuncDir)),
        multiset(MovedInto(rest, DwiDir)), multiset(MovedInto(rest, MiscDir)));
    }
  }

  /** A folder no move names receives nothing. */
  lemma {:induction false} MovedIntoUnused(plan: seq<Move>, folder: Folder)
    requires forall i :: 0 <= i < |plan| ==> plan[i].folder != folder
    ensures MovedInto(plan, folder) == []
    decreases |plan|
  {
    if plan != [] {
      MovedIntoUnused(plan[1..], folder);
    }
  }

  /** Every file of the listing lands in exactly one of `anat/`, `func/` and
      `misc/`, and none in `dwi/`. */
  lemma {:induction false} PlanPartitionsListing(listing: seq<string>, sub: string, ses: string)
    ensures MovedInto(Plan(listing, sub, ses), DwiDir) == []
    ensures multiset(MovedInto(Plan(listing, sub, ses), AnatDir)) +
            multiset(MovedInto(Plan(listing, sub, ses), FuncDir)) +
            multiset(MovedInto(Plan(listing, sub, ses), MiscDir)) == multiset(listing)
  {
    var plan := Plan(listing, sub, ses);
    forall i | 0 <= i < |plan|
      ensures plan[i].folder != DwiDir && plan[i].source == listing[i]
    {
      RouteSpec(listing[i], sub, ses);
    }
    MovedIntoUnused(plan, DwiDir);
    MovedIntoPartition(plan);
    assert Sources(plan) == listing;
  }

  /** Two anatomical files are renamed to the same name (so the second rename
      replaces the first) exactly when they carry the same tag and the same
      kept extension. */
  lemma {:induction false} AnatNamesCollideIff(sub: string, ses: string, t1: AcqTag, t2: AcqTag, e1: string, e2: string)
    ensures AnatName(sub, ses, t1, e1) == AnatName(sub, ses, t2, e2) <==> t1 == t2 && e1 == e2
  {
    if AnatName(sub, ses, t1, e1) == AnatName(sub, ses, t2, e2) {
      var p := sub + "_" + ses + "_" + "acq" + "-";
      var q1, q2 := "_" + "T1w" + e1, "_" + "T1w" + e2;
      EntityNameSplit(sub, ses, "acq", TagName(t1), "T1w", e1);
      EntityNameSplit(sub, ses, "acq", TagName(t2), "T1w", e2);
      PrefixCancel(p, TagName(t1) + q1, TagName(t2) + q2);
      TagNameDetermines(t1, t2, q1, q2);
      PrefixCancel(TagName(t1), q1, q2);
      PrefixCancel("_" + "T1w", e1, e2);
    }
  }
}
