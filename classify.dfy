/** The ordered substring test `organizeFiles` applies to each converted file
    to decide which folder of the session it belongs in. */
module ScanKinds {
  import opened PyStr

  /** The four kinds of anatomical scan the script recognises. */
  datatype AcqTag = Mprage | Flash | Fl2d1 | GreSpoiled

  /** The substring of a file name that marks each anatomical scan. */
  function TagPattern(t: AcqTag): string {
    match t
    case Mprage => "MPRAGE"
    case Flash => "t1_flash"
    case Fl2d1 => "t1_fl2d"
    case GreSpoiled => "GRE_3D_Sag_Spoiled"
  }

  /** The `acq-` label the renamed anatomical file carries. */
  function TagName(t: AcqTag): string {
    match t
    case Mprage => "mprage"
    case Flash => "flash"
    case Fl2d1 => "fl2d1"
    case GreSpoiled => "gre_spoiled"
  }

  /** The substring that marks a functional (resting-state or task) run. */
  const FuncPattern := "fcMRI"

  datatype Kind = Anat(tag: AcqTag) | Func | Misc

  /** The `if`/`elif` chain: the first pattern found in the name decides. */
  function Classify(n: string): Kind {
    if Find(n, "MPRAGE") != -1 then Anat(Mprage)
    else if Find(n, "t1_flash") != -1 then Anat(Flash)
    else if Find(n, "t1_fl2d") != -1 then Anat(Fl2d1)
    else if Find(n, "GRE_3D_Sag_Spoiled") != -1 then Anat(GreSpoiled)
    else if Find(n, "fcMRI") != -1 then Func
    else Misc
  }

  /** What the chain decides: an anatomical tag only when its pattern occurs,
      MPRAGE ahead of everything else, functional only when no anatomical
      pattern occurs, and miscellaneous exactly when no pattern occurs. */
  lemma {:induction false} ClassifySpec(n: string)
    ensures Classify(n).Anat? ==> Contains(n, TagPattern(Classify(n).tag))
    ensures Contains(n, TagPattern(Mprage)) ==> Classify(n) == Anat(Mprage)
    ensures Classify(n) == Func ==> Contains(n, FuncPattern) && forall t :: !Contains(n, TagPattern(t))
    ensures Classify(n) == Misc <==> !Contains(n, FuncPattern) && forall t :: !Contains(n, TagPattern(t))
  {
    assert Find(n, "MPRAGE") != -1 <==> Contains(n, TagPattern(Mprage));
    assert Find(n, "t1_flash") != -1 <==> Contains(n, TagPattern(Flash));
    assert Find(n, "t1_fl2d") != -1 <==> Contains(n, TagPattern(Fl2d1));
    assert Find(n, "GRE_3D_Sag_Spoiled") != -1 <==> Contains(n, TagPattern(GreSpoiled));
    assert Find(n, "fcMRI") != -1 <==> Contains(n, FuncPattern);
  }

  /** Different tags have names that differ in their first or third letter,
      so no tag name followed by anything can be read as another. */
  lemma {:induction false} TagNameDetermines(t1: AcqTag, t2: AcqTag, q1: string, q2: string)
    requires TagName(t1) + q1 == TagName(t2) + q2
    ensures t1 == t2
  {
    var a, b := TagName(t1), TagName(t2);
    assert (a + q1)[0] == a[0] && (a + q1)[2] == a[2];
    assert (b + q2)[0] == b[0] && (b + q2)[2] == b[2];
  }

  /** The same decision written as a table of (pattern, kind) rules tried in
      order, with `Misc` when none applies. */
  datatype Rule = Rule(pattern: string, kind: Kind)

  const Rules: seq<Rule> := [
    Rule(TagPattern(Mprage), Anat(Mprage)),
    Rule(TagPattern(Flash), Anat(Flash)),
    Rule(TagPattern(Fl2d1), Anat(Fl2d1)),
    Rule(TagPattern(GreSpoiled), Anat(GreSpoiled)),
    Rule(FuncPattern, Func)
  ]

  function FirstMatch(rules: seq<Rule>, n: string): (k: Kind)
    ensures k == Misc || exists i :: 0 <= i < |rules| && rules[i].kind == k
    decreases |rules|
  {
    if rules == [] then Misc
    else if Contains(n, rules[0].pattern) then rules[0].kind
    else FirstMatch(rules[1..], n)
  }

  /** The rule that decides is the earliest one whose pattern occurs. */
  lemma {:induction false} FirstMatchIsEarliest(rules: seq<Rule>, n: string, i: nat)
    requires i < |rules| && Contains(n, rules[i].pattern)
    requires forall j :: 0 <= j < i ==> !Contains(n, rules[j].pattern)
    ensures FirstMatch(rules, n) == rules[i].kind
    decreases i
  {
    if i > 0 {
      FirstMatchIsEarliest(rules[1..], n, i - 1);
    }
  }

  /** When no pattern occurs the file is miscellaneous. */
  lemma {:induction false} FirstMatchNone(rules: seq<Rule>, n: string)
    requires forall j :: 0 <= j < |rules| ==> !Contains(n, rules[j].pattern)
    ensures FirstMatch(rules, n) == Misc
    decreases |rules|
  {
    if rules != [] {
      FirstMatchNone(rules[1..], n);
    }
  }

  /** The `if`/`elif` chain is the ordered rule table. */
  lemma {:induction false} ClassifyIsFirstMatch(n: string)
    ensures Classify(n) == FirstMatch(Rules, n)
  {
    assert Rules[0].pattern == TagPattern(Mprage) && Rules[1].pattern == TagPattern(Flash);
    assert Rules[2].pattern == TagPattern(Fl2d1) && Rules[3].pattern == TagPattern(GreSpoiled);
    assert Rules[4].pattern == FuncPattern;
    if Contains(n, TagPattern(Mprage)) {
      FirstMatchIsEarliest(Rules, n, 0);
    } else if Contains(n, TagPattern(Flash)) {
      FirstMatchIsEarliest(Rules, n, 1);
    } else if Contains(n, TagPattern(Fl2d1)) {
      FirstMatchIsEarliest(Rules, n, 2);
    } else if Contains(n, TagPattern(GreSpoiled)) {
      FirstMatchIsEarliest(Rules, n, 3);
    } else if Contains(n, FuncPattern) {
      FirstMatchIsEarliest(Rules, n, 4);
    } else {
      FirstMatchNone(Rules, n);
    }
  }
}
