/** The BIDS file names the script gives images, and the renames it performs. */
module Naming {
  import opened PyStr

  /** One `os.rename` (or `shutil.move`) of a file inside the session tree:
      both names are relative to the folder the file ends up in. */
  datatype Rename = Rename(source: string, dest: string)

  /** The files a sequence of renames starts from, in order. */
  function Sources(rs: seq<Rename>): (r: seq<string>)
    ensures |r| == |rs|
  {
    seq(|rs|, i requires 0 <= i < |rs| => rs[i].source)
  }

  /** `<sub>_<ses>_<key>-<value>_<suffix><ext>`, the shape of every name the
      script builds, such as `sub-10_ses-1_run-2_dwi.nii.gz`. */
  function EntityName(sub: string, ses: string, key: string, value: string, suffix: string, ext: string): string {
    sub + "_" + ses + "_" + key + "-" + value + "_" + suffix + ext
  }

  /** The name as the fixed part before the value, then the rest. */
  lemma {:induction false} EntityNameSplit(sub: string, ses: string, key: string, value: string, suffix: string, ext: string)
    ensures EntityName(sub, ses, key, value, suffix, ext) ==
      (sub + "_" + ses + "_" + key + "-") + (value + ("_" + suffix + ext))
  {
  }

  lemma {:induction false} PrefixCancel(a: string, x: string, y: string)
    requires a + x == a + y
    ensures x == y
  {
    assert x == (a + x)[|a|..];
    assert y == (a + y)[|a|..];
  }

  /** A field that holds no underscore is recovered from what follows it. */
  lemma {:induction false} FieldCancel(v1: string, v2: string, t1: string, t2: string)
    requires '_' !in v1 && '_' !in v2
    requires v1 + "_" + t1 == v2 + "_" + t2
    ensures v1 == v2 && t1 == t2
  {
    var s := v1 + "_" + t1;
    assert v1 + "_" + t1 == v1 + ['_'] + t1;
    assert v2 + "_" + t2 == v2 + ['_'] + t2;
    FindFirstChar(v1, '_', t1);
    FindFirstChar(v2, '_', t2);
    assert v1 == s[..|v1|];
    assert t1 == s[|v1| + 1..];
  }

  /** Names that agree on everything but their value and extension are equal
      exactly when those are, as long as the values hold no underscore. */
  lemma {:induction false} EntityNameInjective(sub: string, ses: string, key: string, v1: string, v2: string, suffix: string, e1: string, e2: string)
    requires '_' !in v1 && '_' !in v2
    ensures EntityName(sub, ses, key, v1, suffix, e1) == EntityName(sub, ses, key, v2, suffix, e2)
      <==> v1 == v2 && e1 == e2
  {
    var p := sub + "_" + ses + "_" + key + "-";
    EntityNameSplit(sub, ses, key, v1, suffix, e1);
    EntityNameSplit(sub, ses, key, v2, suffix, e2);
    if EntityName(sub, ses, key, v1, suffix, e1) == EntityName(sub, ses, key, v2, suffix, e2) {
      PrefixCancel(p, v1 + ("_" + suffix + e1), v2 + ("_" + suffix + e2));
      assert v1 + ("_" + suffix + e1) == v1 + "_" + (suffix + e1);
      assert v2 + ("_" + suffix + e2) == v2 + "_" + (suffix + e2);
      FieldCancel(v1, v2, suffix + e1, suffix + e2);
      PrefixCancel(suffix, e1, e2);
    }
  }
}
