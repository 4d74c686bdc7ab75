/** Python's `os.path.splitext` on POSIX paths, and the script's `checkGz`,
    which turns its result into the extension a renamed image keeps. */
module PyPath {

  /** The index of the last `c` in `s`, or -1 (`str.rfind` for one character). */
  function LastIndexOf(s: string, c: char): (r: int)
    ensures -1 <= r < |s|
    ensures r >= 0 ==> s[r] == c
    ensures forall j :: r < j < |s| ==> s[j] != c
    decreases |s|
  {
    if s == [] then -1
    else if s[|s| - 1] == c then |s| - 1
    else LastIndexOf(s[..|s| - 1], c)
  }

  /** Whether the basename part between `from` and `to` holds a character
      other than a dot. */
  predicate HasNonDot(p: string, from: int, to: int)
    requires 0 <= from && to <= |p|
  {
    exists k :: from <= k < to && p[k] != '.'
  }

  /** `os.path.splitext(p)`: the root and the extension, which starts at the
      last dot of the basename unless only dots come before it there. */
  function SplitExt(p: string): (r: (string, string))
    ensures r.0 + r.1 == p
    ensures r.1 == [] || (r.1[0] == '.' && '.' !in r.1[1..] && '/' !in r.1)
    ensures r.1 != [] <==>
      LastIndexOf(p, '.') > LastIndexOf(p, '/') && HasNonDot(p, LastIndexOf(p, '/') + 1, LastIndexOf(p, '.'))
    ensures r.1 != [] ==> |r.0| == LastIndexOf(p, '.')
  {
    var sepIndex := LastIndexOf(p, '/');
    var dotIndex := LastIndexOf(p, '.');
    if dotIndex > sepIndex && HasNonDot(p, sepIndex + 1, dotIndex) then
      assert p[dotIndex..][1..] == p[dotIndex + 1..];
      (p[..dotIndex], p[dotIndex..])
    else (p, [])
  }

  /** `checkGz`: given the pair `splitext` returned, the extension to give the
      renamed file; a `.gz` extension stands for the whole `.nii.gz`. */
  function CheckGz(parts: (string, string)): (ext: string)
    ensures parts.1 != ".gz" ==> ext == parts.1
    ensures ext == ".nii.gz" <==> parts.1 in {".gz", ".nii.gz"}
  {
    if parts.1 == ".gz" then ".nii.gz" else parts.1
  }

  /** The extension the script gives a file named `n`. */
  function NiftiExt(n: string): string {
    CheckGz(SplitExt(n))
  }

  /** A file name ends in ".gz" after something that is not a dot. */
  predicate GzipName(n: string) {
    |n| >= 3 && n[|n| - 3..] == ".gz" && exists k :: 0 <= k < |n| - 3 && n[k] != '.'
  }

  /** For a file name (no directory part), the kept extension is `.nii.gz`
      exactly when the name is a gzip name, and otherwise it is what
      `splitext` split off; either way it is empty or starts with a dot. */
  lemma {:induction false} NiftiExtOfName(n: string)
    requires '/' !in n
    ensures NiftiExt(n) == ".nii.gz" <==> GzipName(n)
    ensures !GzipName(n) ==> NiftiExt(n) == SplitExt(n).1
    ensures NiftiExt(n) == [] || NiftiExt(n)[0] == '.'
  {
    var (root, ext) := SplitExt(n);
    assert LastIndexOf(n, '/') == -1;
    var dotIndex := LastIndexOf(n, '.');
    assert ext != ".nii.gz";
    if ext == ".gz" {
      assert n[|n| - 3..] == ext;
      assert dotIndex == |n| - 3;
      assert GzipName(n);
    }
    if GzipName(n) {
      assert n[|n| - 3] == '.' && n[|n| - 2] == 'g' && n[|n| - 1] == 'z';
      assert dotIndex == |n| - 3;
      var k :| 0 <= k < |n| - 3 && n[k] != '.';
      assert HasNonDot(n, 0, dotIndex);
      assert ext == n[|n| - 3..];
    }
  }
}
