/** Python's `s.replace(pat, with)`, built on the `split` and `join` of
    `PyStr`, with the properties the file-name planner relies on. */
module PyReplace {
  import opened PyStr

  /** Python's `s.replace(pat, with)` for a non-empty `pat`: every non-overlapping
      occurrence, scanned left to right, is replaced. Python scans exactly as
      `split` does, so the result is the pieces of the split joined by `with`. */
  function Replace(s: string, pat: string, with: string): (r: string)
    requires pat != []
    ensures !Contains(s, pat) ==> r == s
    ensures Contains(s, pat) ==>
      Find(s, pat) + |pat| <= |s| &&
      r == s[..Find(s, pat)] + with + Replace(s[Find(s, pat) + |pat|..], pat, with)
    decreases |s|
  {
    if Contains(s, pat) then
      JoinSplitAt(s, pat, with);
      Join(Split(s, pat), with)
    else
      Join(Split(s, pat), with)
  }

  /** Joining with the empty string keeps only characters that joining with any
      separator keeps. */
  lemma {:induction false} JoinEmptyChars(parts: seq<string>, sep: string, c: char)
    requires c in Join(parts, [])
    ensures c in Join(parts, sep)
    decreases |parts|
  {
    if |parts| > 1 {
      if c !in parts[0] {
        JoinEmptyChars(parts[1..], sep, c);
      }
    }
  }

  /** Deleting occurrences never introduces a character. */
  lemma {:induction false} DeleteKeepsChars(s: string, pat: string, c: char)
    requires pat != [] && c in Replace(s, pat, [])
    ensures c in s
  {
    JoinEmptyChars(Split(s, pat), pat, c);
    JoinSplit(s, pat);
  }

  /** Joining pieces that lack a character gives a string that lacks it. */
  lemma {:induction false} JoinFree(parts: seq<string>, c: char)
    requires forall k :: 0 <= k < |parts| ==> c !in parts[k]
    ensures c !in Join(parts, [])
    decreases |parts|
  {
    if |parts| > 1 {
      JoinFree(parts[1..], c);
    }
  }

  /** Deleting a one-character string leaves none of that character. */
  lemma {:induction false} DeleteCharRemovesAll(s: string, c: char)
    ensures c !in Replace(s, [c], [])
  {
    var parts := Split(s, [c]);
    forall k | 0 <= k < |parts| ensures c !in parts[k] {
      ContainsChar(parts[k], c);
    }
    JoinFree(parts, c);
  }

  /** Joining the pieces of a split with any separator, one piece at a time. */
  lemma {:induction false} JoinSplitAt(s: string, sep: string, with: string)
    requires sep != [] && Find(s, sep) != -1
    ensures Find(s, sep) + |sep| <= |s|
    ensures Join(Split(s, sep), with) ==
      s[..Find(s, sep)] + with + Join(Split(s[Find(s, sep) + |sep|..], sep), with)
  {
    SplitAt(s, sep);
    JoinCons(s[..Find(s, sep)], Split(s[Find(s, sep) + |sep|..], sep), with);
  }
}

