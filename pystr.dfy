/** Python's `str.find`, `str.split`, `str.join` and `list.sort` on
    strings, written out as functions over `seq<char>` with the properties the
    file-name planner relies on. */
module PyStr {
  import opened Wrappers

  /** `p` occurs in `s` starting at index `i`. */
  predicate OccursAt(s: string, p: string, i: int) {
    0 <= i <= |s| && p <= s[i..]
  }

  /** Python's `p in s`. */
  predicate Contains(s: string, p: string)
    decreases |s|
  {
    |p| <= |s| && (p <= s || Contains(s[1..], p))
  }

  lemma {:induction false} OccursShift(s: string, p: string, j: int)
    requires s != [] && 0 <= j
    ensures OccursAt(s, p, j + 1) <==> OccursAt(s[1..], p, j)
  {
    if j + 1 + |p| <= |s| {
      assert s[1..][j..j + |p|] == s[j + 1..j + 1 + |p|];
    }
  }

  /** Python's `s.find(p)`: the lowest index at which `p` occurs, or -1. */
  function Find(s: string, p: string): (r: int)
    ensures -1 <= r <= |s|
    ensures r == -1 <==> !Contains(s, p)
    ensures r >= 0 ==> OccursAt(s, p, r) && forall j :: 0 <= j < r ==> !OccursAt(s, p, j)
    decreases |s|
  {
    if |s| < |p| then
      -1
    else if p <= s then
      assert OccursAt(s, p, 0);
      0
    else
      var r := Find(s[1..], p);
      assert Contains(s, p) <==> Contains(s[1..], p);
      if r == -1 then
        -1
      else
        OccursShift(s, p, r);
        assert !OccursAt(s, p, 0) by {
          assert s[0..] == s;
        }
        assert forall j :: 0 < j < r + 1 ==> !OccursAt(s, p, j) by {
          forall j | 0 < j < r + 1 ensures !OccursAt(s, p, j) {
            OccursShift(s, p, j - 1);
          }
        }
        r + 1
  }

  /** A found occurrence fits inside the string. */
  lemma {:induction false} FindBound(s: string, p: string)
    requires Find(s, p) != -1
    ensures 0 <= Find(s, p) && Find(s, p) + |p| <= |s|
  {
  }

  /** Find reports an occurrence at or before any known one. */
  lemma {:induction false} OccurrenceFound(s: string, p: string, i: int)
    requires OccursAt(s, p, i)
    ensures Contains(s, p) && 0 <= Find(s, p) <= i
  {
    if !Contains(s, p) {
      NoOccurrence(s, p, i);
    }
  }

  /** A string contains `p` exactly when `p` occurs at some index. */
  lemma {:induction false} ContainsIffOccurs(s: string, p: string)
    ensures Contains(s, p) <==> exists i :: OccursAt(s, p, i)
  {
    var r := Find(s, p);
    if !Contains(s, p) {
      forall i | OccursAt(s, p, i) ensures false {
        NoOccurrence(s, p, i);
      }
    }
  }

  lemma {:induction false} NoOccurrence(s: string, p: string, i: int)
    requires !Contains(s, p)
    ensures !OccursAt(s, p, i)
    decreases |s|
  {
    if 0 < i && |p| <= |s| {
      NoOccurrence(s[1..], p, i - 1);
      OccursShift(s, p, i - 1);
    }
  }

  /** For a one-character pattern, Python's `p in s` is membership of that character. */
  lemma {:induction false} ContainsChar(s: string, c: char)
    ensures Contains(s, [c]) <==> c in s
    decreases |s|
  {
    if s != [] {
      ContainsChar(s[1..], c);
      assert s == [s[0]] + s[1..];
    }
  }

  /** An occurrence inside a prefix is an occurrence in the whole string. */
  lemma {:induction false} OccursInPrefix(s: string, p: string, n: nat, j: int)
    requires n <= |s| && OccursAt(s[..n], p, j)
    ensures OccursAt(s, p, j) && j + |p| <= n
  {
    assert s[..n][j..j + |p|] == s[j..j + |p|];
  }

  /** An occurrence inside a suffix is an occurrence in the whole string. */
  lemma {:induction false} OccursInSuffix(s: string, p: string, n: nat, j: int)
    requires n <= |s| && OccursAt(s[n..], p, j)
    ensures OccursAt(s, p, n + j)
  {
    assert s[n..][j..j + |p|] == s[n + j..n + j + |p|];
  }

  /** Python's `s.split(sep)` for a non-empty separator: the pieces between the
      non-overlapping occurrences of `sep`, scanned left to right. */
  function Split(s: string, sep: string): (parts: seq<string>)
    requires sep != []
    ensures |parts| >= 1
    ensures |parts| == 1 <==> !Contains(s, sep)
    ensures forall k :: 0 <= k < |parts| ==> !Contains(parts[k], sep)
    decreases |s|
  {
    var i := Find(s, sep);
    if i == -1 then
      [s]
    else
      assert !Contains(s[..i], sep) by {
        var j := Find(s[..i], sep);
        if j != -1 {
          OccursInPrefix(s, sep, i, j);
        }
      }
      [s[..i]] + Split(s[i + |sep|..], sep)
  }

  /** Python's `sep.join(parts)`. */
  function Join(parts: seq<string>, sep: string): (r: string)
    ensures |parts| == 1 ==> r == parts[0]
    decreases |parts|
  {
    if parts == [] then []
    else if |parts| == 1 then parts[0]
    else parts[0] + sep + Join(parts[1..], sep)
  }

  /** One step of `split`: the piece before the first separator, then the rest. */
  lemma {:induction false} SplitAt(s: string, sep: string)
    requires sep != [] && Find(s, sep) != -1
    ensures var i := Find(s, sep);
      Split(s, sep) == [s[..i]] + Split(s[i + |sep|..], sep)
  {
    FindBound(s, sep);
  }

  lemma {:induction false} JoinCons(a: string, tail: seq<string>, sep: string)
    requires tail != []
    ensures Join([a] + tail, sep) == a + sep + Join(tail, sep)
  {
    assert ([a] + tail)[1..] == tail;
  }

  /** A string is the text before an occurrence, the occurrence, and the text after. */
  lemma {:induction false} AroundOccurrence(s: string, p: string, i: int)
    requires OccursAt(s, p, i)
    ensures s == s[..i] + p + s[i + |p|..]
  {
    assert s == s[..i] + s[i..i + |p|] + s[i + |p|..];
  }

  /** Splitting and joining on the same separator gives back the string. */
  lemma {:induction false} JoinSplit(s: string, sep: string)
    requires sep != []
    ensures Join(Split(s, sep), sep) == s
    decreases |s|
  {
    var i := Find(s, sep);
    if i == -1 {
      assert Split(s, sep) == [s];
    } else {
      var rest := s[i + |sep|..];
      JoinSplit(rest, sep);
      SplitAt(s, sep);
      JoinCons(s[..i], Split(rest, sep), sep);
      AroundOccurrence(s, sep, i);
    }
  }

  /** The first occurrence of a character is right after a prefix that lacks it. */
  lemma {:induction false} FindFirstChar(a: string, c: char, b: string)
    requires c !in a
    ensures Find(a + [c] + b, [c]) == |a|
  {
    var s := a + [c] + b;
    assert s[|a|..|a| + 1] == [c];
    OccurrenceFound(s, [c], |a|);
    forall j | 0 <= j < |a| ensures !OccursAt(s, [c], j) {
      assert s[j] == a[j];
    }
  }

  /** With a one-character separator absent from every part, splitting the joined
      string gives back the parts. */
  lemma {:induction false} SplitJoin(parts: seq<string>, c: char)
    requires parts != []
    requires forall k :: 0 <= k < |parts| ==> c !in parts[k]
    ensures Split(Join(parts, [c]), [c]) == parts
    decreases |parts|
  {
    var s := Join(parts, [c]);
    if |parts| == 1 {
      assert s == parts[0];
      ContainsChar(s, c);
      assert Split(s, [c]) == [s];
      assert parts == [s];
    } else {
      var a, rest := parts[0], Join(parts[1..], [c]);
      assert parts == [a] + parts[1..];
      JoinCons(a, parts[1..], [c]);
      assert s == a + [c] + rest;
      FindFirstChar(a, c, rest);
      SplitAt(s, [c]);
      assert s[..|a|] == a && s[|a| + 1..] == rest;
      SplitJoin(parts[1..], c);
      assert Split(s, [c]) == [a] + Split(rest, [c]);
    }
  }

  /** Python's `s.split(sep)[0]`: the text before the first `sep`. */
  function BeforeFirst(s: string, sep: string): (r: string)
    requires sep != []
    ensures r <= s
    ensures !Contains(r, sep)
    ensures r == s || OccursAt(s, sep, |r|)
  {
    Split(s, sep)[0]
  }

  /** The first piece of a split, and so `split(sep)[0]`, is cut at the first
      occurrence of the separator, as `find` reports it. */
  lemma {:induction false} FirstPieceAtFind(s: string, sep: string)
    requires sep != []
    ensures Contains(s, sep) ==> Split(s, sep)[0] == s[..Find(s, sep)]
    ensures Find(s, sep) == (if BeforeFirst(s, sep) == s then -1 else |BeforeFirst(s, sep)|)
  {
    if Contains(s, sep) {
      FindBound(s, sep);
      SplitAt(s, sep);
    }
  }

  /** The second piece of a split is the text that follows the first separator,
      cut at the next separator. */
  lemma {:induction false} SecondPieceIsBeforeFirst(s: string, sep: string)
    requires sep != [] && Contains(s, sep)
    ensures Find(s, sep) + |sep| <= |s|
    ensures Split(s, sep)[1] == BeforeFirst(s[Find(s, sep) + |sep|..], sep)
  {
    FindBound(s, sep);
    SplitAt(s, sep);
  }

  /** Python's `s.split(sep)[1]`: None where Python raises IndexError. */
  function SecondField(s: string, sep: string): (r: Option<string>)
    requires sep != []
    ensures r.Some? <==> Contains(s, sep)
    ensures r.Some? ==> !Contains(r.value, sep)
    ensures r.Some? ==>
      Find(s, sep) + |sep| <= |s| && r.value == BeforeFirst(s[Find(s, sep) + |sep|..], sep)
  {
    var parts := Split(s, sep);
    if |parts| < 2 then None
    else
      SecondPieceIsBeforeFirst(s, sep);
      Some(parts[1])
  }

  /** The text before the first `c` of `k + [c] + t`, where `k` has no `c`,
      is `k`. */
  lemma {:induction false} BeforeFirstChar(k: string, c: char, t: string)
    requires c !in k
    ensures BeforeFirst(k + [c] + t, [c]) == k
  {
    var s := k + [c] + t;
    var r := BeforeFirst(s, [c]);
    ContainsChar(r, c);
    assert s[|k|] == c;
    assert r == s[..|k|];
  }

  // ---- ordering: Python compares strings code point by code point ----

  /** Python's `a <= b` on strings. */
  predicate LexLe(a: string, b: string)
    decreases |a|
  {
    a == [] || (b != [] && (a[0] < b[0] || (a[0] == b[0] && LexLe(a[1..], b[1..]))))
  }

  lemma {:induction false} LexLeTotal(a: string, b: string)
    ensures LexLe(a, b) || LexLe(b, a)
    decreases |a|
  {
    if a != [] && b != [] && a[0] == b[0] {
      LexLeTotal(a[1..], b[1..]);
    }
  }

  lemma {:induction false} LexLeAntisymmetric(a: string, b: string)
    requires LexLe(a, b) && LexLe(b, a)
    ensures a == b
    decreases |a|
  {
    if a != [] {
      LexLeAntisymmetric(a[1..], b[1..]);
      assert a == [a[0]] + a[1..] && b == [b[0]] + b[1..];
    }
  }

  /** A common prefix does not change the order. */
  lemma {:induction false} LexLeCommon(p: string, x: string, y: string)
    requires LexLe(x, y)
    ensures LexLe(p + x, p + y)
    decreases |p|
  {
    if p == [] {
      assert p + x == x && p + y == y;
    } else {
      LexLeCommon(p[1..], x, y);
      assert (p + x)[0] == (p + y)[0];
      assert (p + x)[1..] == p[1..] + x && (p + y)[1..] == p[1..] + y;
    }
  }

  /** The list is in the order `list.sort()` leaves it in. */
  predicate Sorted(s: seq<string>)
    decreases |s|
  {
    |s| < 2 || (LexLe(s[0], s[1]) && Sorted(s[1..]))
  }

  function Insert(x: string, s: seq<string>): (r: seq<string>)
    requires Sorted(s)
    ensures Sorted(r)
    ensures multiset(r) == multiset(s) + multiset{x}
    ensures r[0] == x || (s != [] && r[0] == s[0])
    decreases |s|
  {
    if s == [] || LexLe(x, s[0]) then
      [x] + s
    else
      LexLeTotal(x, s[0]);
      assert s == [s[0]] + s[1..];
      [s[0]] + Insert(x, s[1..])
  }

  /** Python's `files.sort()` on a list of names, as a value. */
  function SortNames(s: seq<string>): (r: seq<string>)
    ensures Sorted(r)
    ensures multiset(r) == multiset(s)
    decreases |s|
  {
    if s == [] then []
    else
      assert s == [s[0]] + s[1..];
      Insert(s[0], SortNames(s[1..]))
  }

  /** Sorting keeps exactly the names it was given. */
  lemma {:induction false} SortNamesMembers(s: seq<string>)
    ensures forall f :: f in SortNames(s) <==> f in s
  {
    var r := SortNames(s);
    assert forall f :: f in r <==> f in multiset(r);
    assert forall f :: f in s <==> f in multiset(s);
  }

  /** Sorting a list that is already sorted changes nothing. */
  lemma {:induction false} SortNamesOfSorted(s: seq<string>)
    requires Sorted(s)
    ensures SortNames(s) == s
    decreases |s|
  {
    if s != [] {
      SortNamesOfSorted(s[1..]);
      assert s == [s[0]] + s[1..];
    }
  }

}
