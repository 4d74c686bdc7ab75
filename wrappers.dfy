/** Failure-carrying values: the model's stand-in for the exceptions the script raises. */
module Wrappers {

  datatype Option<+T> = None | Some(value: T)

  datatype Result<+R, +E> = Ok(value: R) | Err(error: E)

  /** The values of a sequence of results, or the error of the first that
      failed: what a loop that raises on its first bad item leaves behind. */
  function AllOk<T, E>(rs: seq<Result<T, E>>): (r: Result<seq<T>, E>)
    ensures r.Ok? ==> |r.value| == |rs|
    decreases |rs|
  {
    if rs == [] then Ok([])
    else if rs[0].Err? then Err(rs[0].error)
    else
      var tail := AllOk(rs[1..]);
      if tail.Err? then Err(tail.error) else Ok([rs[0].value] + tail.value)
  }

  /** `AllOk` succeeds exactly when every item does, and then holds their
      values; otherwise it holds the error of the first item that failed. */
  lemma {:induction false} AllOkSpec<T, E>(rs: seq<Result<T, E>>)
    ensures AllOk(rs).Ok? <==> forall i :: 0 <= i < |rs| ==> rs[i].Ok?
    ensures AllOk(rs).Ok? ==> forall i :: 0 <= i < |rs| ==> rs[i] == Ok(AllOk(rs).value[i])
    ensures AllOk(rs).Err? ==> exists i :: 0 <= i < |rs| && rs[i] == Err(AllOk(rs).error) &&
                                          forall j :: 0 <= j < i ==> rs[j].Ok?
    decreases |rs|
  {
    if rs != [] && rs[0].Ok? {
      AllOkSpec(rs[1..]);
      assert forall j :: 1 <= j < |rs| ==> rs[1..][j - 1] == rs[j];
      if AllOk(rs[1..]).Err? {
        var i :| 0 <= i < |rs[1..]| && rs[1..][i] == Err(AllOk(rs[1..]).error) &&
                 forall j :: 0 <= j < i ==> rs[1..][j].Ok?;
        assert rs[i + 1] == Err(AllOk(rs).error);
      }
    }
  }

  /** A loop that computes `f` of every item and stops at the first error
      fails exactly when some item fails. */
  lemma {:induction false} AllOkOfItems<T, R, E>(rs: seq<Result<R, E>>, xs: seq<T>, f: T -> Result<R, E>)
    requires |rs| == |xs| && forall i :: 0 <= i < |xs| ==> rs[i] == f(xs[i])
    ensures AllOk(rs).Err? <==> exists x :: x in xs && f(x).Err?
  {
    AllOkSpec(rs);
    if AllOk(rs).Err? {
      var i :| 0 <= i < |rs| && rs[i] == Err(AllOk(rs).error);
      assert xs[i] in xs && f(xs[i]).Err?;
    } else {
      forall x | x in xs ensures f(x).Ok? {
        var i :| 0 <= i < |xs| && xs[i] == x;
        assert rs[i].Ok?;
      }
    }
  }

  /** One more item: the loop either had already stopped, stops now, or
      keeps this item's value. */
  lemma {:induction false} AllOkSnoc<T, E>(rs: seq<Result<T, E>>, x: Result<T, E>)
    ensures AllOk(rs + [x]) ==
      if AllOk(rs).Err? then AllOk(rs)
      else if x.Err? then Err(x.error)
      else Ok(AllOk(rs).value + [x.value])
    decreases |rs|
  {
    if rs == [] {
      assert rs + [x] == [x] && [x][1..] == [];
      assert AllOk([x][1..]) == Ok([]);
      if x.Ok? {
        assert [x.value] + [] == [] + [x.value];
      }
    } else {
      assert (rs + [x])[1..] == rs[1..] + [x];
      AllOkSnoc(rs[1..], x);
      if AllOk(rs).Ok? && x.Ok? {
        var vs := AllOk(rs[1..]).value;
        assert [rs[0].value] + (vs + [x.value]) == [rs[0].value] + vs + [x.value];
      }
    }
  }

  /** Once an error is reached, the items after it do not matter. */
  lemma {:induction false} AllOkStops<T, E>(rs: seq<Result<T, E>>, ts: seq<Result<T, E>>)
    requires AllOk(rs).Err?
    ensures AllOk(rs + ts) == AllOk(rs)
    decreases |rs|
  {
    assert rs != [];
    if rs[0].Ok? {
      assert (rs + ts)[1..] == rs[1..] + ts;
      AllOkStops(rs[1..], ts);
    }
  }
}

/** Facts about slices of any sequence, stated once so that proofs about
    sequences of expensive values need not rediscover them. */
module SeqFacts {

  lemma TakeSnoc<T>(s: seq<T>, i: int)
    requires 0 <= i < |s|
    ensures s[..i + 1] == s[..i] + [s[i]]
  {
  }

  lemma TakeDrop<T>(s: seq<T>, i: int)
    requires 0 <= i <= |s|
    ensures s[..i] + s[i..] == s
  {
  }

  lemma TakeTake<T>(s: seq<T>, i: int, j: int)
    requires 0 <= i <= j <= |s|
    ensures s[..j][..i] == s[..i]
  {
  }

  lemma TakeAll<T>(s: seq<T>)
    ensures s[..|s|] == s
  {
  }
}
