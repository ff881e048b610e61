/** Sequence helpers shared by the models: an Option type, duplicate-free
    sequences and the "append if not already present" idiom that Python code
    writes as `if not x in xs: xs.append(x)`. */
module Lists {

  datatype Option<T> = None | Some(value: T)

  /** No element occurs twice. */
  predicate NoDup<T(==)>(s: seq<T>) {
    forall i, j :: 0 <= i < j < |s| ==> s[i] != s[j]
  }

  /** Index of the first occurrence of `y` in `xs` (Python's `xs.index(y)`). */
  function FirstIndex<T(==)>(xs: seq<T>, y: T): (r: nat)
    requires y in xs
    ensures r < |xs| && xs[r] == y
    ensures forall k :: 0 <= k < r ==> xs[k] != y
  {
    if xs[0] == y then 0 else 1 + FirstIndex(xs[1..], y)
  }

  /** The list `acc` after `for x in xs: if not x in acc: acc.append(x)`. */
  function AddUnseen<T(==)>(acc: seq<T>, xs: seq<T>): seq<T>
    decreases |xs|
  {
    if xs == [] then acc
    else AddUnseen(if xs[0] in acc then acc else acc + [xs[0]], xs[1..])
  }

  /** What the loop keeps: the old list is a prefix, nothing is lost, nothing
      foreign is added, and the appended part holds only unseen elements. */
  lemma {:induction false} AddUnseenContents<T>(acc: seq<T>, xs: seq<T>)
    ensures var r := AddUnseen(acc, xs);
      && |acc| <= |r| && r[..|acc|] == acc
      && (forall y :: y in r <==> y in acc || y in xs)
      && (forall i :: |acc| <= i < |r| ==> r[i] !in acc && r[i] in xs)
    decreases |xs|
  {
    if xs != [] {
      var acc' := if xs[0] in acc then acc else acc + [xs[0]];
      AddUnseenContents(acc', xs[1..]);
      var r := AddUnseen(acc', xs[1..]);
      assert r[..|acc'|] == acc';
      assert r[..|acc|] == acc' [..|acc|];
      forall i | |acc| <= i < |r|
        ensures r[i] !in acc && r[i] in xs
      {
        if i < |acc'| {
          assert r[i] == acc'[i];
        }
      }
      forall y
        ensures y in r <==> y in acc || y in xs
      {
        assert xs == [xs[0]] + xs[1..];
      }
    }
  }

  /** The loop never creates a duplicate. */
  lemma {:induction false} AddUnseenNoDup<T>(acc: seq<T>, xs: seq<T>)
    requires NoDup(acc)
    ensures NoDup(AddUnseen(acc, xs))
    decreases |xs|
  {
    if xs != [] {
      var acc' := if xs[0] in acc then acc else acc + [xs[0]];
      assert NoDup(acc');
      AddUnseenNoDup(acc', xs[1..]);
    }
  }

  /** The appended elements keep the order of their first occurrence in `xs`. */
  lemma {:induction false} AddUnseenFirstSeenOrder<T>(acc: seq<T>, xs: seq<T>)
    ensures var r := AddUnseen(acc, xs);
      forall i, j :: |acc| <= i < j < |r| ==>
        r[i] in xs && r[j] in xs && FirstIndex(xs, r[i]) < FirstIndex(xs, r[j])
    decreases |xs|
  {
    var r := AddUnseen(acc, xs);
    AddUnseenContents(acc, xs);
    if xs != [] {
      var acc' := if xs[0] in acc then acc else acc + [xs[0]];
      assert r == AddUnseen(acc', xs[1..]);
      AddUnseenFirstSeenOrder(acc', xs[1..]);
      AddUnseenContents(acc', xs[1..]);
      forall i, j | |acc| <= i < j < |r|
        ensures r[i] in xs && r[j] in xs && FirstIndex(xs, r[i]) < FirstIndex(xs, r[j])
      {
        assert r[j] != xs[0] by {
          if xs[0] in acc {
            assert r[j] !in acc;
          } else {
            assert r[|acc|] == acc'[|acc|] == xs[0];
          }
        }
        if i >= |acc'| {
          assert r[i] != xs[0];
        }
      }
    }
  }

  /** One more element: it is appended exactly when it is not there yet. */
  lemma {:induction false} AddUnseenSnoc<T>(acc: seq<T>, xs: seq<T>, x: T)
    ensures var r := AddUnseen(acc, xs);
      AddUnseen(acc, xs + [x]) == if x in r then r else r + [x]
    decreases |xs|
  {
    if xs == [] {
      assert [x][1..] == [];
    } else {
      var acc' := if xs[0] in acc then acc else acc + [xs[0]];
      assert (xs + [x])[0] == xs[0] && (xs + [x])[1..] == xs[1..] + [x];
      AddUnseenSnoc(acc', xs[1..], x);
    }
  }

  /** Running the loop over `xs + ys` is running it over `xs`, then over `ys`. */
  lemma {:induction false} AddUnseenAppend<T>(acc: seq<T>, xs: seq<T>, ys: seq<T>)
    ensures AddUnseen(acc, xs + ys) == AddUnseen(AddUnseen(acc, xs), ys)
    decreases |xs|
  {
    if xs == [] {
      assert xs + ys == ys;
    } else {
      var acc' := if xs[0] in acc then acc else acc + [xs[0]];
      assert (xs + ys)[0] == xs[0] && (xs + ys)[1..] == xs[1..] + ys;
      AddUnseenAppend(acc', xs[1..], ys);
    }
  }

  /** Concatenation of a sequence of sequences, in order. */
  function Flatten<T(!new)>(xss: seq<seq<T>>): (r: seq<T>)
    ensures forall y :: y in r <==> exists k :: 0 <= k < |xss| && y in xss[k]
  {
    if xss == [] then []
    else xss[0] + Flatten(xss[1..])
  }

  lemma {:induction false} FlattenSnoc<T(!new)>(xss: seq<seq<T>>, xs: seq<T>)
    ensures Flatten(xss + [xs]) == Flatten(xss) + xs
    decreases |xss|
  {
    if xss == [] {
      assert [xs][1..] == [];
    } else {
      assert (xss + [xs])[1..] == xss[1..] + [xs];
      FlattenSnoc(xss[1..], xs);
    }
  }

  /** Python's `range(lo, hi)`: the integers from `lo` up to, not including,
      `hi`; empty when `hi <= lo`. */
  function Range(lo: int, hi: int): (r: seq<int>)
    ensures |r| == if hi > lo then hi - lo else 0
    ensures forall i :: 0 <= i < |r| ==> r[i] == lo + i
    decreases hi - lo
  {
    if hi <= lo then [] else [lo] + Range(lo + 1, hi)
  }

}
