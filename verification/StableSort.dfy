/** Sorting by a key in descending order, keeping the order of equal keys. */
module StableSort {

  function Insert<T>(ys: seq<T>, x: T, key: T -> real): seq<T> {
    if ys == [] then [x]
    else
      var n := |ys| - 1;
      if key(ys[n]) >= key(x) then ys + [x] else Insert(ys[..n], x, key) + [ys[n]]
  }

  function SortDescending<T>(xs: seq<T>, key: T -> real): seq<T> {
    if xs == [] then [] else Insert(SortDescending(xs[..|xs| - 1], key), xs[|xs| - 1], key)
  }

  predicate Distinct<T(==)>(xs: seq<T>) {
    forall i, j :: 0 <= i < j < |xs| ==> xs[i] != xs[j]
  }

  /** a stands before b in xs. */
  ghost predicate Before<T>(xs: seq<T>, a: T, b: T) {
    exists i, j :: 0 <= i < j < |xs| && xs[i] == a && xs[j] == b
  }

  /** a ranks above b: by key, and among equal keys by their places in xs. */
  ghost predicate Above<T>(xs: seq<T>, key: T -> real, a: T, b: T) {
    key(a) > key(b) || (key(a) == key(b) && Before(xs, a, b))
  }

  ghost predicate Ranked<T>(xs: seq<T>, key: T -> real, ys: seq<T>) {
    forall i, j :: 0 <= i < j < |ys| ==> Above(xs, key, ys[i], ys[j])
  }

  /** The stable sort of xs, told by what it is and not by how it is found. */
  ghost predicate IsStableSort<T>(xs: seq<T>, key: T -> real, ys: seq<T>) {
    multiset(ys) == multiset(xs) && Ranked(xs, key, ys)
  }

  lemma SameElements<T>(xs: seq<T>, ys: seq<T>)
    requires multiset(xs) == multiset(ys)
    ensures |xs| == |ys|
    ensures forall x :: x in xs ==> x in ys
    ensures forall y :: y in ys ==> y in xs
  {
    assert |multiset(xs)| == |xs| && |multiset(ys)| == |ys|;
    assert forall x :: x in xs ==> x in multiset(xs);
    assert forall y :: y in ys ==> y in multiset(ys);
  }

  lemma {:induction false} InsertKeeps<T>(ys: seq<T>, x: T, key: T -> real)
    ensures multiset(Insert(ys, x, key)) == multiset(ys) + multiset{x}
  {
    if ys != [] {
      var n := |ys| - 1;
      assert ys == ys[..n] + [ys[n]];
      if key(ys[n]) < key(x) {
        InsertKeeps(ys[..n], x, key);
      }
    }
  }

  lemma BeforeGrows<T>(xs: seq<T>, x: T, a: T, b: T)
    ensures Before(xs, a, b) ==> Before(xs + [x], a, b)
    ensures a in xs ==> Before(xs + [x], a, x)
  {
    var more := xs + [x];
    if Before(xs, a, b) {
      var i, j :| 0 <= i < j < |xs| && xs[i] == a && xs[j] == b;
      assert more[i] == a && more[j] == b;
    }
    if a in xs {
      var i :| 0 <= i < |xs| && xs[i] == a;
      assert more[i] == a && more[|xs|] == x;
    }
  }

  lemma {:induction false} InsertRanks<T>(xs: seq<T>, ys: seq<T>, x: T, key: T -> real)
    requires Ranked(xs, key, ys) && forall y :: y in ys ==> y in xs
    ensures Ranked(xs + [x], key, Insert(ys, x, key))
  {
    var more := xs + [x];
    if ys != [] {
      var n := |ys| - 1;
      var zs := Insert(ys, x, key);
      forall i, j | 0 <= i < j < |ys| ensures Above(more, key, ys[i], ys[j]) {
        BeforeGrows(xs, x, ys[i], ys[j]);
      }
      if key(ys[n]) >= key(x) {
        forall i | 0 <= i < |ys| ensures Above(more, key, ys[i], x) {
          assert i < n ==> Above(xs, key, ys[i], ys[n]);
          BeforeGrows(xs, x, ys[i], x);
        }
      } else {
        var front := Insert(ys[..n], x, key);
        InsertRanks(xs, ys[..n], x, key);
        InsertKeeps(ys[..n], x, key);
        forall i | 0 <= i < |front| ensures Above(more, key, front[i], ys[n]) {
          assert front[i] in multiset(front);
          assert front[i] == x || front[i] in ys[..n];
        }
        assert zs == front + [ys[n]];
      }
    }
  }

  lemma {:induction false} SortCorrect<T>(xs: seq<T>, key: T -> real)
    ensures IsStableSort(xs, key, SortDescending(xs, key))
  {
    hide Insert, Above;
    if xs != [] {
      var rest, x := xs[..|xs| - 1], xs[|xs| - 1];
      var ys := SortDescending(rest, key);
      SortCorrect(rest, key);
      SameElements(ys, rest);
      InsertKeeps(ys, x, key);
      InsertRanks(rest, ys, x, key);
      assert xs == rest + [x];
    }
  }

  lemma BeforeIndices<T>(xs: seq<T>, i: nat, j: nat)
    requires Distinct(xs) && i < |xs| && j < |xs|
    ensures Before(xs, xs[i], xs[j]) ==> i < j
  {
    if Before(xs, xs[i], xs[j]) {
      var k, l :| 0 <= k < l < |xs| && xs[k] == xs[i] && xs[l] == xs[j];
      assert k == i && l == j;
    }
  }

  lemma AboveAsymmetric<T>(xs: seq<T>, key: T -> real, a: T, b: T)
    requires Distinct(xs)
    ensures !(Above(xs, key, a, b) && Above(xs, key, b, a))
  {
    if Before(xs, a, b) {
      var i, j :| 0 <= i < j < |xs| && xs[i] == a && xs[j] == b;
      BeforeIndices(xs, j, i);
    }
  }

  lemma HeadAbove<T>(xs: seq<T>, key: T -> real, ys: seq<T>, y: T)
    requires Ranked(xs, key, ys) && y in ys
    ensures ys[0] == y || Above(xs, key, ys[0], y)
  {
  }

  lemma SameHead<T>(xs: seq<T>, key: T -> real, ys: seq<T>, zs: seq<T>)
    requires Distinct(xs) && Ranked(xs, key, ys) && Ranked(xs, key, zs)
    requires multiset(ys) == multiset(zs) && ys != [] && zs != []
    ensures ys[0] == zs[0]
  {
    SameElements(ys, zs);
    assert ys[0] in ys && zs[0] in zs;
    HeadAbove(xs, key, ys, zs[0]);
    HeadAbove(xs, key, zs, ys[0]);
    AboveAsymmetric(xs, key, ys[0], zs[0]);
  }

  lemma TailRanked<T>(xs: seq<T>, key: T -> real, ys: seq<T>)
    requires Ranked(xs, key, ys) && ys != []
    ensures Ranked(xs, key, ys[1..]) && multiset(ys[1..]) == multiset(ys) - multiset{ys[0]}
  {
    assert ys == [ys[0]] + ys[1..];
  }

  lemma SameTail<T>(xs: seq<T>, key: T -> real, ys: seq<T>, zs: seq<T>)
    requires Distinct(xs) && Ranked(xs, key, ys) && Ranked(xs, key, zs)
    requires multiset(ys) == multiset(zs) && ys != []
    ensures zs != [] && ys[0] == zs[0]
    ensures Ranked(xs, key, ys[1..]) && Ranked(xs, key, zs[1..]) && multiset(ys[1..]) == multiset(zs[1..])
  {
    hide Ranked, Distinct;
    SameElements(ys, zs);
    SameHead(xs, key, ys, zs);
    TailRanked(xs, key, ys);
    TailRanked(xs, key, zs);
  }

  lemma {:induction false} RankedUnique<T>(xs: seq<T>, key: T -> real, ys: seq<T>, zs: seq<T>)
    requires Distinct(xs) && Ranked(xs, key, ys) && Ranked(xs, key, zs)
    requires multiset(ys) == multiset(zs)
    ensures ys == zs
  {
    hide Ranked, Distinct;
    if ys == [] {
      SameElements(ys, zs);
    } else {
      SameTail(xs, key, ys, zs);
      RankedUnique(xs, key, ys[1..], zs[1..]);
      assert ys == [ys[0]] + ys[1..] && zs == [zs[0]] + zs[1..];
    }
  }

  /** A list of different elements has one stable sort, whatever algorithm computes it. */
  lemma SortUnique<T>(xs: seq<T>, key: T -> real, ys: seq<T>)
    requires Distinct(xs) && IsStableSort(xs, key, ys)
    ensures ys == SortDescending(xs, key)
  {
    SortCorrect(xs, key);
    RankedUnique(xs, key, ys, SortDescending(xs, key));
  }

  lemma SortDistinct<T>(xs: seq<T>, key: T -> real)
    requires Distinct(xs)
    ensures Distinct(SortDescending(xs, key))
  {
    var ys := SortDescending(xs, key);
    SortCorrect(xs, key);
    forall i, j | 0 <= i < j < |ys| ensures ys[i] != ys[j] {
      if ys[i] == ys[j] {
        AboveAsymmetric(xs, key, ys[i], ys[j]);
      }
    }
  }
}
