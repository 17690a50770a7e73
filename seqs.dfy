/** Order-preserving list operations shared by the models of `Array.prototype.filter`
    and of loops that append to a list. */
module Seqs {
  import opened Wrappers

  /** The elements of `s` that satisfy `keep`, in their original order. */
  function Filter<T>(s: seq<T>, keep: T -> bool): (r: seq<T>)
    ensures |r| <= |s|
  {
    if s == [] then []
    else Filter(s[..|s| - 1], keep) + (if keep(s[|s| - 1]) then [s[|s| - 1]] else [])
  }

  /** Filtering keeps exactly the elements that pass the test. */
  lemma {:induction false} FilterMembers<T>(s: seq<T>, keep: T -> bool)
    ensures forall x :: x in Filter(s, keep) <==> x in s && keep(x)
  {
    if s != [] {
      FilterMembers(s[..|s| - 1], keep);
      assert s == s[..|s| - 1] + [s[|s| - 1]];
    }
  }

  /** Every element that filtering keeps passes the test. */
  lemma {:induction false} FilterSatisfies<T>(s: seq<T>, keep: T -> bool)
    ensures forall k :: 0 <= k < |Filter(s, keep)| ==> keep(Filter(s, keep)[k])
  {
    if s != [] {
      FilterSatisfies(s[..|s| - 1], keep);
    }
  }

  /** A property of every element of `s` holds of every element of a filtering of `s`. */
  lemma {:induction false} FilterPreserves<T>(s: seq<T>, keep: T -> bool, prop: T -> bool)
    requires forall k :: 0 <= k < |s| ==> prop(s[k])
    ensures forall k :: 0 <= k < |Filter(s, keep)| ==> prop(Filter(s, keep)[k])
  {
    if s != [] {
      FilterPreserves(s[..|s| - 1], keep, prop);
    }
  }

  lemma {:induction false} FilterAppend<T>(s: seq<T>, t: seq<T>, keep: T -> bool)
    ensures Filter(s + t, keep) == Filter(s, keep) + Filter(t, keep)
    decreases |t|
  {
    if t == [] {
      assert s + t == s;
    } else {
      var u := t[..|t| - 1];
      assert (s + t)[..|s + t| - 1] == s + u;
      FilterAppend(s, u, keep);
    }
  }

  /** Filtering by a test and by its negation splits `s` into two parts that together
      hold every element of `s`, each as often as in `s`. */
  lemma {:induction false} FilterSplit<T>(s: seq<T>, keep: T -> bool, drop: T -> bool)
    requires forall x :: keep(x) <==> !drop(x)
    ensures multiset(Filter(s, keep)) + multiset(Filter(s, drop)) == multiset(s)
  {
    if s != [] {
      var p, x := s[..|s| - 1], s[|s| - 1];
      FilterSplit(p, keep, drop);
      assert s == p + [x];
      assert multiset(s) == multiset(p) + multiset{x};
      var kept, dropped := Filter(p, keep), Filter(p, drop);
      if keep(x) {
        assert Filter(s, drop) == dropped by { assert !drop(x); }
        assert multiset(Filter(s, keep)) == multiset(kept) + multiset{x};
      } else {
        assert Filter(s, keep) == kept;
        assert multiset(Filter(s, drop)) == multiset(dropped) + multiset{x} by { assert drop(x); }
      }
    }
  }

  /** Filtering by a stricter test after a looser one is filtering by the stricter one. */
  lemma {:induction false} FilterNarrow<T>(s: seq<T>, loose: T -> bool, strict: T -> bool)
    requires forall x :: strict(x) ==> loose(x)
    ensures Filter(Filter(s, loose), strict) == Filter(s, strict)
  {
    if s != [] {
      var p := s[..|s| - 1];
      var x := s[|s| - 1];
      FilterNarrow(p, loose, strict);
      FilterAppend(Filter(p, loose), if loose(x) then [x] else [], strict);
      if loose(x) {
        assert [x][..0] == [];
      }
    }
  }

  /** Filtering keeps nothing when no element passes. */
  lemma {:induction false} FilterNone<T>(s: seq<T>, keep: T -> bool)
    requires forall k :: 0 <= k < |s| ==> !keep(s[k])
    ensures Filter(s, keep) == []
  {
    if s != [] {
      FilterNone(s[..|s| - 1], keep);
    }
  }

  /** Filtering keeps everything exactly when every element passes. */
  lemma {:induction false} FilterAll<T>(s: seq<T>, keep: T -> bool)
    requires forall k :: 0 <= k < |s| ==> keep(s[k])
    ensures Filter(s, keep) == s
  {
    if s != [] {
      FilterAll(s[..|s| - 1], keep);
    }
  }

  /** Filtering by a test that one position alone fails removes exactly that position. */
  lemma {:induction false} FilterRemovesOne<T>(s: seq<T>, j: nat, keep: T -> bool)
    requires j < |s|
    requires !keep(s[j])
    requires forall k :: 0 <= k < |s| && k != j ==> keep(s[k])
    ensures Filter(s, keep) == s[..j] + s[j + 1..]
  {
    var a, b := s[..j], s[j + 1..];
    assert forall k :: 0 <= k < |a| ==> keep(a[k]);
    assert forall k :: 0 <= k < |b| ==> keep(b[k]) by {
      forall k | 0 <= k < |b| ensures keep(b[k]) {
        assert b[k] == s[j + 1 + k];
      }
    }
    assert s == a + [s[j]] + b;
    FilterDropsMiddle(a, s[j], b, keep);
  }

  lemma {:induction false} FilterDropsMiddle<T>(a: seq<T>, x: T, b: seq<T>, keep: T -> bool)
    requires !keep(x)
    requires forall k :: 0 <= k < |a| ==> keep(a[k])
    requires forall k :: 0 <= k < |b| ==> keep(b[k])
    ensures Filter(a + [x] + b, keep) == a + b
  {
    FilterAppend(a + [x], b, keep);
    FilterAppend(a, [x], keep);
    assert [x][..0] == [];
    FilterAll(a, keep);
    FilterAll(b, keep);
  }

  /** `f` applied to each element of `s`. */
  function Map<T, U>(s: seq<T>, f: T -> U): (r: seq<U>)
    ensures |r| == |s|
    ensures forall i :: 0 <= i < |s| ==> r[i] == f(s[i])
  {
    seq(|s|, i requires 0 <= i < |s| => f(s[i]))
  }

  /** `f` applied to each element of `s` together with its position. */
  function MapIndexed<T, U>(s: seq<T>, f: (nat, T) -> U): (r: seq<U>)
    ensures |r| == |s|
    ensures forall i :: 0 <= i < |s| ==> r[i] == f(i, s[i])
  {
    seq(|s|, i requires 0 <= i < |s| => f(i, s[i]))
  }

  /** Mapping one more element appends its image. */
  lemma {:induction false} MapIndexedPrefix<T, U>(s: seq<T>, i: nat, f: (nat, T) -> U)
    requires i < |s|
    ensures MapIndexed(s[..i + 1], f) == MapIndexed(s[..i], f) + [f(i, s[i])]
  {
    var a, b := MapIndexed(s[..i + 1], f), MapIndexed(s[..i], f) + [f(i, s[i])];
    forall j | 0 <= j < i + 1 ensures a[j] == b[j] {
      assert s[..i + 1][j] == s[j];
      if j < i {
        assert s[..i][j] == s[j];
      }
    }
  }

  /** `s.filter((_, i) => i !== index)`: drops position `index`; an index outside `s` drops nothing. */
  function RemoveAt<T>(s: seq<T>, index: int): (r: seq<T>)
    ensures 0 <= index < |s| ==>
      (&& |r| == |s| - 1
       && (forall k :: 0 <= k < index ==> r[k] == s[k])
       && (forall k :: index <= k < |r| ==> r[k] == s[k + 1]))
    ensures !(0 <= index < |s|) ==> r == s
  {
    if 0 <= index < |s| then s[..index] + s[index + 1..] else s
  }

  /** The values of the `Some` entries of `s`, in order: what a loop appends when each
      step appends at most one element. */
  function Somes<T>(s: seq<Option<T>>): (r: seq<T>)
    ensures |r| <= |s|
  {
    if s == [] then [] else Somes(s[..|s| - 1]) + OptionSeq(s[|s| - 1])
  }

  function OptionSeq<T>(o: Option<T>): seq<T> {
    if o.Some? then [o.value] else []
  }

  /** The positions of the `Some` entries of `s`, in order. */
  function SomeIndices<T>(s: seq<Option<T>>): seq<nat> {
    if s == [] then [] else SomeIndices(s[..|s| - 1]) + if s[|s| - 1].Some? then [|s| - 1] else []
  }

  lemma {:induction false} SomesAppend<T>(s: seq<Option<T>>, o: Option<T>)
    ensures Somes(s + [o]) == Somes(s) + OptionSeq(o)
  {
    assert (s + [o])[..|s|] == s;
  }

  /** The positions of the `Some` entries increase, lie inside `s`, are exactly the
      positions holding a value, and there is one per value. */
  lemma {:induction false} SomeIndicesExact<T>(s: seq<Option<T>>)
    ensures var idx := SomeIndices(s);
      && |idx| == |Somes(s)|
      && (forall j :: 0 <= j < |idx| ==> idx[j] < |s|)
      && (forall j, l :: 0 <= j < l < |idx| ==> idx[j] < idx[l])
      && (forall i :: 0 <= i < |s| ==> (s[i].Some? <==> i in idx))
  {
    if s != [] {
      var n := |s| - 1;
      var p := s[..n];
      SomeIndicesExact(p);
      assert forall i :: 0 <= i < n ==> s[i] == p[i];
      assert n !in SomeIndices(p);
    }
  }

  /** `Somes(s)` is the subsequence of `s` at `SomeIndices(s)`: the indices increase and
      are exactly the positions holding a value. */
  lemma {:induction false} SomesAtIndices<T>(s: seq<Option<T>>)
    ensures var r := Somes(s); var idx := SomeIndices(s);
      && |idx| == |r|
      && (forall j :: 0 <= j < |idx| ==> idx[j] < |s| && s[idx[j]] == Some(r[j]))
      && (forall j, l :: 0 <= j < l < |idx| ==> idx[j] < idx[l])
      && (forall i :: 0 <= i < |s| ==> (s[i].Some? <==> i in idx))
  {
    SomeIndicesExact(s);
    if s != [] {
      var n := |s| - 1;
      var p := s[..n];
      SomesAtIndices(p);
      SomeIndicesExact(p);
      var r, idx := Somes(s), SomeIndices(s);
      var rp, ip := Somes(p), SomeIndices(p);
      forall j | 0 <= j < |idx| ensures s[idx[j]] == Some(r[j]) {
        if j < |ip| {
          assert idx[j] == ip[j] && r[j] == rp[j];
          assert s[ip[j]] == p[ip[j]];
        }
      }
    }
  }

  lemma {:induction false} NoSomes<T>(s: seq<Option<T>>)
    requires forall i :: 0 <= i < |s| ==> s[i].None?
    ensures Somes(s) == []
  {
    if s != [] {
      NoSomes(s[..|s| - 1]);
    }
  }
}
