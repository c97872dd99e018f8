/** Sequence helpers shared by the validator, the detector and the generator. */
module SeqUtil {

  datatype Option<+T> = None | Some(value: T)

  /** The image of every element of `s` under `f`, in order. */
  function Map<A, B>(s: seq<A>, f: A -> B): (r: seq<B>)
    ensures |r| == |s|
    ensures forall i :: 0 <= i < |s| ==> r[i] == f(s[i])
  {
    seq(|s|, i requires 0 <= i < |s| => f(s[i]))
  }

  /** The elements of `s` that satisfy `p`, in their original order. */
  function Filter<T(!new)>(s: seq<T>, p: T -> bool): (r: seq<T>)
    ensures |r| <= |s|
    ensures forall x :: x in r <==> x in s && p(x)
  {
    if s == [] then []
    else (if p(s[0]) then [s[0]] else []) + Filter(s[1..], p)
  }

  lemma {:induction false} FilterConcat<T(!new)>(a: seq<T>, b: seq<T>, p: T -> bool)
    ensures Filter(a + b, p) == Filter(a, p) + Filter(b, p)
  {
    if a == [] {
      assert a + b == b;
    } else {
      assert (a + b)[0] == a[0] && (a + b)[1..] == a[1..] + b;
      FilterConcat(a[1..], b, p);
      var h := if p(a[0]) then [a[0]] else [];
      calc {
        Filter(a + b, p);
        h + Filter(a[1..] + b, p);
        h + (Filter(a[1..], p) + Filter(b, p));
        (h + Filter(a[1..], p)) + Filter(b, p);
      }
    }
  }

  lemma {:induction false} FilterAll<T(!new)>(s: seq<T>, p: T -> bool)
    requires forall x :: x in s ==> p(x)
    ensures Filter(s, p) == s
  {
    if s != [] {
      assert s[0] in s;
      assert forall x :: x in s[1..] ==> x in s;
      FilterAll(s[1..], p);
      assert [s[0]] + s[1..] == s;
    }
  }

  lemma FilterNone<T(!new)>(s: seq<T>, p: T -> bool)
    requires forall x :: x in s ==> !p(x)
    ensures Filter(s, p) == []
  {
    if Filter(s, p) != [] {
      assert Filter(s, p)[0] in Filter(s, p);
    }
  }

  /** Appending elements that all pass `p` to a sequence none of whose elements pass it. */
  lemma FilterAppendAll<T(!new)>(a: seq<T>, b: seq<T>, p: T -> bool)
    requires Filter(a, p) == []
    requires forall x :: x in b ==> p(x)
    ensures Filter(a + b, p) == b
  {
    FilterConcat(a, b, p);
    FilterAll(b, p);
    assert [] + b == b;
  }

  /** Appending elements none of which passes `p` does not change the filter. */
  lemma FilterAppendNone<T(!new)>(a: seq<T>, b: seq<T>, p: T -> bool)
    requires forall x :: x in b ==> !p(x)
    ensures Filter(a + b, p) == Filter(a, p)
  {
    FilterConcat(a, b, p);
    FilterNone(b, p);
    assert Filter(a, p) + [] == Filter(a, p);
  }

  /** Filters by two tests that agree on every element of `s` select the same elements. */
  lemma {:induction false} FilterAgree<T(!new)>(s: seq<T>, p: T -> bool, q: T -> bool)
    requires forall x :: x in s ==> p(x) == q(x)
    ensures Filter(s, p) == Filter(s, q)
  {
    if s != [] {
      assert s[0] in s;
      assert forall x :: x in s[1..] ==> x in s;
      FilterAgree(s[1..], p, q);
    }
  }

  /** The head of a non-empty filter is the first element of `s` that satisfies `p`. */
  lemma {:induction false} FilterHead<T(!new)>(s: seq<T>, p: T -> bool)
    requires Filter(s, p) != []
    ensures exists i :: 0 <= i < |s| && s[i] == Filter(s, p)[0] && p(s[i])
                        && forall j :: 0 <= j < i ==> !p(s[j])
  {
    if p(s[0]) {
      assert s[0] == Filter(s, p)[0];
    } else {
      assert Filter(s, p) == Filter(s[1..], p);
      FilterHead(s[1..], p);
      var i :| 0 <= i < |s[1..]| && s[1..][i] == Filter(s[1..], p)[0] && p(s[1..][i])
               && forall j :: 0 <= j < i ==> !p(s[1..][j]);
      assert s[i + 1] == Filter(s, p)[0];
      forall j | 0 <= j < i + 1 ensures !p(s[j]) {
        if j > 0 { assert s[j] == s[1..][j - 1]; }
      }
    }
  }

  /** The first element of `s` that satisfies `p` (a `find_one`). */
  function FindFirst<T(!new)>(s: seq<T>, p: T -> bool): (r: Option<T>)
    ensures r.None? <==> forall x :: x in s ==> !p(x)
    ensures r.Some? ==> exists i :: 0 <= i < |s| && s[i] == r.value && p(s[i])
                                    && forall j :: 0 <= j < i ==> !p(s[j])
  {
    var found := Filter(s, p);
    if found == [] then None
    else
      FilterHead(s, p);
      Some(found[0])
  }

  predicate NoDups<T(==)>(s: seq<T>) {
    forall i, j :: 0 <= i < j < |s| ==> s[i] != s[j]
  }

  /** The distinct elements of `s`, each at its first occurrence. */
  function Distinct<T(==,!new)>(s: seq<T>): (r: seq<T>)
    ensures forall x :: x in r <==> x in s
    ensures NoDups(r)
    ensures |r| <= |s|
  {
    if s == [] then []
    else
      var t := Distinct(s[..|s| - 1]);
      assert forall x :: x in s[..|s| - 1] ==> x in s;
      assert forall x :: x in s ==> x in s[..|s| - 1] || x == s[|s| - 1];
      if s[|s| - 1] in t then t else t + [s[|s| - 1]]
  }

  lemma {:induction false} DistinctOfNoDups<T(!new)>(s: seq<T>)
    requires NoDups(s)
    ensures Distinct(s) == s
  {
    if s != [] {
      var init := s[..|s| - 1];
      DistinctOfNoDups(init);
      assert s[|s| - 1] !in init;
      assert init + [s[|s| - 1]] == s;
    }
  }

  /** A duplicate-free sequence drawn from the elements of `t` is no longer than `t`. */
  lemma {:induction false} NoDupsSubsetLength<T>(s: seq<T>, t: seq<T>)
    requires NoDups(s)
    requires forall x :: x in s ==> x in t
    ensures |s| <= |t|
  {
    if s != [] {
      assert s[0] in s;
      var i :| 0 <= i < |t| && t[i] == s[0];
      var rest := t[..i] + t[i + 1..];
      forall x | x in s[1..] ensures x in rest {
        assert x in s;
        var j :| 0 <= j < |t| && t[j] == x;
        assert x != s[0];
        assert j != i;
        if j < i {
          assert rest[j] == x;
        } else {
          assert rest[j - 1] == x;
        }
      }
      NoDupsSubsetLength(s[1..], rest);
    }
  }

  /** Sum of a sequence of reals. */
  function Sum(s: seq<real>): real {
    if s == [] then 0.0 else s[0] + Sum(s[1..])
  }

  lemma {:induction false} SumAppend(s: seq<real>, x: real)
    ensures Sum(s + [x]) == Sum(s) + x
  {
    if s == [] {
      assert s + [x] == [x];
    } else {
      assert (s + [x])[1..] == s[1..] + [x];
      SumAppend(s[1..], x);
    }
  }

  /** Every element in [lo, hi] bounds the sum by lo and hi times the length. */
  lemma {:induction false} SumBounds(s: seq<real>, lo: real, hi: real)
    requires forall x :: x in s ==> lo <= x <= hi
    ensures lo * |s| as real <= Sum(s) <= hi * |s| as real
  {
    if s != [] {
      assert forall x :: x in s[1..] ==> x in s;
      SumBounds(s[1..], lo, hi);
      assert s[0] in s;
      assert |s| as real == |s[1..]| as real + 1.0;
      BoundStep(s[0], Sum(s[1..]), lo, hi, |s[1..]| as real);
    }
  }

  /** One more element in `[lo, hi]` extends the bounds of a sum by one term. */
  lemma BoundStep(x: real, rest: real, lo: real, hi: real, n: real)
    requires lo <= x <= hi && lo * n <= rest <= hi * n
    ensures lo * (n + 1.0) <= x + rest <= hi * (n + 1.0)
  {
    assert lo * (n + 1.0) == lo * n + lo;
    assert hi * (n + 1.0) == hi * n + hi;
  }

  /** Concatenation of a sequence of sequences. */
  function Flatten<T>(ss: seq<seq<T>>): seq<T> {
    if ss == [] then [] else ss[0] + Flatten(ss[1..])
  }

  lemma {:induction false} InFlatten<T>(ss: seq<seq<T>>, x: T)
    ensures x in Flatten(ss) <==> exists j :: 0 <= j < |ss| && x in ss[j]
  {
    if ss != [] {
      InFlatten(ss[1..], x);
      if j :| 0 <= j < |ss[1..]| && x in ss[1..][j] {
        assert x in ss[j + 1];
      }
      if j :| 1 <= j < |ss| && x in ss[j] {
        assert x in ss[1..][j - 1];
      }
    }
  }

  /** Filtering a concatenation of blocks where the elements of block `i`, and only those, pass yields block `i`. */
  lemma {:induction false} FilterFlattenBlock<T(!new)>(ss: seq<seq<T>>, p: T -> bool, i: nat)
    requires forall j, x :: 0 <= j < |ss| && x in ss[j] ==> (p(x) <==> j == i)
    ensures Filter(Flatten(ss), p) == if i < |ss| then ss[i] else []
  {
    if ss != [] {
      var head, rest := ss[0], ss[1..];
      assert Flatten(ss) == head + Flatten(rest);
      var next := if i == 0 then |rest| else i - 1;
      BlocksShift(ss, p, i);
      FilterFlattenBlock(rest, p, next);
      FilterConcat(head, Flatten(rest), p);
      if i == 0 {
        FilterAll(head, p);
        assert Filter(Flatten(rest), p) == [];
        assert Filter(Flatten(ss), p) == head + [];
      } else {
        FilterNone(head, p);
        assert Filter(Flatten(ss), p) == [] + Filter(Flatten(rest), p);
        assert i < |ss| ==> rest[i - 1] == ss[i];
      }
    }
  }

  /** The block condition of `FilterFlattenBlock` carried from `ss` to its tail. */
  lemma BlocksShift<T(!new)>(ss: seq<seq<T>>, p: T -> bool, i: nat)
    requires ss != []
    requires forall j, x :: 0 <= j < |ss| && x in ss[j] ==> (p(x) <==> j == i)
    ensures forall x :: x in ss[0] ==> (p(x) <==> i == 0)
    ensures var next := if i == 0 then |ss| - 1 else i - 1;
            forall j, x :: 0 <= j < |ss| - 1 && x in ss[1..][j] ==> (p(x) <==> j == next)
  {
    forall j, x | 0 <= j < |ss| - 1 && x in ss[1..][j]
      ensures p(x) <==> j == (if i == 0 then |ss| - 1 else i - 1)
    {
      assert x in ss[j + 1];
    }
  }

  lemma {:induction false} FlattenConcat<T>(a: seq<seq<T>>, b: seq<seq<T>>)
    ensures Flatten(a + b) == Flatten(a) + Flatten(b)
  {
    if a == [] {
      assert a + b == b;
    } else {
      assert (a + b)[0] == a[0] && (a + b)[1..] == a[1..] + b;
      FlattenConcat(a[1..], b);
      assert Flatten(a + b) == a[0] + (Flatten(a[1..]) + Flatten(b));
    }
  }
}
