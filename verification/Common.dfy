/** Machine integers, failure-carrying values and the stable sort shared by the other modules. */
module Common {
  const U64_MAX: nat := 0xFFFF_FFFF_FFFF_FFFF

  type u64 = x: nat | x <= U64_MAX

  type byte = x: nat | x < 256

  /** `u64::saturating_add`. */
  function SaturatingAdd(a: u64, b: u64): u64 {
    if a + b <= U64_MAX then a + b else U64_MAX
  }

  /** `u64::saturating_sub`. */
  function SaturatingSub(a: u64, b: u64): u64 {
    if b <= a then a - b else 0
  }

  /** `u64::saturating_mul`. */
  function SaturatingMul(a: u64, b: u64): u64 {
    if a * b <= U64_MAX then a * b else U64_MAX
  }

  function Min(a: nat, b: nat): nat { if a <= b then a else b }

  function Max(a: nat, b: nat): nat { if a <= b then b else a }

  datatype Option<+T> = None | Some(value: T)

  datatype Result<+T, +E> = Ok(value: T) | Err(error: E)
}

/** A stable sort: every element is placed after the earlier ones whose key is not larger. */
module StableSort {
  ghost predicate TotalPreorder<T(!new)>(le: (T, T) -> bool) {
    && (forall a, b :: le(a, b) || le(b, a))
    && (forall a, b, c :: le(a, b) && le(b, c) ==> le(a, c))
  }

  ghost predicate Sorted<T>(le: (T, T) -> bool, s: seq<T>) {
    forall i, j :: 0 <= i < j < |s| ==> le(s[i], s[j])
  }

  function Insert<T>(le: (T, T) -> bool, s: seq<T>, x: T): (r: seq<T>)
    ensures |r| == |s| + 1
    ensures multiset(r) == multiset(s) + multiset{x}
  {
    if s == [] || le(s[|s| - 1], x) then s + [x]
    else
      assert s == s[..|s| - 1] + [s[|s| - 1]];
      Insert(le, s[..|s| - 1], x) + [s[|s| - 1]]
  }

  function Sort<T>(le: (T, T) -> bool, s: seq<T>): (r: seq<T>)
    ensures |r| == |s|
    ensures multiset(r) == multiset(s)
  {
    if s == [] then []
    else
      assert s == s[..|s| - 1] + [s[|s| - 1]];
      Insert(le, Sort(le, s[..|s| - 1]), s[|s| - 1])
  }

  lemma {:induction false} InsertSorts<T(!new)>(le: (T, T) -> bool, s: seq<T>, x: T)
    requires TotalPreorder(le) && Sorted(le, s)
    ensures Sorted(le, Insert(le, s, x))
  {
    if s != [] && !le(s[|s| - 1], x) {
      var init, last := s[..|s| - 1], s[|s| - 1];
      InsertSorts(le, init, x);
      forall y | y in Insert(le, init, x) ensures le(y, last) {
        assert y in multiset(Insert(le, init, x));
        assert y == x || y in init;
      }
    } else if s != [] {
      forall i | 0 <= i < |s| ensures le(s[i], x) {
        assert le(s[i], s[|s| - 1]);
      }
    }
  }

  lemma {:induction false} SortSorts<T(!new)>(le: (T, T) -> bool, s: seq<T>)
    requires TotalPreorder(le)
    ensures Sorted(le, Sort(le, s))
  {
    if s != [] {
      SortSorts(le, s[..|s| - 1]);
      InsertSorts(le, Sort(le, s[..|s| - 1]), s[|s| - 1]);
    }
  }

  lemma SortKeepsMembers<T>(le: (T, T) -> bool, s: seq<T>, x: T)
    ensures x in Sort(le, s) <==> x in s
  {
    assert x in Sort(le, s) <==> x in multiset(Sort(le, s));
  }

  /** Every two elements at different positions are related. */
  ghost predicate Pairwise<T>(rel: (T, T) -> bool, s: seq<T>) {
    forall i, j :: 0 <= i < j < |s| ==> rel(s[i], s[j])
  }

  lemma PairwiseConcat<T>(rel: (T, T) -> bool, s: seq<T>, t: seq<T>)
    requires Pairwise(rel, s) && Pairwise(rel, t)
    requires forall a, b :: a in s && b in t ==> rel(a, b)
    ensures Pairwise(rel, s + t)
  {
    forall i, j | 0 <= i < j < |s + t| ensures rel((s + t)[i], (s + t)[j]) {
      if j < |s| {
      } else if i >= |s| {
        assert rel(t[i - |s|], t[j - |s|]);
      } else {
        assert s[i] in s && t[j - |s|] in t;
      }
    }
  }

  lemma {:induction false} InsertKeepsPairwise<T(!new)>(le: (T, T) -> bool, rel: (T, T) -> bool, s: seq<T>, x: T)
    requires forall a, b :: rel(a, b) ==> rel(b, a)
    requires Pairwise(rel, s) && forall y :: y in s ==> rel(y, x)
    ensures Pairwise(rel, Insert(le, s, x))
  {
    if s != [] && !le(s[|s| - 1], x) {
      var init, last := s[..|s| - 1], s[|s| - 1];
      InsertKeepsPairwise(le, rel, init, x);
      forall y | y in Insert(le, init, x) ensures rel(y, last) {
        assert y in multiset(Insert(le, init, x));
        assert y == x || y in init;
      }
    }
  }

  lemma {:induction false} SortKeepsPairwise<T(!new)>(le: (T, T) -> bool, rel: (T, T) -> bool, s: seq<T>)
    requires forall a, b :: rel(a, b) ==> rel(b, a)
    requires Pairwise(rel, s)
    ensures Pairwise(rel, Sort(le, s))
  {
    if s != [] {
      var init := s[..|s| - 1];
      SortKeepsPairwise(le, rel, init);
      forall y | y in Sort(le, init) ensures rel(y, s[|s| - 1]) {
        SortKeepsMembers(le, init, y);
      }
      InsertKeepsPairwise(le, rel, Sort(le, init), s[|s| - 1]);
    }
  }
}
