/** Stable sorting, and sums over sequences. */
module Sorting {

  // ----- sums

  function Sum<T>(s: seq<T>, f: T -> nat): nat {
    if s == [] then 0 else Sum(s[..|s| - 1], f) + f(s[|s| - 1])
  }

  lemma {:induction false} SumConcat<T>(a: seq<T>, b: seq<T>, f: T -> nat)
    ensures Sum(a + b, f) == Sum(a, f) + Sum(b, f)
  {
    if b == [] {
      assert a + b == a;
    } else {
      SumConcat(a, b[..|b| - 1], f);
      assert a + b == (a + b[..|b| - 1]) + [b[|b| - 1]];
    }
  }

  /** A sum of zeros. */
  lemma {:induction false} SumNone<T>(s: seq<T>, f: T -> nat)
    requires forall k :: 0 <= k < |s| ==> f(s[k]) == 0
    ensures Sum(s, f) == 0
  {
    if s != [] { SumNone(s[..|s| - 1], f); }
  }

  /** A sum with one term. */
  lemma {:induction false} SumOne<T>(s: seq<T>, f: T -> nat, at: nat)
    requires at < |s| && forall k :: 0 <= k < |s| && k != at ==> f(s[k]) == 0
    ensures Sum(s, f) == f(s[at])
  {
    if at < |s| - 1 { SumOne(s[..|s| - 1], f, at); } else { SumNone(s[..|s| - 1], f); }
  }

  /** A positive sum has a positive term. */
  lemma {:induction false} SumPositive<T>(s: seq<T>, f: T -> nat) returns (at: nat)
    requires Sum(s, f) > 0
    ensures at < |s| && f(s[at]) > 0
  {
    if f(s[|s| - 1]) > 0 { at := |s| - 1; } else { at := SumPositive(s[..|s| - 1], f); }
  }

  /** A term is at most the sum. */
  lemma {:induction false} SumAtLeast<T>(s: seq<T>, f: T -> nat, a: nat)
    requires a < |s|
    ensures f(s[a]) <= Sum(s, f)
  {
    if a < |s| - 1 { SumAtLeast(s[..|s| - 1], f, a); }
  }

  /** Two terms add up to at most the sum. */
  lemma {:induction false} SumAtLeastTwo<T>(s: seq<T>, f: T -> nat, a: nat, b: nat)
    requires a < b < |s|
    ensures f(s[a]) + f(s[b]) <= Sum(s, f)
  {
    if b < |s| - 1 { SumAtLeastTwo(s[..|s| - 1], f, a, b); } else { SumAtLeast(s[..|s| - 1], f, a); }
  }

  // ----- choosing and converting

  /** The converted elements that pass a test, in order. */
  function Pick<A, B>(s: seq<A>, keep: A -> bool, make: A -> B): seq<B> {
    if s == [] then []
    else
      var x, init := s[|s| - 1], Pick(s[..|s| - 1], keep, make);
      if keep(x) then init + [make(x)] else init
  }

  lemma {:induction false} PickNone<A, B>(s: seq<A>, keep: A -> bool, make: A -> B, f: B -> nat)
    requires forall k :: 0 <= k < |s| && keep(s[k]) ==> f(make(s[k])) == 0
    ensures Sum(Pick(s, keep, make), f) == 0
  {
    if s != [] {
      var x := s[|s| - 1];
      PickNone(s[..|s| - 1], keep, make, f);
    }
  }

  lemma {:induction false} PickOne<A, B>(s: seq<A>, keep: A -> bool, make: A -> B, f: B -> nat, at: nat)
    requires at < |s| && keep(s[at])
    requires forall k :: 0 <= k < |s| && k != at && keep(s[k]) ==> f(make(s[k])) == 0
    ensures Sum(Pick(s, keep, make), f) == f(make(s[at]))
  {
    var x := s[|s| - 1];
    var init := s[..|s| - 1];
    if at < |init| { PickOne(init, keep, make, f, at); } else { PickNone(init, keep, make, f); }
  }

  // ----- stable sorting

  /** Puts x after every element it is not less than. */
  function Insert<T>(less: (T, T) -> bool, s: seq<T>, x: T): seq<T> {
    if s == [] || !less(x, s[|s| - 1]) then s + [x]
    else Insert(less, s[..|s| - 1], x) + [s[|s| - 1]]
  }

  function Sort<T>(less: (T, T) -> bool, s: seq<T>): seq<T> {
    if s == [] then [] else Insert(less, Sort(less, s[..|s| - 1]), s[|s| - 1])
  }

  ghost predicate Ordered<T(!new)>(less: (T, T) -> bool, s: seq<T>) {
    forall i, j :: 0 <= i < j < |s| ==> !less(s[j], s[i])
  }

  ghost predicate TotalPreorder<T(!new)>(less: (T, T) -> bool) {
    && (forall a, b :: less(a, b) ==> !less(b, a))
    && (forall a, b, c :: !less(b, a) && !less(c, b) ==> !less(c, a))
  }

  lemma {:induction false} InsertSum<T>(less: (T, T) -> bool, s: seq<T>, x: T, f: T -> nat)
    ensures Sum(Insert(less, s, x), f) == Sum(s, f) + f(x)
  {
    if s == [] || !less(x, s[|s| - 1]) {
    } else {
      InsertSum(less, s[..|s| - 1], x, f);
    }
  }

  /** Sorting keeps every count. */
  lemma {:induction false} SortSum<T>(less: (T, T) -> bool, s: seq<T>, f: T -> nat)
    ensures Sum(Sort(less, s), f) == Sum(s, f)
  {
    if s != [] {
      SortSum(less, s[..|s| - 1], f);
      InsertSum(less, Sort(less, s[..|s| - 1]), s[|s| - 1], f);
    }
  }

  lemma {:induction false} InsertMembers<T(!new)>(less: (T, T) -> bool, s: seq<T>, x: T)
    ensures forall y :: y in Insert(less, s, x) <==> y in s || y == x
  {
    if s != [] && less(x, s[|s| - 1]) {
      InsertMembers(less, s[..|s| - 1], x);
      assert s == s[..|s| - 1] + [s[|s| - 1]];
    }
  }

  lemma {:induction false} SortMembers<T(!new)>(less: (T, T) -> bool, s: seq<T>)
    ensures forall y :: y in Sort(less, s) <==> y in s
  {
    if s != [] {
      SortMembers(less, s[..|s| - 1]);
      InsertMembers(less, Sort(less, s[..|s| - 1]), s[|s| - 1]);
      assert s == s[..|s| - 1] + [s[|s| - 1]];
    }
  }

  lemma {:induction false} InsertOrdered<T(!new)>(less: (T, T) -> bool, s: seq<T>, x: T)
    requires TotalPreorder(less) && Ordered(less, s)
    ensures Ordered(less, Insert(less, s, x))
  {
    if s == [] {
    } else {
      var last := s[|s| - 1];
      var init := s[..|s| - 1];
      if less(x, last) {
        InsertOrdered(less, init, x);
        InsertMembers(less, init, x);
        var r := Insert(less, init, x);
        forall i | 0 <= i < |r| ensures !less(last, r[i]) {
          assert r[i] in r;
          assert r[i] == x || r[i] in init;
        }
      } else {
        forall i | 0 <= i < |s| ensures !less(x, s[i]) {
          assert !less(last, s[i]) by { if i == |s| - 1 { assert less(last, last) ==> !less(last, last); } }
        }
      }
    }
  }

  lemma {:induction false} SortOrdered<T(!new)>(less: (T, T) -> bool, s: seq<T>)
    requires TotalPreorder(less)
    ensures Ordered(less, Sort(less, s))
  {
    if s != [] {
      SortOrdered(less, s[..|s| - 1]);
      InsertOrdered(less, Sort(less, s[..|s| - 1]), s[|s| - 1]);
    }
  }
}
