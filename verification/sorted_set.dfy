/**
 * The prelude's `SortedSet<T>`: a vector kept in insertion order in which no
 * two elements are equal. Equality of elements is the element type's own
 * `PartialEq`, which for the domain types compares a projection only (an id,
 * a route); it is passed here as the projection `key`.
 */
module SortedSets {
  import opened Wrappers

  /** The vector behind the set, front first. */
  type SortedSet<T> = seq<T>

  /** `contains`: some element is equal to `e`. */
  predicate Contains<T, K(==)>(s: seq<T>, key: T -> K, e: T) {
    exists i :: 0 <= i < |s| && key(s[i]) == key(e)
  }

  /** No two elements of the set are equal. */
  predicate Distinct<T, K(==)>(s: seq<T>, key: T -> K) {
    forall i, j :: 0 <= i < j < |s| ==> key(s[i]) != key(s[j])
  }

  /** Every element equal to `e` replaced by `e`, positions kept. */
  function Replaced<T, K(==)>(s: seq<T>, key: T -> K, e: T): (r: seq<T>)
    ensures |r| == |s|
  {
    seq(|s|, i requires 0 <= i < |s| => if key(s[i]) == key(e) then e else s[i])
  }

  /** The set `insert(e)` produces: equal elements replaced in place, otherwise `e` added at the back. */
  function Inserted<T, K(==)>(s: seq<T>, key: T -> K, e: T): seq<T> {
    if Contains(s, key, e) then Replaced(s, key, e) else s + [e]
  }

  /** `insert`: one pass over the elements with a `replaced` flag, then a push at the back. */
  method Insert<T, K(==)>(s: seq<T>, key: T -> K, e: T) returns (r: seq<T>)
    ensures r == Inserted(s, key, e)
    ensures !Contains(s, key, e) ==> r == s + [e]
    ensures Contains(s, key, e) ==> |r| == |s|
  {
    var elements: seq<T> := [];
    var replaced := false;
    var i := 0;
    while i < |s|
      invariant 0 <= i <= |s|
      invariant elements == Replaced(s[..i], key, e)
      invariant replaced <==> Contains(s[..i], key, e)
    {
      if key(s[i]) == key(e) {
        replaced := true;
        elements := elements + [e];
      } else {
        elements := elements + [s[i]];
      }
      assert s[..i + 1] == s[..i] + [s[i]];
      i := i + 1;
    }
    assert s[..i] == s;
    if !replaced {
      elements := elements + [e];
    }
    r := elements;
  }

  /**
   * Inserting an element equal to one already present replaces exactly that
   * one, in place: the length and all other elements are unchanged.
   */
  lemma {:induction false} InsertExistingReplaces<T, K>(s: seq<T>, key: T -> K, e: T, k: nat)
    requires Distinct(s, key) && k < |s| && key(s[k]) == key(e)
    ensures |Inserted(s, key, e)| == |s|
    ensures Inserted(s, key, e)[k] == e
    ensures forall i :: 0 <= i < |s| && i != k ==> Inserted(s, key, e)[i] == s[i]
  {
    assert Contains(s, key, e);
    forall i | 0 <= i < |s| && i != k
      ensures Inserted(s, key, e)[i] == s[i]
    {
      if i < k { assert key(s[i]) != key(s[k]); } else { assert key(s[k]) != key(s[i]); }
    }
  }

  /** After `insert(e)` the set contains `e`, grew by at most one element and holds no two equal elements. */
  lemma {:induction false} InsertedContains<T, K>(s: seq<T>, key: T -> K, e: T)
    ensures Contains(Inserted(s, key, e), key, e)
    ensures |s| <= |Inserted(s, key, e)| <= |s| + 1
    ensures Distinct(s, key) ==> Distinct(Inserted(s, key, e), key)
    ensures forall x :: Contains(s, key, x) ==> Contains(Inserted(s, key, e), key, x)
  {
    var r := Inserted(s, key, e);
    if Contains(s, key, e) {
      var k :| 0 <= k < |s| && key(s[k]) == key(e);
      assert r[k] == e;
      forall i | 0 <= i < |s| ensures key(r[i]) == key(s[i]) { }
      forall x | Contains(s, key, x) ensures Contains(r, key, x) {
        var j :| 0 <= j < |s| && key(s[j]) == key(x);
        assert key(r[j]) == key(x);
      }
    } else {
      assert r[|s|] == e;
      forall x | Contains(s, key, x) ensures Contains(r, key, x) {
        var j :| 0 <= j < |s| && key(s[j]) == key(x);
        assert r[j] == s[j];
      }
    }
  }

  /** `from_vec`: the elements inserted one after another into the empty set. */
  function FromVec<T, K(==)>(elements: seq<T>, key: T -> K): seq<T> {
    if elements == [] then []
    else Inserted(FromVec(elements[..|elements| - 1], key), key, elements[|elements| - 1])
  }

  /** `from_vec` yields no two equal elements, contains every input element and is no longer than its input. */
  lemma {:induction false} FromVecDistinct<T, K>(elements: seq<T>, key: T -> K)
    ensures Distinct(FromVec(elements, key), key)
    ensures |FromVec(elements, key)| <= |elements|
    ensures forall i :: 0 <= i < |elements| ==> Contains(FromVec(elements, key), key, elements[i])
  {
    if elements != [] {
      var init := elements[..|elements| - 1];
      var last := elements[|elements| - 1];
      FromVecDistinct(init, key);
      InsertedContains(FromVec(init, key), key, last);
      forall i | 0 <= i < |elements| ensures Contains(FromVec(elements, key), key, elements[i]) {
        if i < |elements| - 1 { assert elements[i] == init[i]; }
      }
    }
  }

  /** The first element satisfying `p`, front to back. */
  function FirstMatch<T>(s: seq<T>, p: T -> bool): Option<T> {
    if s == [] then None else if p(s[0]) then Some(s[0]) else FirstMatch(s[1..], p)
  }

  /** `FirstMatch` is the element at the first position satisfying `p`; None iff no element does. */
  lemma {:induction false} FirstMatchIsFirst<T>(s: seq<T>, p: T -> bool)
    ensures FirstMatch(s, p).None? <==> forall i :: 0 <= i < |s| ==> !p(s[i])
    ensures FirstMatch(s, p).Some? ==>
      exists k :: 0 <= k < |s| && s[k] == FirstMatch(s, p).value && p(s[k])
               && forall j :: 0 <= j < k ==> !p(s[j])
  {
    if s != [] && !p(s[0]) {
      FirstMatchIsFirst(s[1..], p);
      if FirstMatch(s, p).Some? {
        var k :| 0 <= k < |s| - 1 && s[1..][k] == FirstMatch(s, p).value && p(s[1..][k])
                 && forall j :: 0 <= j < k ==> !p(s[1..][j]);
        assert s[k + 1] == s[1..][k];
        forall j | 0 <= j < k + 1 ensures !p(s[j]) {
          if j > 0 { assert s[j] == s[1..][j - 1]; }
        }
      } else {
        forall i | 0 <= i < |s| ensures !p(s[i]) {
          if i > 0 { assert s[i] == s[1..][i - 1]; }
        }
      }
    } else if s != [] {
      assert s[0] == FirstMatch(s, p).value;
    }
  }

  /** Searching a concatenation searches the first part, then the second. */
  lemma {:induction false} FirstMatchAppend<T>(s: seq<T>, t: seq<T>, p: T -> bool)
    ensures FirstMatch(s + t, p) == if FirstMatch(s, p).Some? then FirstMatch(s, p) else FirstMatch(t, p)
  {
    if s != [] {
      assert (s + t)[0] == s[0];
      assert (s + t)[1..] == s[1..] + t;
      FirstMatchAppend(s[1..], t, p);
    } else {
      assert s + t == t;
    }
  }

  /** `find`: a loop returning the first element that satisfies `p`. */
  method Find<T>(s: seq<T>, p: T -> bool) returns (r: Option<T>)
    ensures r == FirstMatch(s, p)
  {
    var i := 0;
    while i < |s|
      invariant 0 <= i <= |s|
      invariant FirstMatch(s, p) == FirstMatch(s[i..], p)
    {
      if p(s[i]) {
        return Some(s[i]);
      }
      assert s[i..][1..] == s[i + 1..];
      i := i + 1;
    }
    return None;
  }

  /** `PartialEq` of two sets: same length and every element of `a` contained in `b`. */
  method Equals<T, K(==)>(a: seq<T>, b: seq<T>, key: T -> K) returns (eq: bool)
    ensures eq <==> |a| == |b| && forall i :: 0 <= i < |a| ==> Contains(b, key, a[i])
  {
    if |a| != |b| {
      return false;
    }
    var i := 0;
    while i < |a|
      invariant 0 <= i <= |a|
      invariant forall j :: 0 <= j < i ==> Contains(b, key, a[j])
    {
      var found := false;
      var k := 0;
      while k < |b|
        invariant 0 <= k <= |b|
        invariant found <==> exists m :: 0 <= m < k && key(b[m]) == key(a[i])
      {
        if key(b[k]) == key(a[i]) {
          found := true;
        }
        k := k + 1;
      }
      if !found {
        assert !Contains(b, key, a[i]);
        return false;
      }
      i := i + 1;
    }
    return true;
  }

  /** Re-inserting an element already present gives a set equal to the original. */
  lemma {:induction false} InsertExistingIsEqual<T, K>(s: seq<T>, key: T -> K, e: T)
    requires Contains(s, key, e)
    ensures |Inserted(s, key, e)| == |s|
    ensures forall i :: 0 <= i < |s| ==> Contains(s, key, Inserted(s, key, e)[i])
  {
    forall i | 0 <= i < |s| ensures Contains(s, key, Inserted(s, key, e)[i]) {
      assert key(Inserted(s, key, e)[i]) == key(s[i]);
    }
  }
}
