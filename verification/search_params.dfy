/** The list operations of `URLSearchParams` (URL Standard, section 6.2)
    the search page uses: `get`, `set` and `delete`. */
module SearchParams {
  import opened Wrappers
  import opened FormUrlEncoded

  type Params = seq<Pair>

  /** Some pair is named `k`. */
  predicate Has(ps: Params, k: string) {
    |ps| > 0 && (ps[0].name == k || Has(ps[1..], k))
  }

  lemma HasMeaning(ps: Params, k: string)
    ensures Has(ps, k) <==> exists i :: 0 <= i < |ps| && ps[i].name == k
  {
    if |ps| > 0 {
      HasMeaning(ps[1..], k);
      assert forall i :: 1 <= i < |ps| ==> ps[i] == ps[1..][i - 1];
    }
  }

  /** Number of pairs named `k`. */
  function Count(ps: Params, k: string): nat {
    if |ps| == 0 then 0 else (if ps[0].name == k then 1 else 0) + Count(ps[1..], k)
  }

  /** `get(k)`: the value of the first pair named `k`, None (`null`) if none. */
  function Get(ps: Params, k: string): (r: Option<string>)
    ensures r.None? <==> !Has(ps, k)
    ensures r.Some? ==> exists i :: 0 <= i < |ps| && ps[i] == Pair(k, r.value)
                          && forall j :: 0 <= j < i ==> ps[j].name != k
  {
    if |ps| == 0 then None
    else if ps[0].name == k then Some(ps[0].value)
    else
      var r := Get(ps[1..], k);
      assert forall i :: 1 <= i < |ps| ==> ps[i] == ps[1..][i - 1];
      r
  }

  /** `delete(k)`: every pair named `k` removed, the others kept in order. */
  function Delete(ps: Params, k: string): (r: Params)
    ensures !Has(r, k)
    ensures |r| == |ps| - Count(ps, k)
    ensures !Has(ps, k) ==> r == ps
  {
    if |ps| == 0 then []
    else if ps[0].name == k then Delete(ps[1..], k)
    else [ps[0]] + Delete(ps[1..], k)
  }

  /** Position of the first pair named `k`. */
  function FirstNamed(ps: Params, k: string): (r: Option<nat>)
    ensures r.None? <==> !Has(ps, k)
    ensures r.Some? ==> r.value < |ps| && ps[r.value].name == k && !Has(ps[..r.value], k)
  {
    if |ps| == 0 then None
    else if ps[0].name == k then Some(0)
    else
      var r := FirstNamed(ps[1..], k);
      assert forall i :: 1 <= i < |ps| ==> ps[i] == ps[1..][i - 1];
      match r
      case None => None
      case Some(i) =>
        assert ps[..i + 1] == [ps[0]] + ps[1..][..i];
        Some(i + 1)
  }

  /** `set(k, v)`: the first pair named `k` takes the value and the other
      pairs named `k` go; without one, the pair is appended. */
  function Set(ps: Params, k: string, v: string): (r: Params)
    ensures !Has(ps, k) ==> r == ps + [Pair(k, v)]
    ensures FirstNamed(ps, k).Some? ==>
      var i := FirstNamed(ps, k).value;
      i < |r| && r[..i] == ps[..i] && r[i] == Pair(k, v)
  {
    match FirstNamed(ps, k)
    case None => ps + [Pair(k, v)]
    case Some(i) => ps[..i] + [Pair(k, v)] + Delete(ps[i + 1..], k)
  }

  lemma DeleteAppend(a: Params, b: Params, k: string)
    ensures Delete(a + b, k) == Delete(a, k) + Delete(b, k)
  {
    if |a| > 0 {
      assert (a + b)[1..] == a[1..] + b;
      DeleteAppend(a[1..], b, k);
    } else {
      assert a + b == b;
    }
  }

  lemma CountAppend(a: Params, b: Params, k: string)
    ensures Count(a + b, k) == Count(a, k) + Count(b, k)
  {
    if |a| > 0 {
      assert (a + b)[1..] == a[1..] + b;
      CountAppend(a[1..], b, k);
    } else {
      assert a + b == b;
    }
  }

  lemma CountZero(ps: Params, k: string)
    ensures Count(ps, k) == 0 <==> !Has(ps, k)
  {
    if |ps| > 0 {
      CountZero(ps[1..], k);
      assert forall i :: 1 <= i < |ps| ==> ps[i] == ps[1..][i - 1];
    }
  }

  /** Deleting twice is deleting once. */
  lemma DeleteIdempotent(ps: Params, k: string)
    ensures Delete(Delete(ps, k), k) == Delete(ps, k)
  {
  }

  /** Deleting one key leaves the other keys' lookups alone. */
  lemma {:induction false} DeleteKeepsOthers(ps: Params, k: string, other: string)
    requires other != k
    ensures Get(Delete(ps, k), other) == Get(ps, other)
  {
    if |ps| > 0 {
      DeleteKeepsOthers(ps[1..], k, other);
    }
  }

  lemma GetFirst(pre: Params, k: string, v: string, post: Params)
    requires !Has(pre, k)
    ensures Get(pre + [Pair(k, v)] + post, k) == Some(v)
    ensures FirstNamed(pre + [Pair(k, v)] + post, k) == Some(|pre|)
  {
    if |pre| > 0 {
      assert (pre + [Pair(k, v)] + post)[1..] == pre[1..] + [Pair(k, v)] + post;
      assert !Has(pre[1..], k) by {
        assert forall i :: 1 <= i < |pre| ==> pre[i] == pre[1..][i - 1];
      }
      GetFirst(pre[1..], k, v, post);
    }
  }

  /** The list `set` produces around the first position of `k` (or the
      end): the pairs before it, the new pair, the rest without `k`. */
  lemma SetSplit(ps: Params, k: string, v: string) returns (pre: Params, post: Params)
    ensures !Has(pre, k) && Set(ps, k, v) == pre + [Pair(k, v)] + Delete(post, k)
    ensures Delete(ps, k) == Delete(pre, k) + Delete(post, k)
  {
    match FirstNamed(ps, k)
    case None =>
      pre, post := ps, [];
      assert Delete(post, k) == [];
    case Some(i) =>
      pre, post := ps[..i], ps[i + 1..];
      SetSplitAt(ps, k, i);
  }

  /** Deleting around the first position of `k`. */
  lemma SetSplitAt(ps: Params, k: string, i: nat)
    requires FirstNamed(ps, k) == Some(i)
    ensures Delete(ps, k) == Delete(ps[..i], k) + Delete(ps[i + 1..], k)
  {
    assert ps == ps[..i] + [ps[i]] + ps[i + 1..];
    DeleteAppend(ps[..i] + [ps[i]], ps[i + 1..], k);
    DeleteAppend(ps[..i], [ps[i]], k);
  }

  /** After `set(k, v)`, `get(k)` answers `v`. */
  lemma SetGet(ps: Params, k: string, v: string)
    ensures Get(Set(ps, k, v), k) == Some(v)
  {
    var pre, post := SetSplit(ps, k, v);
    GetFirst(pre, k, v, Delete(post, k));
  }

  /** After `set(k, v)` exactly one pair is named `k`. */
  lemma SetCount(ps: Params, k: string, v: string)
    ensures Count(Set(ps, k, v), k) == 1
  {
    var pre, post := SetSplit(ps, k, v);
    var rest := Delete(post, k);
    CountZero(pre, k);
    CountZero(rest, k);
    CountAppend(pre, [Pair(k, v)], k);
    CountAppend(pre + [Pair(k, v)], rest, k);
  }

  /** `set(k, v)` keeps the pairs of other names, in order. */
  lemma SetDelete(ps: Params, k: string, v: string)
    ensures Delete(Set(ps, k, v), k) == Delete(ps, k)
  {
    var pre, post := SetSplit(ps, k, v);
    var rest := Delete(post, k);
    DeleteAppend(pre, [Pair(k, v)], k);
    DeleteAppend(pre + [Pair(k, v)], rest, k);
    DeleteIdempotent(post, k);
  }

  /** After `set(k, v)` there is exactly one pair named `k`, holding `v`,
      and the pairs of other names are those of the input, in order. */
  lemma SetMeaning(ps: Params, k: string, v: string)
    ensures Get(Set(ps, k, v), k) == Some(v)
    ensures Count(Set(ps, k, v), k) == 1
    ensures Delete(Set(ps, k, v), k) == Delete(ps, k)
  {
    SetGet(ps, k, v);
    SetCount(ps, k, v);
    SetDelete(ps, k, v);
  }

  /** Setting the same value twice is setting it once. */
  lemma SetIdempotent(ps: Params, k: string, v: string)
    ensures Set(Set(ps, k, v), k, v) == Set(ps, k, v)
  {
    var pre, post := SetSplit(ps, k, v);
    var rest := Delete(post, k);
    var r := pre + [Pair(k, v)] + rest;
    GetFirst(pre, k, v, rest);
    assert r[..|pre|] == pre;
    assert r[|pre| + 1..] == rest;
    DeleteIdempotent(post, k);
  }

  /** Setting a key leaves the other keys' lookups alone. */
  lemma SetKeepsOthers(ps: Params, k: string, v: string, other: string)
    requires other != k
    ensures Get(Set(ps, k, v), other) == Get(ps, other)
  {
    SetDelete(ps, k, v);
    DeleteKeepsOthers(Set(ps, k, v), k, other);
    DeleteKeepsOthers(ps, k, other);
  }
}
