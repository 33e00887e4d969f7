/** The array helpers the resolvers use on the tables: `find` by id, `filter` by a
    predicate, and `includes` (which is Dafny's `in` on sequences). */
module Lookup {
  import opened Optional
  import opened Decimal

  /** `find(x => x.id === id)` on the column of ids: the first position holding `id`. */
  function IndexOf(ids: seq<string>, id: string): (r: Option<nat>)
    ensures r.Some? ==> r.value < |ids| && ids[r.value] == id
    ensures r.Some? ==> forall k :: 0 <= k < r.value ==> ids[k] != id
    ensures r.None? <==> id !in ids
  {
    if ids == [] then None
    else if ids[0] == id then Some(0)
    else match IndexOf(ids[1..], id)
      case None => None
      case Some(k) => Some(k + 1)
  }

  /** A column of ids in which position `k` holds `String(k)`: what the length-based
      id scheme produces. */
  predicate IdsAreIndices(ids: seq<string>) {
    forall k :: 0 <= k < |ids| ==> ids[k] == NatToString(k)
  }

  /** In a column whose ids are their positions, a lookup by any client-supplied string
      finds position `k` exactly when the string is `String(k)`: "01", "-1", "" and
      out-of-range numbers find nothing. */
  lemma IndexOfIndexId(ids: seq<string>, x: string)
    requires IdsAreIndices(ids)
    ensures IndexOf(ids, x) ==
      if IsCanonicalDecimal(x) && DecimalValue(x) < |ids| then Some(DecimalValue(x)) else None
  {
    var r := IndexOf(ids, x);
    if IsCanonicalDecimal(x) && DecimalValue(x) < |ids| {
      CanonicalRoundTrip(x);
      assert ids[DecimalValue(x)] == x;
      assert DecimalValue(NatToString(r.value)) == r.value;
    }
  }

  /** `filter(p)`: the elements of `s` satisfying `p`, in their order in `s`. */
  function Filter<T>(s: seq<T>, p: T -> bool): (r: seq<T>)
    ensures |r| <= |s|
    ensures forall k :: 0 <= k < |r| ==> r[k] in s && p(r[k])
    ensures forall k :: 0 <= k < |s| && p(s[k]) ==> s[k] in r
  {
    if s == [] then []
    else (if p(s[0]) then [s[0]] else []) + Filter(s[1..], p)
  }

  /** Filtering keeps table order: filtering a concatenation concatenates the filtered
      parts. */
  lemma {:induction false} FilterAppend<T>(a: seq<T>, b: seq<T>, p: T -> bool)
    ensures Filter(a + b, p) == Filter(a, p) + Filter(b, p)
  {
    if a == [] {
      assert a + b == b;
    } else {
      assert (a + b)[0] == a[0] && (a + b)[1..] == a[1..] + b;
      FilterAppend(a[1..], b, p);
    }
  }

  /** Filtering by a predicate no element satisfies yields nothing. */
  lemma {:induction false} FilterNone<T>(s: seq<T>, p: T -> bool)
    requires forall k :: 0 <= k < |s| ==> !p(s[k])
    ensures Filter(s, p) == []
  {
    if s != [] {
      FilterNone(s[1..], p);
    }
  }

  predicate NoDuplicates<T(==)>(s: seq<T>) {
    forall i, j :: 0 <= i < j < |s| ==> s[i] != s[j]
  }
}
