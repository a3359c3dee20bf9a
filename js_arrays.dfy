/**
 * The two Array.prototype operations the form calls: `find` (section 23.1.3.9
 * of ECMA-262) and `splice(start, 1)` (section 23.1.3.31 of ECMA-262), the
 * latter both as a value and as the in-place algorithm that produces it.
 */
module JsArrays {
  import opened Wrappers

  /** `s.find(p)`: the first element satisfying `p`, or nothing when none does. */
  function Find<T>(s: seq<T>, p: T -> bool): (r: Option<T>)
    ensures r.None? <==> forall i :: 0 <= i < |s| ==> !p(s[i])
    ensures r.Some? ==> exists i :: 0 <= i < |s| && s[i] == r.value && p(s[i]) &&
                                    forall j :: 0 <= j < i ==> !p(s[j])
  {
    if |s| == 0 then None
    else if p(s[0]) then Some(s[0])
    else
      var r := Find(s[1..], p);
      assert forall i :: 1 <= i < |s| ==> s[i] == s[1..][i - 1];
      r
  }

  /**
   * The position `splice` starts at for an array of length `len`: a negative
   * `start` counts from the end (clamped at 0), a large one is clamped at `len`.
   */
  function SpliceStart(len: nat, start: int): (k: nat)
    ensures k <= len
    ensures 0 <= start ==> k == if start < len then start else len
    ensures start < 0 ==> k == if -start <= len then len + start else 0
  {
    if start < 0 then (if len + start < 0 then 0 else len + start)
    else if start < len then start
    else len
  }

  /** `r` is `s` with the element at position `k` taken out and the rest kept in order. */
  ghost predicate RemovesAt<T>(s: seq<T>, r: seq<T>, k: int) {
    && 0 <= k < |s|
    && |r| == |s| - 1
    && (forall j :: 0 <= j < k ==> r[j] == s[j])
    && (forall j :: k <= j < |r| ==> r[j] == s[j + 1])
  }

  /**
   * The array left behind by `splice(start, 1)`: the element at `start`
   * (counted from the end when negative) is removed; a start at or past the
   * end removes nothing, and one before the beginning removes the first element.
   */
  function Spliced<T>(s: seq<T>, start: int): (r: seq<T>)
    ensures 0 <= start < |s| ==> RemovesAt(s, r, start)
    ensures -|s| <= start < 0 ==> RemovesAt(s, r, |s| + start)
    ensures start < -|s| && |s| > 0 ==> RemovesAt(s, r, 0)
    ensures start >= |s| || s == [] ==> r == s
  {
    var k := SpliceStart(|s|, start);
    if k < |s| then s[..k] + s[k + 1..] else s
  }

  /** Removing the element at `i` takes exactly that element out of the multiset of elements. */
  lemma SplicedMultiset<T>(s: seq<T>, i: int)
    requires 0 <= i < |s|
    ensures multiset(Spliced(s, i)) + multiset{s[i]} == multiset(s)
  {
    var r := s[..i] + s[i + 1..];
    assert Spliced(s, i) == r;
    assert s == s[..i] + [s[i]] + s[i + 1..];
    calc {
      multiset(s);
      multiset(s[..i]) + multiset{s[i]} + multiset(s[i + 1..]);
      multiset(r) + multiset{s[i]};
    }
  }

  /** Every element of the spliced array was an element of the original. */
  lemma SplicedSubset<T>(s: seq<T>, start: int)
    ensures forall x :: x in Spliced(s, start) ==> x in s
  {
    var k := SpliceStart(|s|, start);
    if k < |s| {
      assert s == s[..k] + [s[k]] + s[k + 1..];
    }
  }

  /**
   * `a.splice(start, 1)` on the array `a`, in place: the elements after the
   * removed one are moved down one place each, and the new length is
   * returned (a Dafny array cannot shrink, so `a[..length]` is the result).
   */
  method SpliceOne<T>(a: array<T>, start: int) returns (length: nat)
    modifies a
    ensures length <= a.Length
    ensures a[..length] == Spliced(old(a[..]), start)
  {
    ghost var s := a[..];
    var len := a.Length;
    var k0 := SpliceStart(len, start);
    var deleteCount := if k0 < len then 1 else 0;
    var k := k0;
    while k < len - deleteCount
      invariant k0 <= k <= len - deleteCount
      invariant forall j :: 0 <= j < k0 ==> a[j] == s[j]
      invariant forall j :: k0 <= j < k ==> a[j] == s[j + deleteCount]
      invariant forall j :: k <= j < len ==> a[j] == s[j]
    {
      a[k] := a[k + deleteCount];
      k := k + 1;
    }
    length := len - deleteCount;
    assert a[..length] == Spliced(s, start) by {
      if deleteCount == 1 {
        assert Spliced(s, start) == s[..k0] + s[k0 + 1..];
      }
    }
  }
}
