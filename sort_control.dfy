/**
 * The sort control's list handling: moving one entry of the list to a new
 * position (`applySort`) and building the initial list of values.
 */
module SortControl {
  import opened Wrappers

  /** A JavaScript array: an object whose element list is changed in place. */
  class JsArray<T> {
    var elems: seq<T>

    constructor (s: seq<T>)
      ensures elems == s
    {
      elems := s;
    }

    /**
     * `Array.prototype.splice` for non-negative arguments: a start past the
     * end is clamped to the length, the delete count to what is left, and the
     * removed entries are returned.
     */
    method Splice(start: nat, deleteCount: nat, items: seq<T>) returns (removed: seq<T>)
      modifies this
      ensures removed == SplicedOut(old(elems), start, deleteCount)
      ensures elems == Spliced(old(elems), start, deleteCount, items)
    {
      var s := Min(start, |elems|);
      var k := Min(deleteCount, |elems| - s);
      removed := elems[s..s + k];
      elems := elems[..s] + items + elems[s + k..];
    }
  }

  /** The entries `splice( start, deleteCount )` removes: the run at the clamped start, of the clamped count. */
  function SplicedOut<T>(e: seq<T>, start: nat, deleteCount: nat): (r: seq<T>)
    ensures var s := Min(start, |e|);
            |r| == Min(deleteCount, |e| - s) && r == e[s..s + |r|]
  {
    var s := Min(start, |e|);
    e[s..s + Min(deleteCount, |e| - s)]
  }

  /**
   * The list `splice( start, deleteCount, ...items )` leaves: the part before
   * the clamped start, the items, and what follows the removed run.
   */
  function Spliced<T>(e: seq<T>, start: nat, deleteCount: nat, items: seq<T>): (r: seq<T>)
    ensures var s := Min(start, |e|);
            var k := Min(deleteCount, |e| - s);
            && |r| == |e| - k + |items|
            && r[..s] == e[..s]
            && r[s..s + |items|] == items
            && r[s + |items|..] == e[s + k..]
  {
    var s := Min(start, |e|);
    var k := Min(deleteCount, |e| - s);
    var r := e[..s] + items + e[s + k..];
    assert r[..s] == e[..s];
    assert r[s..s + |items|] == items;
    assert r[s + |items|..] == e[s + k..];
    r
  }

  function Min(a: int, b: int): (m: int)
    ensures m <= a && m <= b && (m == a || m == b)
  {
    if a <= b then a else b
  }

  /** `s` without its entry at index `i`. */
  function RemoveAt<T>(s: seq<T>, i: nat): (r: seq<T>)
    requires i < |s|
    ensures |r| == |s| - 1
    ensures forall k | 0 <= k < |r| :: r[k] == if k < i then s[k] else s[k + 1]
  {
    s[..i] + s[i + 1..]
  }

  /**
   * The list after the entry at `from` has been taken out and put back so
   * that it ends up at index `to`.
   */
  function Moved<T>(s: seq<T>, from: nat, to: nat): (r: seq<T>)
    requires from < |s| && to < |s|
    ensures |r| == |s| && r[to] == s[from]
  {
    var rest := RemoveAt(s, from);
    rest[..to] + [s[from]] + rest[to..]
  }

  /**
   * Where every entry of the moved list came from: entries outside the range
   * between `from` and `to` stay put, and those inside it shift by one
   * towards `from`.
   */
  lemma MovedAt<T>(s: seq<T>, from: nat, to: nat, k: nat)
    requires from < |s| && to < |s| && k < |s|
    ensures k == to ==> Moved(s, from, to)[k] == s[from]
    ensures (k < from && k < to) || (k > from && k > to) ==> Moved(s, from, to)[k] == s[k]
    ensures from < to && from <= k < to ==> Moved(s, from, to)[k] == s[k + 1]
    ensures to < from && to < k <= from ==> Moved(s, from, to)[k] == s[k - 1]
  {
    var rest := RemoveAt(s, from);
    var m := Moved(s, from, to);
    if k < to {
      assert m[k] == rest[k];
    } else if k > to {
      assert m[k] == rest[k - 1];
    }
  }

  /** Moving an entry only reorders the list: the multiset of entries is kept. */
  lemma MovedIsPermutation<T>(s: seq<T>, from: nat, to: nat)
    requires from < |s| && to < |s|
    ensures multiset(Moved(s, from, to)) == multiset(s)
  {
    var rest := RemoveAt(s, from);
    assert s == s[..from] + [s[from]] + s[from + 1..];
    assert rest == rest[..to] + rest[to..];
    calc {
      multiset(Moved(s, from, to));
      multiset(rest[..to]) + multiset([s[from]]) + multiset(rest[to..]);
      multiset(rest) + multiset([s[from]]);
      multiset(s[..from]) + multiset(s[from + 1..]) + multiset([s[from]]);
      multiset(s);
    }
  }

  /** Moving an entry onto its own position changes nothing. */
  lemma MovedInPlace<T>(s: seq<T>, i: nat)
    requires i < |s|
    ensures Moved(s, i, i) == s
  {
    var rest := RemoveAt(s, i);
    assert rest[..i] == s[..i];
    assert rest[i..] == s[i + 1..];
    assert s == s[..i] + [s[i]] + s[i + 1..];
  }

  /**
   * The other entries keep their relative order: taking the moved entry out
   * of the result again gives the original list without it.
   */
  lemma MovedKeepsOrder<T>(s: seq<T>, from: nat, to: nat)
    requires from < |s| && to < |s|
    ensures |Moved(s, from, to)| == |s|
    ensures RemoveAt(Moved(s, from, to), to) == RemoveAt(s, from)
  {
    var rest := RemoveAt(s, from);
    assert Moved(s, from, to)[..to] == rest[..to];
    assert Moved(s, from, to)[to + 1..] == rest[to..];
  }

  /**
   * `applySort`: moves `values[oldIndex]` to `newIndex` in place with two
   * splices (first insert a copy, then delete the original) and returns the
   * same array object.
   */
  method ApplySort<T>(values: JsArray<T>, oldIndex: nat, newIndex: nat) returns (r: JsArray<T>)
    requires oldIndex < |values.elems| && newIndex < |values.elems|
    modifies values
    ensures r == values
    ensures values.elems == Moved(old(values.elems), oldIndex, newIndex)
  {
    ghost var s := values.elems;
    MovedBySplices(s, oldIndex, newIndex);
    var added := values.Splice(if oldIndex < newIndex then newIndex + 1 else newIndex, 0, [values.elems[oldIndex]]);
    var deleted := values.Splice(if oldIndex < newIndex then oldIndex else oldIndex + 1, 1, []);
    r := values;
  }

  /** `splice( at, 0, x )` inside the list inserts `x` before index `at`. */
  lemma SplicedInsert<T>(s: seq<T>, at: nat, x: T)
    requires at <= |s|
    ensures Spliced(s, at, 0, [x]) == s[..at] + [x] + s[at..]
  {
    var r := Spliced(s, at, 0, [x]);
    assert r == r[..at] + r[at..at + 1] + r[at + 1..];
  }

  /** `splice( del, 1 )` inside the list removes the entry at `del`. */
  lemma SplicedDelete<T>(t: seq<T>, del: nat)
    requires del < |t|
    ensures Spliced(t, del, 1, []) == t[..del] + t[del + 1..]
  {
    var r := Spliced(t, del, 1, []);
    assert r == r[..del] + r[del..];
  }

  /** The two splices of `applySort`, stated on the element list. */
  lemma MovedBySplices<T>(s: seq<T>, from: nat, to: nat)
    requires from < |s| && to < |s|
    ensures Spliced(Spliced(s, if from < to then to + 1 else to, 0, [s[from]]), if from < to then from else from + 1, 1, [])
            == Moved(s, from, to)
  {
    var at := if from < to then to + 1 else to;
    var del := if from < to then from else from + 1;
    SplicedInsert(s, at, s[from]);
    SplicedDelete(s[..at] + [s[from]] + s[at..], del);
    InsertThenDelete(s, from, to);
  }

  /** Inserting a copy of `s[from]` and deleting the original, on plain lists. */
  lemma InsertThenDelete<T>(s: seq<T>, from: nat, to: nat)
    requires from < |s| && to < |s|
    ensures var at := if from < to then to + 1 else to;
            var del := if from < to then from else from + 1;
            var t := s[..at] + [s[from]] + s[at..];
            t[..del] + t[del + 1..] == Moved(s, from, to)
  {
    var at := if from < to then to + 1 else to;
    var del := if from < to then from else from + 1;
    var t := s[..at] + [s[from]] + s[at..];
    var u := t[..del] + t[del + 1..];
    var m := Moved(s, from, to);
    assert |u| == |m|;
    forall k | 0 <= k < |u|
      ensures u[k] == m[k]
    {
      var j := if k < del then k else k + 1;
      assert u[k] == t[j];
      InsertedAt(s, at, s[from], j);
      MovedAt(s, from, to, k);
    }
  }

  /** Where the entries of `s` sit after `x` is inserted before index `at`. */
  lemma InsertedAt<T>(s: seq<T>, at: nat, x: T, j: nat)
    requires at <= |s| && j <= |s|
    ensures (s[..at] + [x] + s[at..])[j] == if j < at then s[j] else if j == at then x else s[j - 1]
  {
  }

  /** `range(num).map(i => i + 1)`: the list 1, 2, ..., num. */
  function OneTo(num: nat): (r: seq<int>)
    ensures |r| == num
    ensures forall i | 0 <= i < num :: r[i] == i + 1
  {
    seq(num, i => i + 1)
  }

  /**
   * The initial list of the control. `None` is any falsy `values`: the
   * default `null`, an undefined prop, or the `''` that Reset hands to
   * `onChange`. Then the list is 1, 2, ..., num; with supplied values it is
   * their first `num` entries
   * (all of them when there are fewer), which `splice` removes from the
   * supplied array in place.
   */
  method InitialValues(given: Option<JsArray<int>>, num: nat) returns (values: JsArray<int>)
    modifies if given.Some? then {given.value} else {}
    ensures fresh(values)
    ensures given.None? ==> values.elems == OneTo(num)
    ensures given.Some? ==>
              var k := Min(num, |old(given.value.elems)|);
              && values.elems == old(given.value.elems)[..k]
              && given.value.elems == old(given.value.elems)[k..]
  {
    if given.Some? {
      var taken := given.value.Splice(0, num, []);
      values := new JsArray(taken);
    } else {
      values := new JsArray(OneTo(num));
    }
  }
}
