/**
 * The editable photo order: `reorderPhotos` (app.js:862-866) takes one
 * element out with `splice(fromIndex, 1)` and puts it back with
 * `splice(toIndex, 0, item)`; `savePhotoOrder` (app.js:868-872) stores the
 * names in that order.
 */
module PhotoOrder {
  import opened Catalog

  /**
   * `s` with the element at `from` removed and re-inserted so that it lands
   * at `to`; the elements outside the span between the two indices stay put.
   */
  function Moved<T>(s: seq<T>, from: nat, to: nat): (r: seq<T>)
    requires from < |s| && to < |s|
    ensures |r| == |s| && r[to] == s[from]
    ensures forall k :: 0 <= k < |s| && ((k < from && k < to) || (from < k && to < k)) ==> r[k] == s[k]
  {
    var rest := s[..from] + s[from + 1..];
    assert forall j :: 0 <= j < |rest| ==> rest[j] == if j < from then s[j] else s[j + 1];
    rest[..to] + [s[from]] + rest[to..]
  }

  /** Where every element of a move comes from: the moved one lands at `to`, the ones in between shift by one. */
  lemma MovedAt<T>(s: seq<T>, from: nat, to: nat, k: nat)
    requires from < |s| && to < |s| && k < |s|
    ensures |Moved(s, from, to)| == |s|
    ensures Moved(s, from, to)[k] ==
            if k == to then s[from]
            else if from < to && from <= k < to then s[k + 1]
            else if to < from && to < k <= from then s[k - 1]
            else s[k]
  {
    var rest := s[..from] + s[from + 1..];
    assert |rest| == |s| - 1;
    assert forall j :: 0 <= j < |rest| ==> rest[j] == if j < from then s[j] else s[j + 1];
    var r := Moved(s, from, to);
    assert forall j :: 0 <= j < |r| ==> r[j] == if j < to then rest[j] else if j == to then s[from] else rest[j - 1];
  }

  /** A move is a permutation: the same elements, each as often as before. */
  lemma MovedIsPermutation<T>(s: seq<T>, from: nat, to: nat)
    requires from < |s| && to < |s|
    ensures |Moved(s, from, to)| == |s|
    ensures multiset(Moved(s, from, to)) == multiset(s)
  {
    var rest := s[..from] + s[from + 1..];
    assert s == s[..from] + [s[from]] + s[from + 1..];
    assert rest == rest[..to] + rest[to..];
    calc {
      multiset(Moved(s, from, to));
      multiset(rest[..to]) + multiset([s[from]]) + multiset(rest[to..]);
      multiset(rest) + multiset([s[from]]);
      multiset(s[..from]) + multiset(s[from + 1..]) + multiset([s[from]]);
      multiset(s);
    }
  }

  /** Moving the element back from `to` to `from` undoes the move. */
  lemma MovedInverse<T>(s: seq<T>, from: nat, to: nat)
    requires from < |s| && to < |s|
    ensures Moved(Moved(s, from, to), to, from) == s
  {
    var r := Moved(s, from, to);
    MovedAt(s, from, to, 0);
    var back := Moved(r, to, from);
    forall k | 0 <= k < |s| ensures back[k] == s[k] {
      MovedAt(r, to, from, k);
      if k == from {
        MovedAt(s, from, to, to);
      } else if to < from && to <= k < from {
        MovedAt(s, from, to, k + 1);
      } else if from < to && from < k <= to {
        MovedAt(s, from, to, k - 1);
      } else {
        MovedAt(s, from, to, k);
      }
    }
    MovedAt(r, to, from, 0);
  }

  /** `photoOrder.map(p => p.name)`: the names in order. */
  function Names(order: seq<Image>): (names: seq<string>)
    ensures |names| == |order|
    ensures forall k :: 0 <= k < |order| ==> names[k] == order[k].name
  {
    seq(|order|, k requires 0 <= k < |order| => order[k].name)
  }

  /** Taking names commutes with a move: saving a reordered list stores the names moved the same way. */
  lemma NamesOfMoved(s: seq<Image>, from: nat, to: nat)
    requires from < |s| && to < |s|
    ensures Names(Moved(s, from, to)) == Moved(Names(s), from, to)
  {
    var m := Moved(s, from, to);
    var ns := Names(s);
    MovedAt(s, from, to, 0);
    MovedAt(ns, from, to, 0);
    var a := Names(m);
    var b := Moved(ns, from, to);
    assert |a| == |b| == |s|;
    forall k | 0 <= k < |s| ensures a[k] == b[k] {
      NameMovedAt(s, from, to, k);
    }
  }

  /** One position of `NamesOfMoved`. */
  lemma NameMovedAt(s: seq<Image>, from: nat, to: nat, k: nat)
    requires from < |s| && to < |s| && k < |s|
    ensures |Moved(s, from, to)| == |s| && |Moved(Names(s), from, to)| == |s|
    ensures Moved(s, from, to)[k].name == Moved(Names(s), from, to)[k]
  {
    var ns := Names(s);
    MovedAt(s, from, to, k);
    MovedAt(ns, from, to, k);
    var j := if k == to then from
             else if from < to && from <= k < to then k + 1
             else if to < from && to < k <= from then k - 1
             else k;
    assert Moved(s, from, to)[k] == s[j];
    assert Moved(ns, from, to)[k] == ns[j];
  }
}
