/** The sparse array as a value: a list of entries in strictly increasing order of their indices,
    and the finite map that such a list stands for. */
module SparseArraySpec {

  /** A `char *` that may be null. */
  datatype Value = Null | Str(text: string)

  datatype Entry = Entry(ind: int, value: Value)

  ghost predicate Sorted(es: seq<Entry>) {
    forall j, k :: 0 <= j < k < |es| ==> es[j].ind < es[k].ind
  }

  function MaxIndex(es: seq<Entry>): int {
    if es == [] then -1 else es[|es| - 1].ind
  }

  /** The position of the first entry whose index is at least i. */
  function Place(es: seq<Entry>, i: int): (p: nat)
    ensures p <= |es|
    ensures forall k :: 0 <= k < p ==> es[k].ind < i
    ensures p < |es| ==> i <= es[p].ind
  {
    if es == [] || i <= es[0].ind then 0 else 1 + Place(es[1..], i)
  }

  predicate Present(es: seq<Entry>, i: int) {
    var p := Place(es, i);
    p < |es| && es[p].ind == i
  }

  function Lookup(es: seq<Entry>, i: int): Value {
    if Present(es, i) then es[Place(es, i)].value else Null
  }

  function Put(es: seq<Entry>, i: int, v: Value): seq<Entry> {
    var p := Place(es, i);
    if Present(es, i) then es[p := Entry(i, v)] else Splice(es, p, Entry(i, v))
  }

  /** a[i] = v as the code does it: past the greatest index it appends, and otherwise it finds a
      place, but in an empty array there is none. */
  function Inserted(es: seq<Entry>, i: int, v: Value): seq<Entry> {
    if i > MaxIndex(es) then es + [Entry(i, v)] else if es == [] then [] else Put(es, i, v)
  }

  function Remove(es: seq<Entry>, i: int): seq<Entry> {
    var p := Place(es, i);
    if Present(es, i) then es[..p] + es[p + 1..] else es
  }

  function Renumbered(es: seq<Entry>, delta: int): (r: seq<Entry>)
    ensures |r| == |es|
    ensures forall k :: 0 <= k < |es| ==> r[k] == Entry(es[k].ind + delta, es[k].value)
  {
    seq(|es|, k requires 0 <= k < |es| => Entry(es[k].ind + delta, es[k].value))
  }

  /** From position k on, the entries of fs are those of es with delta added to their indices. */
  ghost predicate Moved(es: seq<Entry>, fs: seq<Entry>, k: nat, delta: int) {
    |fs| == |es| &&
    forall j :: 0 <= j < |es| ==> fs[j] == Entry(es[j].ind + if k <= j then delta else 0, es[j].value)
  }

  /** Without the first n entries, the others moved n to the left. */
  function Shift(es: seq<Entry>, n: nat): seq<Entry> {
    if n <= |es| then Renumbered(es[n..], 0 - n) else []
  }

  /** All entries moved n to the right, and a new first entry if there is a value for it. */
  function Unshift(es: seq<Entry>, n: nat, v: Value): seq<Entry> {
    (if v.Null? then [] else [Entry(0, v)]) + Renumbered(es, n)
  }

  // ---------- The map that a list of entries stands for ----------

  function Indices(es: seq<Entry>): set<int> {
    set k | 0 <= k < |es| :: es[k].ind
  }

  function Contents(es: seq<Entry>): map<int, Value> {
    map i | i in Indices(es) :: Lookup(es, i)
  }

  /** The place of an index is the only position with smaller indices before it and none from it on. */
  lemma PlaceIs(es: seq<Entry>, i: int, p: nat)
    requires p <= |es|
    requires forall k :: 0 <= k < p ==> es[k].ind < i
    requires p < |es| ==> i <= es[p].ind
    ensures Place(es, i) == p
  {
  }

  lemma PlaceAt(es: seq<Entry>, k: nat)
    requires Sorted(es) && k < |es|
    ensures Place(es, es[k].ind) == k
  {
    PlaceIs(es, es[k].ind, k);
  }

  /** Reading agrees with the map. */
  lemma LookupContents(es: seq<Entry>, i: int)
    requires Sorted(es)
    ensures Present(es, i) <==> i in Contents(es)
    ensures Lookup(es, i) == if i in Contents(es) then Contents(es)[i] else Null
  {
    if i in Indices(es) {
      var k :| 0 <= k < |es| && es[k].ind == i;
      PlaceAt(es, k);
    }
    if Present(es, i) {
      assert es[Place(es, i)].ind in Indices(es);
    }
  }

  /** Reading at the index of an entry gives its value, and anywhere else null. */
  lemma LookupIs(es: seq<Entry>, i: int, k: nat)
    requires Sorted(es)
    ensures k < |es| && es[k].ind == i ==> Present(es, i) && Lookup(es, i) == es[k].value
    ensures (forall j :: 0 <= j < |es| ==> es[j].ind != i) ==> !Present(es, i) && Lookup(es, i) == Null
  {
    if k < |es| && es[k].ind == i {
      PlaceAt(es, k);
    }
  }

  lemma PutKeepsOrder(es: seq<Entry>, i: int, v: Value)
    requires Sorted(es)
    ensures Sorted(Put(es, i, v))
  {
  }

  /** In a sorted list both ways of inserting are one; only a negative index in an empty array
      is refused. */
  lemma InsertedIsPut(es: seq<Entry>, i: int, v: Value)
    requires Sorted(es)
    ensures Inserted(es, i, v) == if es == [] && i < 0 then es else Put(es, i, v)
  {
    if i > MaxIndex(es) {
      PlaceIs(es, i, |es|);
    }
  }

  /** An empty array refuses index -1. */
  lemma EmptyRefuses(v: Value)
    ensures Inserted([], -1, v) == [] != Put([], -1, v)
  {
  }

  function Splice(es: seq<Entry>, p: nat, e: Entry): seq<Entry>
    requires p <= |es|
  {
    es[..p] + [e] + es[p..]
  }

  lemma SpliceAt(es: seq<Entry>, p: nat, e: Entry, k: nat)
    requires p <= |es| && k <= |es|
    ensures |Splice(es, p, e)| == |es| + 1
    ensures Splice(es, p, e)[k] == if k < p then es[k] else if k == p then e else es[k - 1]
  {
  }

  lemma PutMaxIndex(es: seq<Entry>, i: int, v: Value)
    requires Place(es, i) < |es|
    ensures MaxIndex(Put(es, i, v)) == MaxIndex(es)
  {
    if !Present(es, i) {
      SpliceAt(es, Place(es, i), Entry(i, v), |es|);
    }
  }

  lemma PlaceBelow(es: seq<Entry>, i: int)
    requires es != [] && i <= MaxIndex(es)
    ensures Place(es, i) < |es|
  {
  }

  lemma OverwritePlace(es: seq<Entry>, p: nat, i: int, v: Value, j: int)
    requires p < |es| && es[p].ind == i
    ensures Place(es[p := Entry(i, v)], j) == Place(es, j)
  {
    PlaceIs(es[p := Entry(i, v)], j, Place(es, j));
  }

  lemma AddedPlace(es: seq<Entry>, i: int, v: Value, j: int)
    requires Sorted(es) && !Present(es, i)
    ensures Place(Put(es, i, v), j) == Place(es, j) + if j <= i then 0 else 1
  {
    var p, fs := Place(es, i), Put(es, i, v);
    var q := Place(es, j) + if j <= i then 0 else 1;
    assert q <= |fs| == |es| + 1;
    forall k | 0 <= k < q ensures fs[k].ind < j {
      SpliceAt(es, p, Entry(i, v), k);
    }
    if q < |fs| {
      SpliceAt(es, p, Entry(i, v), q);
    }
    PlaceIs(fs, j, q);
  }

  lemma PutPlace(es: seq<Entry>, i: int, v: Value, j: int)
    requires Sorted(es)
    ensures Place(Put(es, i, v), j) == Place(es, j) + if Present(es, i) || j <= i then 0 else 1
  {
    if Present(es, i) {
      OverwritePlace(es, Place(es, i), i, v, j);
    } else {
      AddedPlace(es, i, v, j);
    }
  }

  lemma PutLookup(es: seq<Entry>, i: int, v: Value, j: int)
    requires Sorted(es)
    ensures Present(Put(es, i, v), j) <==> j == i || Present(es, j)
    ensures Lookup(Put(es, i, v), j) == if j == i then v else Lookup(es, j)
  {
    PutPlace(es, i, v, j);
  }

  /** a[i] = v */
  lemma PutContents(es: seq<Entry>, i: int, v: Value)
    requires Sorted(es)
    ensures Sorted(Put(es, i, v)) && Contents(Put(es, i, v)) == Contents(es)[i := v]
  {
    PutKeepsOrder(es, i, v);
    forall j ensures j in Contents(Put(es, i, v)) <==> j == i || j in Contents(es)
    {
      PutLookup(es, i, v, j);
      LookupContents(es, j);
      LookupContents(Put(es, i, v), j);
    }
    forall j | j in Contents(Put(es, i, v))
      ensures Contents(Put(es, i, v))[j] == if j == i then v else Contents(es)[j]
    {
      PutLookup(es, i, v, j);
    }
  }

  lemma RemoveKeepsOrder(es: seq<Entry>, i: int)
    requires Sorted(es)
    ensures Sorted(Remove(es, i))
  {
  }

  lemma RemoveMaxIndex(es: seq<Entry>, k: nat)
    requires Sorted(es) && k < |es|
    ensures MaxIndex(es[..k] + es[k + 1..]) ==
            if k < |es| - 1 then MaxIndex(es) else if k == 0 then -1 else es[k - 1].ind
    ensures es[k].ind == MaxIndex(es) <==> k == |es| - 1
  {
  }

  lemma RemovePlace(es: seq<Entry>, i: int, j: int)
    requires Sorted(es) && Present(es, i)
    ensures Place(Remove(es, i), j) == Place(es, j) - if i < j then 1 else 0
  {
    PlaceIs(Remove(es, i), j, Place(es, j) - if i < j then 1 else 0);
  }

  lemma RemoveLookup(es: seq<Entry>, i: int, j: int)
    requires Sorted(es)
    ensures Present(Remove(es, i), j) <==> j != i && Present(es, j)
    ensures j != i ==> Lookup(Remove(es, i), j) == Lookup(es, j)
  {
    if Present(es, i) {
      RemovePlace(es, i, j);
      var p := Place(es, j);
      assert p < |es| && i < j ==> Remove(es, i)[p - 1] == es[p];
    }
  }

  lemma RemoveContent(es: seq<Entry>, i: int, j: int)
    requires Sorted(es) && Sorted(Remove(es, i))
    ensures j in Contents(Remove(es, i)) <==> j != i && j in Contents(es)
    ensures j in Contents(Remove(es, i)) ==> Contents(Remove(es, i))[j] == Contents(es)[j]
  {
    RemoveLookup(es, i, j);
    LookupContents(es, j);
    LookupContents(Remove(es, i), j);
  }

  lemma RemoveIndices(es: seq<Entry>, i: int)
    requires Sorted(es) && Sorted(Remove(es, i))
    ensures Contents(Remove(es, i)).Keys == Contents(es).Keys - {i}
  {
    forall j ensures j in Contents(Remove(es, i)).Keys <==> j in Contents(es).Keys - {i} {
      RemoveContent(es, i, j);
    }
  }

  /** unset a[i] */
  lemma RemoveContents(es: seq<Entry>, i: int)
    requires Sorted(es)
    ensures Sorted(Remove(es, i)) && Contents(Remove(es, i)) == Contents(es) - {i}
  {
    RemoveKeepsOrder(es, i);
    RemoveIndices(es, i);
    var m, n := Contents(Remove(es, i)), Contents(es) - {i};
    assert m.Keys == n.Keys;
    forall j | j in m ensures m[j] == n[j] {
      RemoveContent(es, i, j);
    }
  }

  /** Sorted lists that stand for the same map are the same list, so what is stated of the map
      says all there is to say of the list. */
  lemma {:induction false} ContentsDetermine(es: seq<Entry>, fs: seq<Entry>)
    requires Sorted(es) && Sorted(fs) && Contents(es) == Contents(fs)
    ensures es == fs
  {
    NoContents(es);
    NoContents(fs);
    if es != [] {
      SameRest(es, fs);
      ContentsDetermine(es[1..], fs[1..]);
      SameList(es, fs);
    }
  }

  lemma SameList(es: seq<Entry>, fs: seq<Entry>)
    requires es != [] && fs != [] && es[0] == fs[0] && es[1..] == fs[1..]
    ensures es == fs
  {
    assert es == [es[0]] + es[1..] && fs == [fs[0]] + fs[1..];
  }

  lemma SameRest(es: seq<Entry>, fs: seq<Entry>)
    requires Sorted(es) && Sorted(fs) && es != [] && fs != [] && Contents(es) == Contents(fs)
    ensures es[0] == fs[0] && Contents(es[1..]) == Contents(fs[1..])
  {
    SameFirst(es, fs);
    RemoveFirst(es);
    RemoveFirst(fs);
  }

  lemma NoContents(es: seq<Entry>)
    ensures es == [] <==> Contents(es) == map[]
  {
    assert es != [] ==> es[0].ind in Contents(es);
  }

  lemma SameFirst(es: seq<Entry>, fs: seq<Entry>)
    requires Sorted(es) && Sorted(fs) && es != [] && fs != [] && Contents(es) == Contents(fs)
    ensures es[0] == fs[0]
  {
    FirstIsLeast(es, fs);
    FirstIsLeast(fs, es);
    assert es[0].value == Contents(es)[es[0].ind] == Contents(fs)[fs[0].ind] == fs[0].value;
  }

  lemma RemoveFirst(es: seq<Entry>)
    requires Sorted(es) && es != []
    ensures Contents(es[1..]) == Contents(es) - {es[0].ind}
  {
    assert Place(es, es[0].ind) == 0;
    assert es[1..] == Remove(es, es[0].ind);
    RemoveContents(es, es[0].ind);
  }

  lemma FirstIsLeast(es: seq<Entry>, fs: seq<Entry>)
    requires Sorted(es) && Sorted(fs) && es != [] && fs != [] && Contents(es) == Contents(fs)
    ensures es[0].ind <= fs[0].ind && fs[0].ind in Contents(fs)
  {
    assert fs[0].ind in Indices(fs);
    assert fs[0].ind in Contents(es);
  }

  // ---------- Shift arithmetic ----------

  ghost predicate NonNegative(es: seq<Entry>) {
    forall k :: 0 <= k < |es| ==> 0 <= es[k].ind
  }

  /** The k-th of a list of non-negative indices is at least k. */
  lemma {:induction false} IndexAtLeastPosition(es: seq<Entry>, k: nat)
    requires Sorted(es) && NonNegative(es) && k < |es|
    ensures k <= es[k].ind
  {
    if k > 0 {
      IndexAtLeastPosition(es, k - 1);
    }
  }

  /** So no shift makes an index negative. */
  lemma ShiftKeeps(es: seq<Entry>, n: nat)
    requires Sorted(es)
    ensures Sorted(Shift(es, n))
    ensures NonNegative(es) ==> NonNegative(Shift(es, n))
  {
    if NonNegative(es) {
      forall k | 0 <= k < |Shift(es, n)| ensures 0 <= Shift(es, n)[k].ind {
        IndexAtLeastPosition(es, n + k);
      }
    }
  }

  function ShiftedRight(es: seq<Entry>, n: int, v: Value): seq<Entry> {
    if n <= 0 then es else Unshift(es, n, v)
  }

  /** A shift to the right puts nothing before an element that stays at or below 0. */
  predicate KeepsOrder(es: seq<Entry>, n: int, v: Value) {
    n <= 0 || v.Null? || es == [] || es[0].ind + n > 0
  }

  /** A shift to the right with a value keeps the order exactly when the first index ends up
      above 0, so always for non-negative indices. */
  lemma UnshiftKeeps(es: seq<Entry>, n: nat, v: Value)
    requires Sorted(es) && n > 0
    ensures Sorted(Unshift(es, n, v)) <==> KeepsOrder(es, n, v)
    ensures NonNegative(es) ==> NonNegative(Unshift(es, n, v))
  {
    var r := Unshift(es, n, v);
    if v.Str? && es != [] {
      assert r[0].ind == 0 && r[1].ind == es[0].ind + n;
    }
  }

  /** An element at -1 and a new first element end up with the same index. */
  lemma UnshiftCanLoseOrder(v: Value, w: Value)
    requires v.Str?
    ensures var es := [Entry(-1, w)];
      Sorted(es) && Unshift(es, 1, v) == [Entry(0, v), Entry(0, w)] && !Sorted(Unshift(es, 1, v))
  {
    var r := Unshift([Entry(-1, w)], 1, v);
    assert r[0].ind == r[1].ind;
  }

  /** A shift by nothing, or to the other side, leaves the list as it is. */
  lemma ShiftedRightNowhere(es: seq<Entry>, n: int, v: Value)
    requires n <= 0
    ensures ShiftedRight(es, n, v) == es
  {
  }

  lemma ShiftedRightKeeps(es: seq<Entry>, n: int, v: Value)
    ensures Sorted(es) ==> (Sorted(ShiftedRight(es, n, v)) <==> KeepsOrder(es, n, v))
  {
    if n > 0 && Sorted(es) {
      UnshiftKeeps(es, n, v);
    }
  }

  lemma ShiftAt(es: seq<Entry>, n: nat)
    requires n <= |es|
    ensures Moved(es[n..], Shift(es, n), 0, 0 - n)
  {
  }

  lemma UnshiftAt(es: seq<Entry>, n: nat, v: Value)
    ensures v.Null? ==> Moved(es, Unshift(es, n, v), 0, n)
    ensures v.Str? ==> Moved([Entry(0, v)] + es, Unshift(es, n, v), 1, n)
  {
  }

  lemma ShiftTwice(es: seq<Entry>, m: nat, n: nat)
    ensures Shift(Shift(es, m), n) == Shift(es, m + n)
  {
    if m + n <= |es| {
      var left, right := Shift(Shift(es, m), n), Shift(es, m + n);
      assert forall k :: 0 <= k < |left| ==> left[k] == right[k];
    }
  }

  /** Shifting left by one undoes shifting right by one with a value: the value comes out and
      the list is as it was. */
  lemma ShiftUndoesUnshift(es: seq<Entry>, v: Value)
    requires v.Str?
    ensures Unshift(es, 1, v)[0] == Entry(0, v)
    ensures Shift(Unshift(es, 1, v), 1) == es
  {
    var r := Shift(Unshift(es, 1, v), 1);
    assert forall k :: 0 <= k < |es| ==> r[k] == es[k];
  }

  /** Which indices a shift keeps, and what they hold. */
  lemma ShiftLookup(es: seq<Entry>, n: nat, i: int)
    requires Sorted(es)
    ensures Present(Shift(es, n), i) <==> Present(es, i + n) && n <= Place(es, i + n)
    ensures Present(Shift(es, n), i) ==> Lookup(Shift(es, n), i) == Lookup(es, i + n)
  {
    var q := Place(es, i + n);
    if n <= |es| {
      PlaceIs(Shift(es, n), i, if n <= q then q - n else 0);
    }
  }

  /** Where a shift to the right leaves each index, and what becomes of index 0. */
  lemma UnshiftLookup(es: seq<Entry>, n: nat, v: Value, i: int)
    requires Sorted(es) && Sorted(Unshift(es, n, v))
    ensures Present(Unshift(es, n, v), i) <==> (v.Str? && i == 0) || Present(es, i - n)
    ensures Lookup(Unshift(es, n, v), i) == if v.Str? && i == 0 then v else Lookup(es, i - n)
  {
    var r, q := Unshift(es, n, v), Place(es, i - n);
    if v.Null? {
      PlaceIs(r, i, q);
    } else if i <= 0 {
      assert r[0] == Entry(0, v);
      assert q < |es| ==> r[q + 1].ind == es[q].ind + n;
      PlaceIs(r, i, 0);
    } else {
      assert r[0] == Entry(0, v);
      PlaceIs(r, i, q + 1);
    }
  }
}
