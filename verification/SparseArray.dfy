/** The sparse array as a circular doubly linked list on the heap, and the two static variables
    that remember the element last used. */
module SparseArray {
  import opened SparseArraySpec

  datatype Kind = Indexed | Assoc

  class Element {
    var ind: int
    var value: Value
    var next: Element?
    var prev: Element?
    ghost var owner: Array?  // the array whose list this element was linked into

    /** array_create_element */
    constructor (ind: int, value: Value)
      ensures this.ind == ind && this.value == value && next == null && prev == null && owner == null
    {
      this.ind := ind;
      this.value := value;
      next, prev, owner := null, null, null;
    }
  }

  class Array {
    var kind: Kind
    var maxIndex: int
    var numElements: int
    const head: Element
    ghost var nodes: seq<Element>   // the elements after the head, in the order of the list
    ghost var entries: seq<Entry>   // what they hold

    /** The element at position k; the head stands before the first and after the last. */
    ghost function At(k: int): Element
      reads `nodes
    {
      if 0 <= k < |nodes| then nodes[k] else head
    }

    /** The head and the nodes are one circular doubly linked list of this array's own elements. */
    ghost predicate Linked()
      reads `nodes, head`ind, head`owner, head`next, head`prev, nodes`owner, nodes`next, nodes`prev
    {
      && head.owner == this && head.ind == -1
      && (forall k :: 0 <= k < |nodes| ==> nodes[k] != head && nodes[k].owner == this)
      && (forall j, k :: 0 <= j < k < |nodes| ==> nodes[j] != nodes[k])
      && head.next == At(0) && head.prev == At(|nodes| - 1)
      && (forall k {:trigger nodes[k].next} :: 0 <= k < |nodes| ==> nodes[k].next == if k + 1 < |nodes| then nodes[k + 1] else head)
      && (forall k {:trigger nodes[k].prev} :: 0 <= k < |nodes| ==> nodes[k].prev == if k == 0 then head else nodes[k - 1])
    }

    ghost predicate Described()
      reads `nodes, `entries, nodes`ind, nodes`value
    {
      |entries| == |nodes| &&
      forall k :: 0 <= k < |nodes| ==> entries[k] == Entry(nodes[k].ind, nodes[k].value)
    }

    /** The list is well formed and the bookkeeping right.  Whether the entries are sorted is left
        to their specification. */
    ghost predicate Valid()
      reads this, head, nodes
    {
      Linked() && Described() && maxIndex == MaxIndex(entries) && numElements == |entries|
    }

    /** array_create */
    constructor ()
      ensures Valid() && fresh(head) && nodes == [] && entries == [] && kind == Indexed
    {
      kind := Indexed;
      maxIndex := -1;
      numElements := 0;
      nodes := [];
      entries := [];
      var h := new Element(-1, Null);
      head := h;
      new;
      h.next := h;
      h.prev := h;
      h.owner := this;
    }

    /** ADD_BEFORE(ae, n), where ae is at position k */
    method AddBefore(ghost k: nat, ae: Element, n: Element)
      requires Linked() && k <= |nodes| && ae == At(k)
      requires n.owner == null && n != head
      modifies this`nodes, head`next, head`prev, nodes`next, nodes`prev, n`next, n`prev, n`owner
      ensures Linked()
      ensures nodes == old(nodes[..k] + [n] + nodes[k..])
    {
      assert ae.prev == At(k - 1);
      WriteLinks(ae, n);
      n.owner := this;
      nodes := nodes[..k] + [n] + nodes[k..];
    }

    /** The four writes of ADD_BEFORE */
    method WriteLinks(ae: Element, n: Element)
      requires n != ae && n != ae.prev && ae.prev != null
      modifies ae.prev`next, ae`prev, n`next, n`prev
      ensures n.prev == old(ae.prev) && n.prev.next == n && ae.prev == n && n.next == ae
    {
      ae.prev.next := n;
      n.prev := ae.prev;
      ae.prev := n;
      n.next := ae;
    }

    /** The link surgery of array_remove */
    method Unlink(ghost k: nat, ae: Element)
      requires Linked() && k < |nodes| && ae == nodes[k]
      modifies this`nodes, head`next, head`prev, nodes`next, nodes`prev
      ensures Linked()
      ensures nodes == old(nodes[..k] + nodes[k + 1..])
      ensures ae.prev == old(ae.prev) && ae.next == old(ae.next)
    {
      ae.next.prev := ae.prev;
      ae.prev.next := ae.next;
      nodes := nodes[..k] + nodes[k + 1..];
    }

    /** The loops that renumber the elements from position k on */
    method Renumber(ghost k: nat, start: Element, delta: int, ghost es: seq<Entry>)
      requires Linked() && Described() && k <= |nodes| && start == At(k)
      requires Moved(entries, es, k, delta)
      modifies nodes`ind, this`entries
      ensures Linked() && Described() && entries == es
    {
      var ae := start;
      ghost var m := k;
      while ae != head
        invariant k <= m <= |nodes| && ae == At(m)
        invariant forall j :: 0 <= j < |nodes| ==>
          nodes[j].ind == old(nodes[j].ind) + if k <= j < m then delta else 0
        decreases |nodes| - m
      {
        ae.ind := ae.ind + delta;
        ae := ae.next;
        m := m + 1;
      }
      entries := es;
    }

    /** The search loop of array_insert: the first element whose index is at least i, or the head */
    method FindAtLeast(i: int) returns (ae: Element, ghost k: nat)
      requires Linked() && Described()
      ensures k == Place(entries, i) && ae == At(k)
    {
      ae := head.next;
      k := 0;
      while ae != head && ae.ind < i
        invariant k <= |nodes| && ae == At(k)
        invariant forall j :: 0 <= j < k ==> entries[j].ind < i
        decreases |nodes| - k
      {
        assert entries[k] == Entry(ae.ind, ae.value);
        ae := ae.next;
        k := k + 1;
      }
      assert k < |nodes| ==> entries[k] == Entry(ae.ind, ae.value);
      PlaceIs(entries, i, k);
    }

    /** ADD_BEFORE and the element count, for an element whose index belongs at position k */
    method Hook(ghost k: nat, ae: Element, n: Element)
      requires Linked() && Described() && numElements == |entries| && n.owner == null && n != head
      requires ae == At(k) && k == Place(entries, n.ind) && !Present(entries, n.ind)
      modifies this`nodes, this`entries, this`numElements
      modifies head`next, head`prev, nodes`next, nodes`prev, n`next, n`prev, n`owner
      ensures Linked() && Described() && numElements == |entries|
      ensures nodes == old(nodes[..k] + [n] + nodes[k..])
      ensures entries == Put(old(entries), n.ind, n.value)
    {
      AddBefore(k, ae, n);
      entries := entries[..k] + [Entry(n.ind, n.value)] + entries[k..];
      numElements := numElements + 1;
    }

    /** The fast path of array_insert: hook onto the end */
    method Append(n: Element)
      requires Valid() && n.owner == null && n != head
      modifies this`nodes, this`entries, this`numElements, this`maxIndex
      modifies head`next, head`prev, nodes`next, nodes`prev, n`next, n`prev, n`owner
      ensures Valid() && nodes == old(nodes) + [n] && entries == old(entries) + [Entry(n.ind, n.value)]
    {
      AddBefore(|nodes|, head, n);
      entries := entries + [Entry(n.ind, n.value)];
      maxIndex := n.ind;
      numElements := numElements + 1;
    }

    /** Replacing an existing element */
    method Overwrite(ghost k: nat, ae: Element, v: Value)
      requires Valid() && k < |nodes| && ae == nodes[k] && k == Place(entries, ae.ind)
      modifies this`entries, ae`value
      ensures Valid() && entries == Put(old(entries), ae.ind, v)
    {
      assert entries[k] == Entry(ae.ind, ae.value);
      PutMaxIndex(entries, ae.ind, v);
      ae.value := v;
      entries := entries[k := Entry(ae.ind, v)];
    }

    /** Hooking an element in before another one */
    method HookInside(ghost k: nat, ae: Element, n: Element)
      requires Valid() && n.owner == null && n != head && k < |nodes|
      requires ae == At(k) && k == Place(entries, n.ind) && !Present(entries, n.ind)
      modifies this`nodes, this`entries, this`numElements
      modifies head`next, head`prev, nodes`next, nodes`prev, n`next, n`prev, n`owner
      ensures Valid() && n in nodes && forall e :: e in nodes ==> e in old(nodes) || e == n
      ensures entries == Put(old(entries), n.ind, n.value)
    {
      PutMaxIndex(entries, n.ind, n.value);
      Hook(k, ae, n);
    }

    /** The two cases of array_insert's search loop that end it: the element that ends up
        holding the value */
    method InsertAt(ghost k: nat, ae: Element, n: Element) returns (at: Element)
      requires Valid() && n.owner == null && n != head
      requires k < |nodes| && ae == At(k) && k == Place(entries, n.ind)
      modifies this`nodes, this`entries, this`numElements
      modifies head`next, head`prev, nodes`next, nodes`prev, nodes`value, n`next, n`prev, n`owner
      ensures Valid() && at in nodes && at.ind == n.ind && entries == Put(old(entries), n.ind, n.value)
      ensures forall e :: e in nodes ==> e in old(nodes) || e == n
    {
      assert entries[k] == Entry(ae.ind, ae.value);
      if ae.ind == n.ind {
        Overwrite(k, ae, n.value);
        at := ae;
      } else {
        HookInside(k, ae, n);
        at := n;
      }
    }

    /** array_remove: the element that held index i, or null */
    method Take(i: int) returns (r: Element?)
      requires Valid() && Sorted(entries)
      modifies this`nodes, this`entries, this`numElements, this`maxIndex
      modifies head`next, head`prev, nodes`next, nodes`prev
      ensures Valid()
      ensures forall e :: e in nodes ==> e in old(nodes)
      ensures r == null ==> nodes == old(nodes) && entries == old(entries)
      ensures r == null <==> !Present(old(entries), i)
      ensures r != null ==> r in old(nodes) && r !in nodes && r.ind == i && r.value == Lookup(old(entries), i)
      ensures entries == Remove(old(entries), i)
    {
      var ae, k := Scan(0, head.next, i);
      if ae == head {
        return null;
      }
      Extract(k, ae);
      return ae;
    }

    method Extract(ghost k: nat, ae: Element)
      requires Valid() && Sorted(entries) && k < |nodes| && ae == nodes[k] && k == Place(entries, ae.ind)
      modifies this`nodes, this`entries, this`numElements, this`maxIndex
      modifies head`next, head`prev, nodes`next, nodes`prev
      ensures Valid() && entries == Remove(old(entries), ae.ind)
      ensures ae !in nodes && forall e :: e in nodes ==> e in old(nodes)
    {
      Withdraw(k, ae);
    }

    /** The search loop of array_remove, which is also that of array_reference */
    method Scan(ghost first: nat, start: Element, i: int) returns (ae: Element, ghost k: nat)
      requires Valid() && Sorted(entries) && first <= |nodes| && start == At(first)
      requires forall j :: 0 <= j < first ==> entries[j].ind != i
      ensures k <= |nodes| && ae == At(k)
      ensures if ae == head then k == |nodes| && !Present(entries, i)
              else k < |nodes| && Present(entries, i) && k == Place(entries, i) && entries[k] == Entry(ae.ind, ae.value)
    {
      ae := start;
      k := first;
      while ae != head && ae.ind != i
        invariant k <= |nodes| && ae == At(k)
        invariant forall j :: 0 <= j < k ==> entries[j].ind != i
        decreases |nodes| - k
      {
        assert entries[k] == Entry(ae.ind, ae.value);
        ae := ae.next;
        k := k + 1;
      }
      if k < |nodes| {
        assert entries[k] == Entry(ae.ind, ae.value);
        PlaceAt(entries, k);
      }
    }

    /** The links and the count, once array_remove has found its element */
    method Unhook(ghost k: nat, ae: Element)
      requires Valid() && k < |nodes| && ae == nodes[k]
      modifies this`nodes, this`entries, this`numElements
      modifies head`next, head`prev, nodes`next, nodes`prev
      ensures Linked() && Described() && numElements == |entries|
      ensures nodes == old(nodes[..k] + nodes[k + 1..]) && entries == old(entries[..k] + entries[k + 1..])
      ensures ae.prev == old(ae.prev)
    {
      Unlink(k, ae);
      entries := entries[..k] + entries[k + 1..];
      numElements := numElements - 1;
    }

    /** What array_remove does to the array once it has found its element */
    method Withdraw(ghost k: nat, ae: Element)
      requires Valid() && Sorted(entries) && k < |nodes| && ae == nodes[k] && k == Place(entries, ae.ind)
      modifies this`nodes, this`entries, this`numElements, this`maxIndex
      modifies head`next, head`prev, nodes`next, nodes`prev
      ensures Valid() && nodes == old(nodes[..k] + nodes[k + 1..])
      ensures entries == Remove(old(entries), ae.ind)
    {
      ghost var now := Remove(entries, ae.ind);
      ghost var before := if k == 0 then -1 else entries[k - 1].ind;
      assert entries[k].ind == ae.ind && ae.prev.ind == before;
      assert MaxIndex(now) == if ae.ind == maxIndex then before else maxIndex by { RemoveMaxIndex(entries, k); }
      Unhook(k, ae);
      assert entries == now;
      if ae.ind == maxIndex {
        maxIndex := ae.prev.ind;
      }
    }

    /** array_flush, but for the remembered element; disposed elements are simply dropped */
    method Clear()
      requires head.owner == this && head.ind == -1
      modifies this`nodes, this`entries, this`numElements, this`maxIndex, head`next, head`prev
      ensures Valid() && nodes == [] && entries == []
    {
      nodes, entries := [], [];
      head.next, head.prev := head, head;
      maxIndex := -1;
      numElements := 0;
    }

    /** The counting loop of array_shift: the element after the first n, or the head */
    method Skip(n: int) returns (ae: Element, ghost k: nat)
      requires Linked() && n > 0
      ensures ae == At(k) && k == if n <= |nodes| then n else |nodes|
    {
      ae := head.next;
      k := 0;
      var i := 0;
      while ae != head && i < n
        invariant k == i && k <= |nodes| && ae == At(k) && i <= n
        decreases |nodes| - k
      {
        ae := ae.next;
        k := k + 1;
        i := i + 1;
      }
    }

    /** The easy case of array_shift: all elements leave as a null-terminated chain */
    method TakeAll() returns (r: Element?)
      requires Valid() && nodes != []
      modifies this`nodes, this`entries, this`numElements, this`maxIndex, head`next, head`prev, nodes`next
      ensures Valid() && nodes == [] && entries == []
      ensures Chain(r, old(nodes))
    {
      r := head.next;
      var ae := r;
      ghost var k := 0;
      while ae.next != head
        invariant k < |nodes| && ae == nodes[k]
        decreases |nodes| - k
      {
        ae := ae.next;
        k := k + 1;
      }
      ae.next := null;
      Clear();
    }

    /** Slices the first k elements out of the array as a null-terminated chain */
    method CutFront(ghost k: nat, ae: Element)
      requires Linked() && Described() && 0 < k < |nodes| && ae == nodes[k]
      modifies this`nodes, this`entries, head`next, head`prev, nodes`next, nodes`prev
      ensures Linked() && Described() && nodes == old(nodes)[k..] && entries == old(entries)[k..]
      ensures Chain(old(head.next), old(nodes)[..k])
    {
      var p := ae.prev;
      assert p == nodes[k - 1];
      p.next := null;
      head.next := ae;
      ae.prev := head;
      nodes := nodes[k..];
      entries := entries[k..];
    }

    /** The end of array_shift and of array_rshift: renumbering and bookkeeping */
    method Slide(ghost k: nat, start: Element, delta: int, count: int, ghost es: seq<Entry>)
      requires Linked() && Described() && k <= |nodes| && start == At(k) && count == |nodes|
      requires Moved(entries, es, k, delta)
      modifies nodes`ind, this`entries, this`numElements, this`maxIndex
      ensures Valid() && entries == es
    {
      Renumber(k, start, delta, es);
      numElements := count;
      maxIndex := head.prev.ind;
    }

    /** Slide leaves the elements that were cut off alone. */
    method SlideRest(ae: Element, n: nat, count: int, ghost es: seq<Entry>,
                     r: Element?, ghost front: seq<Element>, ghost left: seq<Entry>)
      requires Linked() && Described() && ae == At(0) && count == |nodes|
      requires Moved(entries, es, 0, 0 - n)
      requires Chain(r, front) && Holds(front, left) && forall j :: 0 <= j < |front| ==> front[j] !in nodes
      modifies nodes`ind, this`entries, this`numElements, this`maxIndex
      ensures Valid() && entries == es && Chain(r, front) && Holds(front, left)
    {
      Slide(0, ae, 0 - n, count, es);
    }

    /** array_shift where elements remain: ae is the first of them */
    method TakeFront(n: nat, ae: Element) returns (r: Element?)
      requires Valid() && 0 < n < |nodes| && ae == nodes[n]
      modifies this`nodes, this`entries, this`numElements, this`maxIndex
      modifies head`next, head`prev, nodes`next, nodes`prev, nodes`ind
      ensures Valid() && nodes == old(nodes)[n..] && entries == Shift(old(entries), n)
      ensures Chain(r, old(nodes)[..n]) && Holds(old(nodes)[..n], old(entries)[..n])
    {
      ghost var front, left, kept, es := nodes[..n], entries[..n], entries[n..], Shift(entries, n);
      assert Moved(kept, es, 0, 0 - n) by { ShiftAt(entries, n); }
      assert Holds(front, left) && forall j :: 0 <= j < |front| ==> front[j] !in nodes[n..];
      r := head.next;
      CutFront(n, ae);
      assert Chain(r, front);
      SlideRest(ae, n, numElements - n, es, r, front, left);
    }

    /** array_shift of a non-empty array by a positive n, without the disposal */
    method TakeFirst(n: nat) returns (r: Element?)
      requires Valid() && nodes != [] && n > 0
      modifies this`nodes, this`entries, this`numElements, this`maxIndex
      modifies head`next, head`prev, nodes`next, nodes`prev, nodes`ind
      ensures Valid() && entries == Shift(old(entries), n)
      ensures forall e :: e in nodes ==> e in old(nodes)
      ensures Chain(r, Front(old(nodes), n)) && Holds(Front(old(nodes), n), Front(old(entries), n))
    {
      var ae, k := Skip(n);
      if ae == head {
        r := TakeAll();
      } else {
        r := TakeFront(n, ae);
      }
    }

    /** One round of array_copy */
    method AppendCopy(ind: int, value: Value)
      requires Linked() && Described()
      modifies this`nodes, this`entries, head`next, head`prev, nodes`next, nodes`prev
      ensures Linked() && Described() && entries == old(entries) + [Entry(ind, value)]
      ensures |nodes| == |old(nodes)| + 1 && fresh(nodes[|old(nodes)|])
      ensures forall k :: 0 <= k < |old(nodes)| ==> nodes[k] == old(nodes)[k]
    {
      var n := new Element(ind, value);
      AddBefore(|nodes|, head, n);
      entries := entries + [Entry(ind, value)];
    }

    /** array_rshift hooks its new element in before the first one */
    method PutFirst(n: Element)
      requires Linked() && Described() && numElements == |entries| && n.owner == null && n != head
      modifies this`nodes, this`entries, this`numElements
      modifies head`next, head`prev, nodes`next, nodes`prev, n`next, n`prev, n`owner
      ensures Linked() && Described() && numElements == |entries|
      ensures nodes == [n] + old(nodes)
      ensures entries == [Entry(n.ind, n.value)] + old(entries)
    {
      AddBefore(0, head.next, n);
      entries := [Entry(n.ind, n.value)] + entries;
      numElements := numElements + 1;
    }

    /** The new element of array_rshift */
    method PutNew(v: Value)
      requires Linked() && Described() && numElements == |entries|
      modifies this`nodes, this`entries, this`numElements
      modifies head`next, head`prev, nodes`next, nodes`prev
      ensures Linked() && Described() && numElements == |entries|
      ensures |nodes| == |old(nodes)| + 1 && nodes[1..] == old(nodes) && fresh(nodes[0])
      ensures entries == [Entry(0, v)] + old(entries)
    {
      var e := new Element(0, v);
      PutFirst(e);
    }

    /** array_rshift of a non-empty array with a value for the new element */
    method MoveRightWith(n: nat, v: Value)
      requires Valid() && entries != [] && v.Str?
      modifies this`nodes, this`entries, this`numElements, this`maxIndex
      modifies head`next, head`prev, nodes`next, nodes`prev, nodes`ind
      ensures Valid() && entries == Unshift(old(entries), n, v)
      ensures forall e :: e in nodes ==> e in old(nodes) || fresh(e)
    {
      ghost var more, es := [Entry(0, v)] + entries, Unshift(entries, n, v);
      assert Moved(more, es, 1, n) by { UnshiftAt(entries, n, v); }
      var ae := head.next;
      PutNew(v);
      assert ae == nodes[1..][0] == nodes[1];
      Slide(1, ae, n, numElements, es);
      assert nodes == [nodes[0]] + nodes[1..];
    }

    /** array_rshift of a non-empty array without a value */
    method MoveRight(n: nat)
      requires Valid() && entries != []
      modifies this`entries, this`numElements, this`maxIndex, nodes`ind
      ensures Valid() && entries == Unshift(old(entries), n, Null)
    {
      ghost var es := Unshift(entries, n, Null);
      UnshiftAt(entries, n, Null);
      Slide(0, head.next, n, numElements, es);
    }

    /** array_rshift of a non-empty array */
    method MoveBy(n: nat, v: Value)
      requires Valid() && entries != []
      modifies this`nodes, this`entries, this`numElements, this`maxIndex
      modifies head`next, head`prev, nodes`next, nodes`prev, nodes`ind
      ensures Valid() && entries == Unshift(old(entries), n, v)
      ensures forall e :: e in nodes ==> e in old(nodes) || fresh(e)
    {
      if v.Str? {
        MoveRightWith(n, v);
      } else {
        MoveRight(n);
      }
    }

    /** array_rshift of an empty array with a value */
    method PutOnly(v: Value)
      requires Valid() && entries == []
      modifies this`nodes, this`entries, this`numElements, this`maxIndex, head`next, head`prev
      ensures Valid() && entries == [Entry(0, v)]
      ensures forall e :: e in nodes ==> fresh(e)
    {
      PutNew(v);
      maxIndex := 0;
    }
  }

  function Front<T>(s: seq<T>, n: nat): seq<T> {
    if n < |s| then s[..n] else s
  }

  /** A singly linked, null-terminated list of exactly these elements */
  ghost predicate Chain(e: Element?, es: seq<Element>)
    reads es`next
  {
    if es == [] then e == null
    else e == es[0] && es[|es| - 1].next == null && forall j {:trigger es[j].next} :: 0 <= j < |es| - 1 ==> es[j].next == es[j + 1]
  }

  /** These elements hold these entries. */
  ghost predicate Holds(es: seq<Element>, fs: seq<Entry>)
    reads es`ind, es`value
  {
    |es| == |fs| && forall k :: 0 <= k < |es| ==> fs[k] == Entry(es[k].ind, es[k].value)
  }

  /** The parts of an array that its operations may change. */
  ghost function Parts(a: Array?): set<Element>
    reads a
  {
    if a == null then {} else {a.head} + set e | e in a.nodes
  }

  /** Arrays share no element. */
  lemma Apart(a: Array, b: Array?)
    requires a.Linked() && (b != null ==> b.Linked()) && a != b
    ensures Parts(a) !! Parts(b)
  {
  }

  /** The two file-level variables of array.c and the operations that use them. */
  class Statics {
    var lastArray: Array?
    var lastRef: Element?

    /** The remembered element is a live element of the remembered array. */
    ghost predicate Valid()
      reads this, (if lastArray == null then {} else {lastArray})`nodes
    {
      if lastArray == null then lastRef == null else lastRef in lastArray.nodes
    }

    constructor ()
      ensures Valid()
    {
      lastArray, lastRef := null, null;
    }

    /** INVALIDATE_LASTREF(a) */
    method Invalidate(a: Array)
      requires lastArray != a ==> Valid()
      modifies this
      ensures Valid() && lastArray != a
      ensures old(lastArray) != a ==> lastArray == old(lastArray) && lastRef == old(lastRef)
    {
      if a == lastArray {
        lastArray := null;
        lastRef := null;
      }
    }

    /** array_insert on its fast path: SET_LASTREF(a, n) */
    method InsertLast(a: Array, n: Element)
      requires a.Valid() && n.owner == null && n != a.head
      modifies this, a`nodes, a`entries, a`numElements, a`maxIndex
      modifies a.head`next, a.head`prev, a.nodes`next, a.nodes`prev, n`next, n`prev, n`owner
      ensures a.Valid() && a.nodes == old(a.nodes) + [n] && a.entries == old(a.entries) + [Entry(n.ind, n.value)]
      ensures lastArray == a && lastRef == n
    {
      a.Append(n);
      lastArray, lastRef := a, n;
    }

    /** array_insert once its search loop has found the place: SET_LASTREF(a, ...) */
    method InsertFound(a: Array, ghost k: nat, ae: Element, n: Element)
      requires a.Valid() && n.owner == null && n != a.head
      requires k < |a.nodes| && ae == a.At(k) && k == Place(a.entries, n.ind)
      modifies this, a`nodes, a`entries, a`numElements
      modifies a.head`next, a.head`prev, a.nodes`next, a.nodes`prev, a.nodes`value, n`next, n`prev, n`owner
      ensures a.Valid() && a.entries == Put(old(a.entries), n.ind, n.value)
      ensures lastArray == a && lastRef in a.nodes && lastRef.ind == n.ind
      ensures forall e :: e in a.nodes ==> e in old(a.nodes) || e == n
    {
      var at := a.InsertAt(k, ae, n);
      lastArray, lastRef := a, at;
    }

    /** array_insert past its fast path */
    method InsertWithin(a: Array, n: Element) returns (r: int)
      requires Valid() && a.Valid() && n.owner == null && n != a.head && n.ind <= a.maxIndex
      modifies this, a`nodes, a`entries, a`numElements
      modifies a.head`next, a.head`prev, a.nodes`next, a.nodes`prev, a.nodes`value, n`next, n`prev, n`owner
      ensures Valid() && a.Valid()
      ensures forall e :: e in a.nodes ==> e in old(a.nodes) || e == n
      ensures old(a.entries) == [] ==> r == -1 && a.entries == [] && lastArray != a
      ensures old(a.entries) != [] ==> r == 0 && a.entries == Put(old(a.entries), n.ind, n.value)
      ensures old(a.entries) != [] ==> lastArray == a && lastRef.ind == n.ind
    {
      var ae, k := a.FindAtLeast(n.ind);
      if ae == a.head {
        assert a.entries == [] by {
          if a.entries != [] { PlaceBelow(a.entries, n.ind); }
        }
        Invalidate(a);
        return -1;
      }
      InsertFound(a, k, ae, n);
      return 0;
    }

    /** array_insert into an array that is there */
    method InsertInto(a: Array, i: int, v: Value) returns (r: int)
      requires Valid() && a.Valid()
      modifies this, a`nodes, a`entries, a`numElements, a`maxIndex
      modifies a.head`next, a.head`prev, a.nodes`next, a.nodes`prev, a.nodes`value
      ensures Valid() && a.Valid() && a.entries == Inserted(old(a.entries), i, v)
      ensures forall e :: e in a.nodes ==> e in old(a.nodes) || fresh(e)
      ensures if old(a.entries) == [] && i < 0 then r == -1 else r == 0 && lastArray == a && lastRef.ind == i
    {
      var n := new Element(i, v);
      if i > a.maxIndex {
        InsertLast(a, n);
        return 0;
      }
      r := InsertWithin(a, n);
    }

    /** array_insert: a[i] = v.  It returns -1 for a null array, and for a negative index in an
        empty array; nothing else reaches its "problem" return. */
    method Insert(a: Array?, i: int, v: Value) returns (r: int)
      requires Valid() && (a != null ==> a.Valid())
      modifies this, a, Parts(a)
      ensures Valid()
      ensures a == null ==> r == -1 && lastArray == old(lastArray) && lastRef == old(lastRef)
      ensures a != null ==> a.Valid() && a.kind == old(a.kind) && a.entries == Inserted(old(a.entries), i, v)
      ensures a != null ==> forall e :: e in a.nodes ==> e in old(a.nodes) || fresh(e)
      ensures a != null ==>
        if old(a.entries) == [] && i < 0 then r == -1 else r == 0 && lastArray == a && lastRef.ind == i
    {
      if a == null {
        return -1;
      }
      r := InsertInto(a, i, v);
    }

    /** array_remove: unset a[i], and hand its element to the caller */
    method RemoveAt(a: Array?, i: int) returns (r: Element?)
      requires Valid() && (a != null ==> a.Valid() && Sorted(a.entries))
      modifies this, a, Parts(a)
      ensures Valid()
      ensures a == null ==> r == null
      ensures a != null ==> a.Valid() && a.kind == old(a.kind) && a.entries == Remove(old(a.entries), i)
      ensures a != null ==> forall e :: e in a.nodes ==> e in old(a.nodes)
      ensures a != null ==> (r == null <==> !Present(old(a.entries), i))
      ensures a != null && r != null ==> r !in a.nodes && r.ind == i && r.value == Lookup(old(a.entries), i)
    {
      if a == null || a.numElements == 0 {
        return null;
      }
      r := a.Take(i);
      if r != null {
        Invalidate(a);
      }
    }

    /** array_reference: the value of a[i], found from the remembered element when that is not
        past i.  Whatever is remembered, the answer is that of a scan from the head. */
    method Reference(a: Array?, i: int) returns (r: Value)
      requires Valid() && (a != null ==> a.Valid() && Sorted(a.entries))
      modifies this
      ensures Valid()
      ensures r == if a == null then Null else Lookup(a.entries, i)
      ensures a != null && Present(a.entries, i) ==> lastArray == a && lastRef.ind == i
    {
      if a == null || a.numElements == 0 {
        return Null;
      }
      if i > a.maxIndex {
        return Null;
      }
      r := Find(a, i);
    }

    /** array_reference past its early returns */
    method Find(a: Array, i: int) returns (r: Value)
      requires Valid() && a.Valid() && Sorted(a.entries) && a.entries != []
      modifies this
      ensures Valid() && r == Lookup(a.entries, i)
      ensures if Present(a.entries, i) then lastArray == a && lastRef.ind == i else lastArray == null
    {
      var ae := Locate(a, i);
      if ae != a.head {
        lastArray, lastRef := a, ae;
        return ae.value;
      }
      lastArray, lastRef := null, null;
      return Null;
    }

    /** The scan of array_reference: the element with index i, or the head */
    method Locate(a: Array, i: int) returns (ae: Element)
      requires Valid() && a.Valid() && Sorted(a.entries) && a.entries != []
      ensures if ae == a.head then !Present(a.entries, i)
              else ae in a.nodes && ae.ind == i && Present(a.entries, i) && ae.value == Lookup(a.entries, i)
    {
      var start, first := Start(a, i);
      ghost var k: nat;
      ae, k := a.Scan(first, start, i);
    }

    /** Where array_reference starts its scan; nothing before it can have index i. */
    method Start(a: Array, i: int) returns (ae: Element, ghost k: nat)
      requires Valid() && a.Valid() && Sorted(a.entries) && a.entries != []
      ensures k <= |a.nodes| && ae == a.At(k)
      ensures forall j :: 0 <= j < k ==> a.entries[j].ind != i
    {
      ae := a.head.next;
      k := 0;
      if lastRef != null && a == lastArray {
        if i >= lastRef.ind {
          ae := lastRef;
          k :| 0 <= k < |a.nodes| && a.nodes[k] == ae;
          assert a.entries[k].ind <= i;
        }
      }
    }

    /** array_flush */
    method Flush(a: Array?)
      requires Valid() && (a != null ==> a.Valid())
      modifies this, a, Parts(a)
      ensures Valid()
      ensures a != null ==> a.Valid() && a.kind == old(a.kind) && a.nodes == [] && a.entries == []
    {
      if a == null {
        return;
      }
      a.Clear();
      Invalidate(a);
    }

    /** array_shift: the first n elements leave, the others move n to the left.  The elements
        that left are returned as a chain, unless they are to be disposed of. */
    method ShiftLeft(a: Array?, n: int, dispose: bool) returns (r: Element?)
      requires Valid() && (a != null ==> a.Valid())
      modifies this, a, Parts(a)
      ensures Valid()
      ensures a != null ==> a.Valid() && a.kind == old(a.kind)
      ensures a != null ==> a.entries == if n <= 0 then old(a.entries) else Shift(old(a.entries), n)
      ensures a != null ==> forall e :: e in a.nodes ==> e in old(a.nodes)
      ensures a == null || n <= 0 || dispose ==> r == null
      ensures a != null && n > 0 && !dispose ==>
        Chain(r, Front(old(a.nodes), n)) && Holds(Front(old(a.nodes), n), Front(old(a.entries), n))
    {
      if a == null || a.numElements == 0 || n <= 0 {
        return null;
      }
      Invalidate(a);
      r := a.TakeFirst(n);
      if dispose {
        r := null;
      }
    }

    /** array_rshift of a non-empty array */
    method PushAll(a: Array, n: nat, v: Value)
      requires Valid() && a.Valid() && a.entries != []
      modifies this, a`nodes, a`entries, a`numElements, a`maxIndex
      modifies a.head`next, a.head`prev, a.nodes`next, a.nodes`prev, a.nodes`ind
      ensures Valid() && a.Valid() && a.entries == Unshift(old(a.entries), n, v)
      ensures forall e :: e in a.nodes ==> e in old(a.nodes) || fresh(e)
    {
      a.MoveBy(n, v);
      Invalidate(a);
    }

    /** array_rshift by a positive n of an array that is there */
    method Push(a: Array, n: nat, v: Value) returns (r: int)
      requires Valid() && a.Valid() && n > 0
      modifies this, a`nodes, a`entries, a`numElements, a`maxIndex
      modifies a.head`next, a.head`prev, a.nodes`next, a.nodes`prev, a.nodes`ind
      ensures Valid() && a.Valid() && a.entries == Unshift(old(a.entries), n, v) && r == |a.entries|
      ensures forall e :: e in a.nodes ==> e in old(a.nodes) || fresh(e)
    {
      if a.numElements == 0 {
        if v.Null? {
          return 0;
        }
        a.PutOnly(v);
        return 1;
      }
      PushAll(a, n, v);
      return a.numElements;
    }

    /** array_rshift of an array that is there */
    method PushInto(a: Array, n: int, v: Value) returns (r: int)
      requires Valid() && a.Valid()
      modifies this, a`nodes, a`entries, a`numElements, a`maxIndex
      modifies a.head`next, a.head`prev, a.nodes`next, a.nodes`prev, a.nodes`ind
      ensures Valid() && a.Valid() && a.entries == ShiftedRight(old(a.entries), n, v) && r == |a.entries|
      ensures forall e :: e in a.nodes ==> e in old(a.nodes) || fresh(e)
    {
      if a.numElements == 0 && v.Null? {
        return 0;
      } else if n <= 0 {
        return a.numElements;
      }
      r := Push(a, n, v);
    }

    /** array_rshift: all indices move n to the right, and the value, if any, becomes element 0.
        A sorted array stays sorted unless a value is put before an element that stays at or
        below 0, and then it does not. */
    method ShiftRight(a: Array?, n: int, v: Value) returns (r: int)
      requires Valid() && (a != null ==> a.Valid())
      modifies this, a, Parts(a)
      ensures Valid()
      ensures a == null ==> r == 0
      ensures a != null ==> a.Valid() && a.kind == old(a.kind) && r == |a.entries|
      ensures a != null ==> a.entries == ShiftedRight(old(a.entries), n, v)
      ensures a != null && n <= 0 ==> a.entries == old(a.entries)
      ensures a != null ==> forall e :: e in a.nodes ==> e in old(a.nodes) || fresh(e)
      ensures a != null && Sorted(old(a.entries)) ==> (Sorted(a.entries) <==> KeepsOrder(old(a.entries), n, v))
    {
      if a == null {
        return 0;
      }
      ShiftedRightKeeps(a.entries, n, v);
      r := PushInto(a, n, v);
    }

    /** array_copy */
    method Copy(a: Array?) returns (r: Array?)
      requires Valid() && (a != null ==> a.Valid())
      ensures Valid() && (a != null ==> a.Valid())
      ensures a == null ==> r == null
      ensures a != null ==> r != null && fresh(r) && fresh(r.head) && r.Valid() && r.kind == a.kind && r.entries == a.entries
      ensures a != null ==> forall k :: 0 <= k < |r.nodes| ==> fresh(r.nodes[k])
    {
      if a == null {
        return null;
      }
      r := CopyOf(a);
    }

    method CopyOf(a: Array) returns (r: Array)
      requires a.Valid()
      ensures fresh(r) && fresh(r.head) && r.Valid() && r.kind == a.kind && r.entries == a.entries
      ensures forall k :: 0 <= k < |r.nodes| ==> fresh(r.nodes[k])
    {
      r := new Array();
      CopyInto(a, r);
    }

    /** array_copy, into an array just created */
    method CopyInto(a: Array, r: Array)
      requires a.Valid() && r.Linked() && r.Described() && r.nodes == [] && r != a
      modifies r, r.head
      ensures r.Valid() && r.kind == a.kind && r.entries == a.entries
      ensures forall k :: 0 <= k < |r.nodes| ==> fresh(r.nodes[k])
    {
      r.kind := a.kind;
      r.maxIndex := a.maxIndex;
      r.numElements := a.numElements;
      CopyElements(a, r);
    }

    /** The loop of array_copy */
    method CopyElements(a: Array, r: Array)
      requires a.Linked() && a.Described() && r.Linked() && r.Described() && r.nodes == [] && r != a
      modifies r`nodes, r`entries, r.head`next, r.head`prev
      ensures r.Linked() && r.Described() && r.entries == a.entries
      ensures forall k :: 0 <= k < |r.nodes| ==> fresh(r.nodes[k])
    {
      var ae := a.head.next;
      ghost var m := 0;
      while ae != a.head
        invariant a.Linked() && a.Described() && m <= |a.nodes| && ae == a.At(m)
        invariant r.Linked() && r.Described() && r.entries == a.entries[..m]
        invariant forall k :: 0 <= k < |r.nodes| ==> fresh(r.nodes[k])
        decreases |a.nodes| - m
      {
        assert a.entries[m] == Entry(ae.ind, ae.value);
        r.AppendCopy(ae.ind, ae.value);
        ae := ae.next;
        m := m + 1;
      }
    }
  }
}
