/** Whole runs of operations, in any order, on any number of arrays that share the two static
    variables. */
module SparseArrayRuns {
  import opened SparseArraySpec
  import opened SparseArray

  /** An operation on one array; i, n and v are what the caller passes. */
  datatype Op =
    | DoInsert(i: int, v: Value)
    | DoRemove(i: int)
    | DoReference(i: int)
    | DoShift(n: int)
    | DoRshift(n: int, v: Value)
    | DoFlush

  /** A step of a run: an operation on array number a, or a copy of it as a new last array. */
  datatype Action = Do(a: nat, op: Op) | DoCopy(a: nat)

  /** What the caller gets back: a value, a removed element if there was one, a number, or nothing. */
  datatype Out = Read(v: Value) | Removed(there: bool, v: Value) | Code(r: int) | Nothing

  function Next(es: seq<Entry>, op: Op): seq<Entry> {
    match op
    case DoInsert(i, v) => Inserted(es, i, v)
    case DoRemove(i) => Remove(es, i)
    case DoReference(_) => es
    case DoShift(n) => if n <= 0 then es else Shift(es, n)
    case DoRshift(n, v) => ShiftedRight(es, n, v)
    case DoFlush => []
  }

  function Answer(es: seq<Entry>, op: Op): Out {
    match op
    case DoInsert(i, v) => Code(if es == [] && i < 0 then -1 else 0)
    case DoRemove(i) => Removed(Present(es, i), Lookup(es, i))
    case DoReference(i) => Read(Lookup(es, i))
    case DoRshift(_, _) => Code(|Next(es, op)|)
    case _ => Nothing
  }

  /** Only an operation that looks for one index needs the order. */
  ghost predicate Allowed(es: seq<Entry>, op: Op) {
    op.DoRemove? || op.DoReference? ==> Sorted(es)
  }

  /** The one operation that a sorted array's order does not survive is a value shifted in before
      an element that stays at or below 0. */
  lemma NextSorted(es: seq<Entry>, op: Op)
    requires Sorted(es)
    ensures Sorted(Next(es, op)) <==> (op.DoRshift? ==> KeepsOrder(es, op.n, op.v))
  {
    match op
    case DoInsert(i, v) =>
      InsertedIsPut(es, i, v);
      PutKeepsOrder(es, i, v);
    case DoRemove(i) => RemoveKeepsOrder(es, i);
    case DoShift(n) => if n > 0 { ShiftKeeps(es, n); }
    case DoRshift(n, v) => ShiftedRightKeeps(es, n, v);
    case _ =>
  }

  // ---------- The run as the lists of entries see it ----------

  type World = seq<seq<Entry>>

  ghost predicate Legal(world: World, actions: seq<Action>)
    decreases |actions|
  {
    actions == [] || (LegalStep(world, actions[0]) && Legal(NextWorld(world, actions[0]), actions[1..]))
  }

  ghost predicate LegalStep(world: World, x: Action) {
    x.a < |world| && (x.Do? ==> Allowed(world[x.a], x.op))
  }

  function NextWorld(world: World, x: Action): World
    requires x.a < |world|
  {
    match x
    case Do(a, op) => world[a := Next(world[a], op)]
    case DoCopy(a) => world + [world[a]]
  }

  function WorldAfter(world: World, actions: seq<Action>): World
    requires Legal(world, actions)
    decreases |actions|
  {
    if actions == [] then world else WorldAfter(NextWorld(world, actions[0]), actions[1..])
  }

  function Answers(world: World, actions: seq<Action>): seq<Out>
    requires Legal(world, actions)
    decreases |actions|
  {
    if actions == [] then []
    else [AnswerTo(world, actions[0])] + Answers(NextWorld(world, actions[0]), actions[1..])
  }

  function AnswerTo(world: World, x: Action): Out
    requires x.a < |world|
  {
    if x.Do? then Answer(world[x.a], x.op) else Nothing
  }

  /** A run that names arrays that are there and inserts at no negative index. */
  predicate Plain(n: nat, actions: seq<Action>)
    decreases |actions|
  {
    actions == [] || (
      && actions[0].a < n
      && (actions[0].Do? && actions[0].op.DoInsert? ==> actions[0].op.i >= 0)
      && Plain(if actions[0].DoCopy? then n + 1 else n, actions[1..]))
  }

  ghost predicate Tidy(es: seq<Entry>) {
    Sorted(es) && NonNegative(es)
  }

  lemma NextNonNegative(es: seq<Entry>, op: Op)
    requires Tidy(es) && (op.DoInsert? ==> op.i >= 0)
    ensures NonNegative(Next(es, op))
  {
    match op
    case DoInsert(i, v) => PutNonNegative(es, i, v);
    case DoShift(n) => if n > 0 { ShiftKeeps(es, n); }
    case DoRshift(n, v) => if n > 0 { UnshiftKeeps(es, n, v); }
    case _ =>
  }

  lemma PutNonNegative(es: seq<Entry>, i: int, v: Value)
    requires NonNegative(es) && i >= 0
    ensures NonNegative(Put(es, i, v)) && NonNegative(Inserted(es, i, v))
  {
  }

  lemma NextTidy(es: seq<Entry>, op: Op)
    requires Tidy(es) && (op.DoInsert? ==> op.i >= 0)
    ensures Tidy(Next(es, op))
  {
    NextNonNegative(es, op);
    NextSorted(es, op);
  }

  /** So runs whose indices start out non-negative and are inserted so are always legal, and keep
      every array sorted and its indices non-negative. */
  lemma {:induction false} PlainIsLegal(world: World, actions: seq<Action>)
    requires Plain(|world|, actions) && forall es :: es in world ==> Tidy(es)
    ensures Legal(world, actions) && forall es :: es in WorldAfter(world, actions) ==> Tidy(es)
    decreases |actions|
  {
    if actions != [] {
      var x := actions[0];
      assert world[x.a] in world;
      if x.Do? {
        NextTidy(world[x.a], x.op);
      }
      PlainIsLegal(NextWorld(world, x), actions[1..]);
    }
  }

  // ---------- The run on the heap ----------

  /** Different arrays, each well formed, and a remembered element that is alive. */
  ghost predicate Sound(st: Statics, arrays: seq<Array>)
    reads st, (if st.lastArray == null then {} else {st.lastArray})`nodes, arrays, AllParts(arrays)
  {
    && st.Valid()
    && (forall j, k :: 0 <= j < k < |arrays| ==> arrays[j] != arrays[k])
    && (forall k :: 0 <= k < |arrays| ==>
          (assert forall e :: e in Parts(arrays[k]) ==> e in AllParts(arrays); arrays[k].Valid()))
  }

  ghost predicate Shows(arrays: seq<Array>, world: World)
    reads arrays
  {
    |world| == |arrays| && forall k :: 0 <= k < |arrays| ==> arrays[k].entries == world[k]
  }

  ghost function AllParts(arrays: seq<Array>): set<Element>
    reads arrays
  {
    set k, e | 0 <= k < |arrays| && e in Parts(arrays[k]) :: e
  }

  /** The operations that move or drop many elements */
  method PerformOnAll(st: Statics, a: Array, op: Op) returns (out: Out)
    requires st.Valid() && a.Valid() && (op.DoShift? || op.DoRshift? || op.DoFlush?)
    modifies st, a, Parts(a)
    ensures st.Valid() && a.Valid()
    ensures forall e :: e in a.nodes ==> e in old(a.nodes) || fresh(e)
    ensures a.entries == Next(old(a.entries), op) && out == Answer(old(a.entries), op)
  {
    out := Nothing;
    if op.DoShift? {
      var r := st.ShiftLeft(a, op.n, true);
    } else if op.DoRshift? {
      var r := st.ShiftRight(a, op.n, op.v);
      out := Code(r);
    } else {
      st.Flush(a);
    }
  }

  /** The operations that look for one index */
  method PerformOnOne(st: Statics, a: Array, op: Op) returns (out: Out)
    requires st.Valid() && a.Valid() && Sorted(a.entries) && (op.DoRemove? || op.DoReference?)
    modifies st, a, Parts(a)
    ensures st.Valid() && a.Valid()
    ensures forall e :: e in a.nodes ==> e in old(a.nodes)
    ensures a.entries == Next(old(a.entries), op) && out == Answer(old(a.entries), op)
  {
    if op.DoRemove? {
      var r := st.RemoveAt(a, op.i);
      out := if r == null then Removed(false, Null) else Removed(true, r.value);
    } else {
      var v := st.Reference(a, op.i);
      out := Read(v);
    }
  }

  method Perform(st: Statics, a: Array, op: Op) returns (out: Out)
    requires st.Valid() && a.Valid() && Allowed(a.entries, op)
    modifies st, a, Parts(a)
    ensures st.Valid() && a.Valid()
    ensures forall e :: e in a.nodes ==> e in old(a.nodes) || fresh(e)
    ensures a.entries == Next(old(a.entries), op) && out == Answer(old(a.entries), op)
  {
    if op.DoRemove? || op.DoReference? {
      out := PerformOnOne(st, a, op);
    } else if op.DoInsert? {
      var r := st.Insert(a, op.i, op.v);
      out := Code(r);
    } else {
      out := PerformOnAll(st, a, op);
    }
  }

  /** array_shift_element, then array_unshift_element: the value comes out again and the array
      is as it was, whatever its indices. */
  method PushThenPop(st: Statics, a: Array, v: Value) returns (r: Element?)
    requires st.Valid() && a.Valid() && v.Str?
    modifies st, a, Parts(a)
    ensures st.Valid() && a.Valid() && a.entries == old(a.entries)
    ensures r != null && r.ind == 0 && r.value == v
  {
    ShiftUndoesUnshift(a.entries, v);
    var count := st.ShiftRight(a, 1, v);
    ghost var first := Front(a.nodes, 1);
    r := st.ShiftLeft(a, 1, false);
    assert first[0] == r;
  }

  lemma AllApart(st: Statics, arrays: seq<Array>, a: nat)
    requires Sound(st, arrays) && a < |arrays|
    ensures forall k :: 0 <= k < |arrays| && k != a ==> Parts(arrays[a]) !! Parts(arrays[k])
  {
    forall k | 0 <= k < |arrays| && k != a ensures Parts(arrays[a]) !! Parts(arrays[k]) {
      Apart(arrays[a], arrays[k]);
    }
  }

  /** An operation on one array leaves every array apart from it as it was. */
  method PerformApart(st: Statics, a: Array, op: Op, ghost others: seq<Array>) returns (out: Out)
    requires st.Valid() && a.Valid() && Allowed(a.entries, op)
    requires forall b :: b in others ==> b != a && b.Valid() && Parts(a) !! Parts(b)
    modifies st, a, Parts(a)
    ensures st.Valid() && a.Valid() && out == Answer(old(a.entries), op) && a.entries == Next(old(a.entries), op)
    ensures forall e :: e in Parts(a) ==> e in old(Parts(a)) || fresh(e)
    ensures forall b :: b in others ==> b.Valid() && b.entries == old(b.entries) && Parts(b) == old(Parts(b))
  {
    out := Perform(st, a, op);
  }

  method PerformAmong(st: Statics, arrays: seq<Array>, a: nat, op: Op, ghost world: World) returns (out: Out)
    requires Sound(st, arrays) && Shows(arrays, world) && a < |arrays| && Allowed(world[a], op)
    modifies st, arrays[a], Parts(arrays[a])
    ensures Sound(st, arrays) && Shows(arrays, world[a := Next(world[a], op)]) && out == Answer(world[a], op)
    ensures forall e :: e in AllParts(arrays) ==> e in old(AllParts(arrays)) || fresh(e)
  {
    AllApart(st, arrays, a);
    ghost var others := arrays[..a] + arrays[a + 1..];
    assert forall k :: 0 <= k < |arrays| && k != a ==> arrays[k] in others;
    out := PerformApart(st, arrays[a], op, others);
  }

  method CopyAmong(st: Statics, arrays: seq<Array>, a: nat, ghost world: World) returns (more: seq<Array>)
    requires Sound(st, arrays) && Shows(arrays, world) && a < |arrays|
    ensures Sound(st, more) && Shows(more, world + [world[a]])
    ensures |more| == |arrays| + 1 && more[..|arrays|] == arrays && fresh(more[|arrays|])
    ensures forall e :: e in AllParts(more) ==> e in old(AllParts(arrays)) || fresh(e)
  {
    var r := st.Copy(arrays[a]);
    more := arrays + [r];
  }

  /** One step of a run */
  method Act(st: Statics, arrays: seq<Array>, x: Action, ghost world: World) returns (out: Out, next: seq<Array>)
    requires Sound(st, arrays) && Shows(arrays, world) && LegalStep(world, x)
    modifies st, arrays, AllParts(arrays)
    ensures out == AnswerTo(world, x)
    ensures Sound(st, next) && Shows(next, NextWorld(world, x))
    ensures forall k :: 0 <= k < |next| ==> next[k] in arrays || fresh(next[k])
    ensures forall e :: e in AllParts(next) ==> e in old(AllParts(arrays)) || fresh(e)
  {
    out, next := Nothing, arrays;
    if x.Do? {
      out := PerformAmong(st, arrays, x.a, x.op, world);
    } else {
      next := CopyAmong(st, arrays, x.a, world);
      assert forall k :: 0 <= k < |arrays| ==> next[k] == arrays[k];
    }
  }

  /** Any run, interleaved over any number of arrays that share the remembered element, gives
      the answers that independent finite maps give, and leaves every array well formed. */
  method Run(st: Statics, arrays: seq<Array>, actions: seq<Action>, ghost world: World)
    returns (outs: seq<Out>, now: seq<Array>)
    requires Sound(st, arrays) && Shows(arrays, world) && Legal(world, actions)
    modifies st, arrays, AllParts(arrays)
    ensures outs == Answers(world, actions)
    ensures Sound(st, now) && Shows(now, WorldAfter(world, actions))
    decreases |actions|
  {
    if actions == [] {
      return [], arrays;
    }
    var out, next := Act(st, arrays, actions[0], world);
    outs, now := Run(st, next, actions[1..], NextWorld(world, actions[0]));
    outs := [out] + outs;
  }
}
