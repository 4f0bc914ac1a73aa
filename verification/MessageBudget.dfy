/**
 * The budget on worker messages: an estimate of the size of a cloned object graph that may
 * share objects and contain cycles.
 */
module MessageBudget {

  const MAX_MESSAGE_BYTES := 12 * 1024 * 1024

  type Id = nat

  /** What a slot can hold. `Nothing` stands for null, undefined and anything else that costs nothing. */
  datatype Value = Text(chars: string) | Number | Truth | Nothing | Ref(id: Id)

  /** The objects a structured clone can produce. An array is a plain object whose keys are its indices. */
  datatype Body =
    | Buffer(byteLength: nat)
    | MapObject(pairs: seq<(Value, Value)>)
    | SetObject(items: seq<Value>)
    | PlainObject(fields: seq<(string, Value)>)

  type Heap = map<Id, Body>

  // ---------- The graph ----------

  function PairSlots(pairs: seq<(Value, Value)>): seq<Value> {
    if pairs == [] then [] else [pairs[0].0, pairs[0].1] + PairSlots(pairs[1..])
  }

  function FieldSlots(fields: seq<(string, Value)>): seq<Value> {
    if fields == [] then [] else [fields[0].1] + FieldSlots(fields[1..])
  }

  function Slots(body: Body): seq<Value> {
    match body
    case Buffer(_) => []
    case MapObject(pairs) => PairSlots(pairs)
    case SetObject(items) => items
    case PlainObject(fields) => FieldSlots(fields)
  }

  ghost predicate WellFormed(h: Heap, root: Value) {
    && (root.Ref? ==> root.id in h)
    && (forall o, v :: o in h && v in Slots(h[o]) && v.Ref? ==> v.id in h)
  }

  /** A chain of references from the root, through one slot after another. */
  ghost predicate IsChain(h: Heap, root: Value, chain: seq<Id>) {
    && chain != [] && root == Ref(chain[0])
    && (forall i :: 0 <= i < |chain| ==> chain[i] in h)
    && (forall i :: 0 < i < |chain| ==> Ref(chain[i]) in Slots(h[chain[i - 1]]))
  }

  ghost predicate LeadsTo(chain: seq<Id>, o: Id) {
    chain != [] && chain[|chain| - 1] == o
  }

  ghost function Reachable(h: Heap, root: Value): (reached: set<Id>)
    ensures reached <= h.Keys
  {
    set o | o in h && exists chain :: IsChain(h, root, chain) && LeadsTo(chain, o)
  }

  // ---------- The weight ----------

  function PrimitiveWeight(v: Value): nat {
    match v
    case Text(chars) => |chars| * 2
    case Number => 8
    case Truth => 4
    case Nothing => 0
    case Ref(_) => 0
  }

  function SlotWeight(slots: seq<Value>): nat {
    if slots == [] then 0 else PrimitiveWeight(slots[0]) + SlotWeight(slots[1..])
  }

  function KeyWeight(fields: seq<(string, Value)>): nat {
    if fields == [] then 0 else |fields[0].0| * 2 + KeyWeight(fields[1..])
  }

  /** What an object costs besides its slots. */
  function Overhead(body: Body): nat {
    match body
    case Buffer(byteLength) => byteLength
    case MapObject(pairs) => |pairs| * 16
    case SetObject(items) => |items| * 8
    case PlainObject(fields) => |fields| * 8 + KeyWeight(fields)
  }

  function BodyWeight(body: Body): nat {
    Overhead(body) + SlotWeight(Slots(body))
  }

  ghost function TotalWeight(h: Heap, objects: set<Id>): nat
    requires objects <= h.Keys
  {
    if objects == {} then 0
    else
      var o :| o in objects;
      BodyWeight(h[o]) + TotalWeight(h, objects - {o})
  }

  /** Every reachable object once, and every primitive once for each slot that holds it. */
  ghost function Weight(h: Heap, root: Value): nat {
    PrimitiveWeight(root) + TotalWeight(h, Reachable(h, root))
  }

  lemma {:induction false} TotalWeightSplits(h: Heap, objects: set<Id>, o: Id)
    requires objects <= h.Keys && o in objects
    ensures TotalWeight(h, objects) == BodyWeight(h[o]) + TotalWeight(h, objects - {o})
    decreases |objects|
  {
    var p :| p in objects && TotalWeight(h, objects) == BodyWeight(h[p]) + TotalWeight(h, objects - {p});
    if p != o {
      TotalWeightSplits(h, objects - {p}, o);
      TotalWeightSplits(h, objects - {o}, p);
      assert objects - {p} - {o} == objects - {o} - {p};
    }
  }

  lemma {:induction false} TotalWeightGrows(h: Heap, some: set<Id>, all: set<Id>)
    requires some <= all <= h.Keys
    ensures TotalWeight(h, some) <= TotalWeight(h, all)
    decreases |some|
  {
    if o :| o in some {
      TotalWeightSplits(h, some, o);
      TotalWeightSplits(h, all, o);
      TotalWeightGrows(h, some - {o}, all - {o});
    }
  }

  lemma {:induction false} SlotWeightAppends(a: seq<Value>, b: seq<Value>)
    ensures SlotWeight(a + b) == SlotWeight(a) + SlotWeight(b)
  {
    if a == [] {
      assert a + b == b;
    } else {
      assert (a + b)[1..] == a[1..] + b;
      SlotWeightAppends(a[1..], b);
    }
  }

  // ---------- What is charged ----------

  /** Two bytes for each code unit of a text, eight for a number, four for a truth value. */
  lemma PrimitiveCharges(chars: string, id: Id)
    ensures PrimitiveWeight(Text(chars)) == 2 * |chars|
    ensures PrimitiveWeight(Number) == 8 && PrimitiveWeight(Truth) == 4
    ensures PrimitiveWeight(Nothing) == 0 && PrimitiveWeight(Ref(id)) == 0
  {
  }

  /** A buffer weighs its bytes, and an object that holds nothing weighs nothing. */
  lemma EmptyCharges(n: nat)
    ensures BodyWeight(Buffer(n)) == n && Slots(Buffer(n)) == []
    ensures BodyWeight(MapObject([])) == BodyWeight(SetObject([])) == BodyWeight(PlainObject([])) == 0
    ensures Slots(MapObject([])) == Slots(SetObject([])) == Slots(PlainObject([])) == []
  {
  }

  lemma {:induction false} PairSlotsAppend(pairs: seq<(Value, Value)>, k: Value, v: Value)
    ensures PairSlots(pairs + [(k, v)]) == PairSlots(pairs) + [k, v]
  {
    if pairs == [] {
      assert (pairs + [(k, v)])[1..] == [];
    } else {
      assert (pairs + [(k, v)])[1..] == pairs[1..] + [(k, v)];
      PairSlotsAppend(pairs[1..], k, v);
    }
  }

  lemma {:induction false} FieldSlotsAppend(fields: seq<(string, Value)>, name: string, v: Value)
    ensures FieldSlots(fields + [(name, v)]) == FieldSlots(fields) + [v]
    ensures KeyWeight(fields + [(name, v)]) == KeyWeight(fields) + 2 * |name|
  {
    if fields == [] {
      assert (fields + [(name, v)])[1..] == [];
    } else {
      assert (fields + [(name, v)])[1..] == fields[1..] + [(name, v)];
      FieldSlotsAppend(fields[1..], name, v);
    }
  }

  lemma TwoSlots(k: Value, v: Value)
    ensures SlotWeight([v]) == PrimitiveWeight(v)
    ensures SlotWeight([k, v]) == PrimitiveWeight(k) + PrimitiveWeight(v)
  {
    assert [k, v][1..] == [v] && [v][1..] == [];
  }

  /** One more entry costs sixteen bytes in a map, eight in a set, and eight with its key in an object. */
  lemma EntryCharges(pairs: seq<(Value, Value)>, items: seq<Value>, fields: seq<(string, Value)>, k: Value, v: Value,
                     name: string)
    ensures Slots(MapObject(pairs + [(k, v)])) == Slots(MapObject(pairs)) + [k, v]
    ensures BodyWeight(MapObject(pairs + [(k, v)]))
            == BodyWeight(MapObject(pairs)) + 16 + PrimitiveWeight(k) + PrimitiveWeight(v)
    ensures Slots(SetObject(items + [v])) == Slots(SetObject(items)) + [v]
    ensures BodyWeight(SetObject(items + [v])) == BodyWeight(SetObject(items)) + 8 + PrimitiveWeight(v)
    ensures Slots(PlainObject(fields + [(name, v)])) == Slots(PlainObject(fields)) + [v]
    ensures BodyWeight(PlainObject(fields + [(name, v)]))
            == BodyWeight(PlainObject(fields)) + 8 + 2 * |name| + PrimitiveWeight(v)
  {
    hide PrimitiveWeight, SlotWeight;
    TwoSlots(k, v);
    PairSlotsAppend(pairs, k, v);
    SlotWeightAppends(PairSlots(pairs), [k, v]);
    SlotWeightAppends(items, [v]);
    FieldSlotsAppend(fields, name, v);
    SlotWeightAppends(FieldSlots(fields), [v]);
  }

  // ---------- Closed sets ----------

  ghost predicate Covers(objects: set<Id>, pending: seq<Value>, slots: seq<Value>) {
    forall v :: v in slots && v.Ref? ==> v.id in objects || v in pending
  }

  lemma {:induction false} ChainsStayInside(h: Heap, root: Value, closed: set<Id>, chain: seq<Id>)
    requires Covers(closed, [], [root]) && (forall o :: o in closed && o in h ==> Covers(closed, [], Slots(h[o])))
    requires IsChain(h, root, chain)
    ensures chain[|chain| - 1] in closed
    decreases |chain|
  {
    if |chain| > 1 {
      var shorter := chain[..|chain| - 1];
      ChainsStayInside(h, root, closed, shorter);
      assert Covers(closed, [], Slots(h[shorter[|shorter| - 1]]));
      assert Ref(chain[|chain| - 1]) in Slots(h[chain[|chain| - 2]]);
    } else {
      assert root in [root];
    }
  }

  lemma SlotsAreReachable(h: Heap, root: Value, o: Id, v: Value)
    requires WellFormed(h, root) && o in Reachable(h, root) && v in Slots(h[o]) && v.Ref?
    ensures v.id in Reachable(h, root)
  {
    var chain :| IsChain(h, root, chain) && LeadsTo(chain, o);
    assert IsChain(h, root, chain + [v.id]) && LeadsTo(chain + [v.id], v.id);
  }

  lemma RootIsReachable(h: Heap, root: Value)
    requires WellFormed(h, root) && root.Ref?
    ensures root.id in Reachable(h, root)
  {
    assert IsChain(h, root, [root.id]) && LeadsTo([root.id], root.id);
  }

  // ---------- The traversal ----------

  method PushPairs(pending: seq<Value>, pairs: seq<(Value, Value)>) returns (pushed: seq<Value>)
    ensures pushed == pending + PairSlots(pairs)
  {
    pushed := pending;
    assert pairs[0..] == pairs;
    for i := 0 to |pairs|
      invariant pushed + PairSlots(pairs[i..]) == pending + PairSlots(pairs)
    {
      assert pairs[i..][1..] == pairs[i + 1..];
      pushed := pushed + [pairs[i].0, pairs[i].1];
    }
  }

  method PushFields(pending: seq<Value>, fields: seq<(string, Value)>,
                    bytes: nat) returns (pushed: seq<Value>, total: nat)
    ensures pushed == pending + FieldSlots(fields) && total == bytes + KeyWeight(fields)
  {
    pushed, total := pending, bytes;
    assert fields[0..] == fields;
    for i := 0 to |fields|
      invariant pushed + FieldSlots(fields[i..]) == pending + FieldSlots(fields)
      invariant total + KeyWeight(fields[i..]) == bytes + KeyWeight(fields)
    {
      assert fields[i..][1..] == fields[i + 1..];
      total := total + |fields[i].0| * 2;
      pushed := pushed + [fields[i].1];
    }
  }

  /** Charges for an object seen for the first time and pushes its slots. */
  method Visit(pending: seq<Value>, body: Body, bytes: nat) returns (pushed: seq<Value>, total: nat)
    ensures pushed == pending + Slots(body) && total == bytes + Overhead(body)
  {
    match body
    case Buffer(byteLength) =>
      pushed, total := pending, bytes + byteLength;
    case MapObject(pairs) =>
      pushed := PushPairs(pending, pairs);
      total := bytes + |pairs| * 16;
    case SetObject(items) =>
      pushed, total := pending + items, bytes + |items| * 8;
    case PlainObject(fields) =>
      pushed, total := PushFields(pending, fields, bytes + |fields| * 8);
  }

  ghost predicate Frontier(h: Heap, root: Value, seen: set<Id>, pending: seq<Value>) {
    && seen <= Reachable(h, root)
    && (forall v :: v in pending && v.Ref? ==> v.id in Reachable(h, root))
    && Covers(seen, pending, [root])
    && (forall o :: o in seen && o in h ==> Covers(seen, pending, Slots(h[o])))
  }

  lemma FrontierPops(h: Heap, root: Value, seen: set<Id>, pending: seq<Value>, last: Value)
    requires Frontier(h, root, seen, pending + [last])
    requires last.Ref? ==> last.id in seen
    ensures Frontier(h, root, seen, pending)
  {
    assert forall v :: v in pending + [last] <==> v in pending || v == last;
  }

  lemma FrontierVisits(h: Heap, root: Value, seen: set<Id>, pending: seq<Value>, o: Id)
    requires WellFormed(h, root) && o in h && Frontier(h, root, seen, pending + [Ref(o)])
    ensures Frontier(h, root, seen + {o}, pending + Slots(h[o]))
  {
    assert Ref(o) in pending + [Ref(o)];
    assert forall v :: v in pending + [Ref(o)] <==> v in pending || v == Ref(o);
    forall v | v in Slots(h[o]) && v.Ref?
      ensures v.id in Reachable(h, root)
    {
      SlotsAreReachable(h, root, o, v);
    }
  }

  lemma EmptyFrontierIsAll(h: Heap, root: Value, seen: set<Id>)
    requires Frontier(h, root, seen, [])
    ensures seen == Reachable(h, root)
  {
    forall o | o in Reachable(h, root)
      ensures o in seen
    {
      var chain :| IsChain(h, root, chain) && LeadsTo(chain, o);
      ChainsStayInside(h, root, seen, chain);
    }
  }

  /** What has been counted and what is pending make up what has been met, each object once. */
  ghost predicate IsAccounted(h: Heap, root: Value, seen: set<Id>, pending: seq<Value>, bytes: nat) {
    && Frontier(h, root, seen, pending) && seen <= h.Keys
    && bytes + SlotWeight(pending) == PrimitiveWeight(root) + TotalWeight(h, seen)
  }

  lemma StartIsAccounted(h: Heap, root: Value)
    requires WellFormed(h, root)
    ensures IsAccounted(h, root, {}, [root], 0)
  {
    hide Reachable;
    if root.Ref? {
      RootIsReachable(h, root);
    }
    assert SlotWeight([root][1..]) == 0;
  }

  /** A primitive, or an object met before, is counted for what it weighs by itself. */
  lemma PopIsAccounted(h: Heap, root: Value, seen: set<Id>, pending: seq<Value>, last: Value, bytes: nat)
    requires IsAccounted(h, root, seen, pending + [last], bytes) && (last.Ref? ==> last.id in seen)
    ensures IsAccounted(h, root, seen, pending, bytes + PrimitiveWeight(last))
  {
    hide Frontier, TotalWeight;
    FrontierPops(h, root, seen, pending, last);
    SlotWeightAppends(pending, [last]);
    assert SlotWeight([last]) == PrimitiveWeight(last) + SlotWeight([last][1..]);
  }

  /** An object not met before is counted for its overhead, and its slots are pending. */
  lemma VisitIsAccounted(h: Heap, root: Value, seen: set<Id>, pending: seq<Value>, o: Id, bytes: nat)
    requires WellFormed(h, root) && IsAccounted(h, root, seen, pending + [Ref(o)], bytes) && o !in seen
    ensures o in h && IsAccounted(h, root, seen + {o}, pending + Slots(h[o]), bytes + Overhead(h[o]))
  {
    PendingIsInHeap(h, root, seen, pending, o);
    hide Frontier, TotalWeight, WellFormed, Overhead, Slots;
    FrontierVisits(h, root, seen, pending, o);
    SlotWeightAppends(pending, [Ref(o)]);
    SlotWeightAppends(pending, Slots(h[o]));
    assert SlotWeight([Ref(o)]) == PrimitiveWeight(Ref(o)) + SlotWeight([Ref(o)][1..]);
    assert seen + {o} - {o} == seen;
    TotalWeightSplits(h, seen + {o}, o);
  }

  lemma PendingIsInHeap(h: Heap, root: Value, seen: set<Id>, pending: seq<Value>, o: Id)
    requires Frontier(h, root, seen, pending + [Ref(o)])
    ensures o in h
  {
    assert Ref(o) in pending + [Ref(o)];
  }

  lemma CountedIsPartOfWeight(h: Heap, root: Value, seen: set<Id>, pending: seq<Value>, bytes: nat)
    requires IsAccounted(h, root, seen, pending, bytes)
    ensures bytes <= Weight(h, root) && (pending == [] ==> bytes == Weight(h, root))
  {
    SeenIsReachable(h, root, seen, pending);
    if pending == [] {
      EmptyFrontierIsAll(h, root, seen);
    }
    hide Frontier, Reachable, TotalWeight;
    TotalWeightGrows(h, seen, Reachable(h, root));
  }

  lemma SeenIsReachable(h: Heap, root: Value, seen: set<Id>, pending: seq<Value>)
    requires Frontier(h, root, seen, pending)
    ensures seen <= Reachable(h, root)
  {
  }

  /** How many objects have not been met. */
  ghost function Unseen(h: Heap, seen: set<Id>): nat {
    |h.Keys - seen|
  }

  lemma FewerUnseen(h: Heap, seen: set<Id>, o: Id)
    requires o in h && o !in seen
    ensures Unseen(h, seen + {o}) < Unseen(h, seen)
  {
    assert h.Keys - (seen + {o}) == (h.Keys - seen) - {o};
  }

  /** The traversal stops, on cyclic graphs too, and accepts exactly the graphs within the budget. */
  method IsWithinMessageBudget(h: Heap, value: Value) returns (within: bool)
    requires WellFormed(h, value)
    ensures within <==> Weight(h, value) <= 12_582_912
  {
    hide IsAccounted, WellFormed, Weight, Slots, Overhead, SlotWeight, TotalWeight, Frontier, Reachable, Covers,
         IsChain, Unseen;
    var estimatedBytes: nat := 0;
    var pending := [value];
    var seen: set<Id> := {};
    StartIsAccounted(h, value);
    while |pending| > 0
      invariant IsAccounted(h, value, seen, pending, estimatedBytes) && estimatedBytes <= MAX_MESSAGE_BYTES
      decreases Unseen(h, seen), |pending|
    {
      var current := pending[|pending| - 1];
      assert pending == pending[..|pending| - 1] + [current];
      pending := pending[..|pending| - 1];
      if current.Ref? && current.id !in seen {
        VisitIsAccounted(h, value, seen, pending, current.id, estimatedBytes);
      } else {
        PopIsAccounted(h, value, seen, pending, current, estimatedBytes);
      }
      match current {
        case Text(chars) => estimatedBytes := estimatedBytes + |chars| * 2;
        case Number => estimatedBytes := estimatedBytes + 8;
        case Truth => estimatedBytes := estimatedBytes + 4;
        case Nothing =>
        case Ref(id) =>
          if id in seen {
            continue;
          }
          FewerUnseen(h, seen, id);
          seen := seen + {id};
          pending, estimatedBytes := Visit(pending, h[id], estimatedBytes);
      }
      if estimatedBytes > MAX_MESSAGE_BYTES {
        CountedIsPartOfWeight(h, value, seen, pending, estimatedBytes);
        return false;
      }
    }
    CountedIsPartOfWeight(h, value, seen, pending, estimatedBytes);
    within := true;
  }

  // ---------- The order of slots does not matter ----------

  lemma SameRest(a: seq<Value>, b: seq<Value>, i: nat)
    requires a != [] && i < |b| && b[i] == a[0] && multiset(a) == multiset(b)
    ensures multiset(a[1..]) == multiset(b[..i] + b[i + 1..])
  {
    var rest := b[..i] + b[i + 1..];
    assert a == [a[0]] + a[1..];
    assert b == b[..i] + ([b[i]] + b[i + 1..]);
    assert multiset(a) == multiset{a[0]} + multiset(a[1..]);
    assert multiset(b) == multiset{b[i]} + multiset(rest);
    assert multiset(a[1..]) == multiset(a) - multiset{a[0]};
    assert multiset(rest) == multiset(b) - multiset{b[i]};
  }

  lemma {:induction false} SlotWeightIgnoresOrder(a: seq<Value>, b: seq<Value>)
    requires multiset(a) == multiset(b)
    ensures SlotWeight(a) == SlotWeight(b)
    decreases |a|
  {
    if a == [] {
      assert |multiset(b)| == 0;
    } else {
      assert a[0] in multiset(b);
      var i :| 0 <= i < |b| && b[i] == a[0];
      var rest := b[..i] + b[i + 1..];
      assert b == b[..i] + ([b[i]] + b[i + 1..]);
      SameRest(a, b, i);
      SlotWeightIgnoresOrder(a[1..], rest);
      SlotWeightAppends(b[..i], [b[i]] + b[i + 1..]);
      SlotWeightAppends(b[..i], b[i + 1..]);
    }
  }

  /** Two heaps whose objects differ only in the order of their slots. */
  ghost predicate Reordered(h: Heap, g: Heap) {
    && h.Keys == g.Keys
    && forall o :: o in h ==> Overhead(h[o]) == Overhead(g[o]) && multiset(Slots(h[o])) == multiset(Slots(g[o]))
  }

  lemma ReorderedBack(h: Heap, g: Heap)
    requires Reordered(h, g)
    ensures Reordered(g, h)
  {
    hide Slots, Overhead;
  }

  lemma ChainTransfers(h: Heap, g: Heap, root: Value, chain: seq<Id>)
    requires Reordered(h, g) && IsChain(h, root, chain)
    ensures IsChain(g, root, chain)
  {
    hide Slots, Overhead;
    forall i | 0 < i < |chain|
      ensures Ref(chain[i]) in Slots(g[chain[i - 1]])
    {
      assert chain[i - 1] in h;
      assert Ref(chain[i]) in multiset(Slots(h[chain[i - 1]]));
    }
  }

  lemma ReachableTransfers(h: Heap, g: Heap, root: Value)
    requires Reordered(h, g)
    ensures Reachable(h, root) <= Reachable(g, root)
  {
    forall o | o in Reachable(h, root)
      ensures o in Reachable(g, root)
    {
      var chain :| IsChain(h, root, chain) && LeadsTo(chain, o);
      ChainTransfers(h, g, root, chain);
    }
  }

  lemma {:induction false} ReorderedTotal(h: Heap, g: Heap, objects: set<Id>)
    requires Reordered(h, g) && objects <= h.Keys
    ensures TotalWeight(h, objects) == TotalWeight(g, objects)
    decreases |objects|
  {
    if o :| o in objects {
      TotalWeightSplits(h, objects, o);
      TotalWeightSplits(g, objects, o);
      SlotWeightIgnoresOrder(Slots(h[o]), Slots(g[o]));
      ReorderedTotal(h, g, objects - {o});
    }
  }

  /** The order in which slots are stored, and so pushed, does not change the weight. */
  lemma WeightIgnoresOrder(h: Heap, g: Heap, root: Value)
    requires Reordered(h, g)
    ensures Weight(h, root) == Weight(g, root)
  {
    ReorderedBack(h, g);
    hide Reachable, Reordered, Slots, Overhead, TotalWeight;
    ReachableTransfers(h, g, root);
    ReachableTransfers(g, h, root);
    assert Reachable(h, root) == Reachable(g, root);
    ReorderedTotal(h, g, Reachable(h, root));
  }
}
