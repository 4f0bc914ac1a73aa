/**
 * The budget on tool inputs: an object graph is let through exactly when it is a tree of JSON
 * values within the limits on nodes, depth and bytes.
 */
module InputBudget {
  import opened Prelude
  import opened CanonicalJson

  const MAX_INPUT_BYTES := 1024 * 1024
  const MAX_INPUT_NODES := 16384
  const MAX_INPUT_DEPTH := 32

  type Id = nat

  /** What a slot can hold. A foreign value is undefined, a function, a symbol or a big integer. */
  datatype Value =
    | Chars(chars: Text)
    | Numeral(token: Text)
    | NotFinite
    | Truth(truth: bool)
    | Nil
    | Foreign
    | Ref(id: Id)

  datatype Field = Field(key: Text, value: Value)

  /** Arrays, plain objects, and objects of any other prototype. */
  datatype Body = List(items: seq<Value>) | Record(fields: seq<Field>) | Exotic

  type Heap = map<Id, Body>

  datatype BudgetError = TooComplex | NotFiniteNumber | Revisited | NotJson | TooLarge

  function FieldValues(fields: seq<Field>): (values: seq<Value>)
    ensures |values| == |fields| && forall i :: 0 <= i < |fields| ==> values[i] == fields[i].value
  {
    seq(|fields|, i requires 0 <= i < |fields| => fields[i].value)
  }

  function Slots(body: Body): seq<Value> {
    match body
    case List(items) => items
    case Record(fields) => FieldValues(fields)
    case Exotic => []
  }

  ghost predicate WellFormed(h: Heap, root: Value) {
    && (root.Ref? ==> root.id in h)
    && (forall o, v :: o in h && v in Slots(h[o]) && v.Ref? ==> v.id in h)
  }

  // ---------- Trees ----------

  function Depth(t: Json): nat
    decreases t
  {
    match t
    case Array(items) => DepthAll(items)
    case Object(members) => DepthMembers(members)
    case _ => 0
  }

  /** One more than the depth of the deepest. */
  function DepthAll(ts: seq<Json>): nat
    decreases ts
  {
    if ts == [] then 0 else
      var rest := DepthAll(ts[1..]);
      if Depth(ts[0]) + 1 > rest then Depth(ts[0]) + 1 else rest
  }

  function DepthMembers(members: seq<Member>): nat
    decreases members
  {
    if members == [] then 0 else
      var rest := DepthMembers(members[1..]);
      if Depth(members[0].value) + 1 > rest then Depth(members[0].value) + 1 else rest
  }

  function MemberValues(members: seq<Member>): (values: seq<Json>)
    ensures |values| == |members| && forall i :: 0 <= i < |members| ==> values[i] == members[i].value
    ensures DepthAll(values) == DepthMembers(members)
  {
    if members == [] then [] else [members[0].value] + MemberValues(members[1..])
  }

  function Children(t: Json): (ts: seq<Json>)
    ensures DepthAll(ts) == Depth(t)
  {
    match t
    case Array(items) => items
    case Object(members) => MemberValues(members)
    case _ => []
  }

  function Nodes(t: Json): nat
    decreases Depth(t), 1, 0
  {
    1 + NodesAll(Children(t))
  }

  function NodesAll(ts: seq<Json>): nat
    decreases DepthAll(ts), 0, |ts|
  {
    if ts == [] then 0 else Nodes(ts[0]) + NodesAll(ts[1..])
  }

  function KeyBytes(members: seq<Member>): nat {
    if members == [] then 0 else |members[0].key| * 2 + KeyBytes(members[1..])
  }

  function OwnBytes(t: Json): nat {
    match t
    case String(chars) => |chars| * 2
    case Number(_) => 8
    case Boolean(_) => 4
    case Null => 4
    case Array(_) => 0
    case Object(members) => KeyBytes(members)
  }

  function Bytes(t: Json): nat
    decreases Depth(t), 1, 0
  {
    OwnBytes(t) + BytesAll(Children(t))
  }

  function BytesAll(ts: seq<Json>): nat
    decreases DepthAll(ts), 0, |ts|
  {
    if ts == [] then 0 else Bytes(ts[0]) + BytesAll(ts[1..])
  }

  lemma {:induction false} LastOfAll(ts: seq<Json>, t: Json)
    ensures NodesAll(ts + [t]) == NodesAll(ts) + Nodes(t) && BytesAll(ts + [t]) == BytesAll(ts) + Bytes(t)
    ensures DepthAll(ts + [t]) == if Depth(t) + 1 > DepthAll(ts) then Depth(t) + 1 else DepthAll(ts)
    decreases |ts|
  {
    if ts == [] {
      assert (ts + [t])[1..] == [];
    } else {
      assert (ts + [t])[1..] == ts[1..] + [t];
      LastOfAll(ts[1..], t);
    }
  }

  lemma {:induction false} LastMember(members: seq<Member>, m: Member)
    ensures MemberValues(members + [m]) == MemberValues(members) + [m.value]
    ensures KeyBytes(members + [m]) == KeyBytes(members) + 2 * |m.key|
  {
    if members == [] {
      assert (members + [m])[1..] == [];
    } else {
      assert (members + [m])[1..] == members[1..] + [m];
      LastMember(members[1..], m);
    }
  }

  /** Leaves and empty containers are one node. A code unit counts two bytes, a number eight, the rest four. */
  lemma LeavesMeasure(chars: Text, token: Text, truth: bool)
    ensures Nodes(String(chars)) == Nodes(Number(token)) == Nodes(Boolean(truth)) == Nodes(Null) == 1
    ensures Depth(String(chars)) == Depth(Number(token)) == Depth(Boolean(truth)) == Depth(Null) == 0
    ensures Bytes(String(chars)) == 2 * |chars| && Bytes(Number(token)) == 8
    ensures Bytes(Boolean(truth)) == Bytes(Null) == 4
    ensures Nodes(Array([])) == Nodes(Object([])) == 1 && Depth(Array([])) == Depth(Object([])) == 0
    ensures Bytes(Array([])) == Bytes(Object([])) == 0
  {
  }

  /** An item or a member more adds its own nodes and bytes, those of its key too, and is one level down. */
  lemma ContainersMeasure(items: seq<Json>, members: seq<Member>, t: Json, key: Text)
    ensures Nodes(Array(items + [t])) == Nodes(Array(items)) + Nodes(t)
    ensures Bytes(Array(items + [t])) == Bytes(Array(items)) + Bytes(t)
    ensures Nodes(Object(members + [Member(key, t)])) == Nodes(Object(members)) + Nodes(t)
    ensures Bytes(Object(members + [Member(key, t)])) == Bytes(Object(members)) + 2 * |key| + Bytes(t)
    ensures Depth(Array(items + [t])) == if Depth(t) >= Depth(Array(items)) then Depth(t) + 1 else Depth(Array(items))
    ensures Depth(Object(members + [Member(key, t)]))
            == if Depth(t) >= Depth(Object(members)) then Depth(t) + 1 else Depth(Object(members))
  {
    hide NodesAll, BytesAll, DepthAll, DepthMembers, MemberValues, KeyBytes;
    LastOfAll(items, t);
    LastMember(members, Member(key, t));
    LastOfAll(MemberValues(members), t);
  }

  // ---------- What a slot denotes ----------

  /** The value at hand is the root of the tree, its children aside. */
  predicate IsHead(h: Heap, v: Value, t: Json) {
    match v
    case Chars(chars) => t == String(chars)
    case Numeral(token) => t == Number(token)
    case Truth(truth) => t == Boolean(truth)
    case Nil => t == Null
    case Ref(id) =>
      && id in h
      && (h[id].List? ==> t.Array? && |t.items| == |h[id].items|)
      && (h[id].Record? ==> t.Object? && |t.members| == |h[id].fields|
                            && forall i :: 0 <= i < |t.members| ==> t.members[i].key == h[id].fields[i].key)
      && !h[id].Exotic?
    case _ => false
  }

  function SlotsAt(h: Heap, v: Value): seq<Value> {
    if v.Ref? && v.id in h then Slots(h[v.id]) else []
  }

  /** Unfolding the graph from this slot gives this tree. */
  ghost predicate Denotes(h: Heap, v: Value, t: Json)
    decreases Depth(t), 1, 0
  {
    IsHead(h, v, t) && DenotesAll(h, SlotsAt(h, v), Children(t))
  }

  ghost predicate DenotesAll(h: Heap, vs: seq<Value>, ts: seq<Json>)
    decreases DepthAll(ts), 0, |ts|
  {
    |vs| == |ts| && (ts != [] ==> Denotes(h, vs[0], ts[0]) && DenotesAll(h, vs[1..], ts[1..]))
  }

  function OwnId(v: Value): set<Id> {
    if v.Ref? then {v.id} else {}
  }

  /** How often each object is met in the unfolding. */
  ghost function Visits(h: Heap, v: Value, t: Json): multiset<Id>
    decreases Depth(t), 1, 0
  {
    multiset(OwnId(v)) + VisitsAll(h, SlotsAt(h, v), Children(t))
  }

  ghost function VisitsAll(h: Heap, vs: seq<Value>, ts: seq<Json>): multiset<Id>
    decreases DepthAll(ts), 0, |ts|
  {
    if ts == [] || vs == [] then multiset{} else Visits(h, vs[0], ts[0]) + VisitsAll(h, vs[1..], ts[1..])
  }

  ghost predicate Once(visits: multiset<Id>) {
    forall id :: visits[id] <= 1
  }

  /** The graph is a tree of JSON values within the limits; an object met twice makes it no tree. */
  ghost predicate IsTreeWithinBudget(h: Heap, root: Value, t: Json) {
    && Denotes(h, root, t) && Once(Visits(h, root, t))
    && Nodes(t) <= 16_384 && Depth(t) <= 32 && Bytes(t) <= 1_048_576
  }

  // ---------- What is left on the stack ----------

  datatype Entry = Entry(value: Value, depth: nat)

  function Values(stack: seq<Entry>): (vs: seq<Value>)
    ensures |vs| == |stack|
  {
    seq(|stack|, i requires 0 <= i < |stack| => stack[i].value)
  }

  function Entries(slots: seq<Value>, depth: nat): (entries: seq<Entry>)
    ensures |entries| == |slots|
  {
    seq(|slots|, i requires 0 <= i < |slots| => Entry(slots[i], depth))
  }

  ghost predicate WithinDepth(stack: seq<Entry>, ts: seq<Json>) {
    |stack| == |ts| && forall i :: 0 <= i < |stack| ==> stack[i].depth + Depth(ts[i]) <= MAX_INPUT_DEPTH
  }

  /** Trees for everything on the stack that fit in what is left of the budget. */
  ghost predicate Fits(h: Heap, nodes: nat, bytes: nat, seen: set<Id>, stack: seq<Entry>, ts: seq<Json>) {
    && DenotesAll(h, Values(stack), ts) && WithinDepth(stack, ts)
    && Once(multiset(seen) + VisitsAll(h, Values(stack), ts))
    && nodes + NodesAll(ts) <= MAX_INPUT_NODES && bytes + BytesAll(ts) <= MAX_INPUT_BYTES
  }

  ghost predicate Promising(h: Heap, nodes: nat, bytes: nat, seen: set<Id>, stack: seq<Entry>) {
    exists ts :: Fits(h, nodes, bytes, seen, stack, ts)
  }

  /** Whether the value at hand passes its own checks. */
  predicate Passes(h: Heap, nodes: nat, seen: set<Id>, current: Entry) {
    && nodes + 1 <= MAX_INPUT_NODES && current.depth <= MAX_INPUT_DEPTH
    && !current.value.NotFinite? && !current.value.Foreign?
    && (current.value.Ref? ==> current.value.id !in seen && current.value.id in h && !h[current.value.id].Exotic?)
  }

  function FieldBytes(fields: seq<Field>): nat {
    if fields == [] then 0 else |fields[0].key| * 2 + FieldBytes(fields[1..])
  }

  /** What the value at hand adds to the count of bytes. */
  function Cost(h: Heap, v: Value): nat {
    match v
    case Chars(chars) => |chars| * 2
    case Numeral(_) => 8
    case Truth(_) => 4
    case Nil => 4
    case Ref(id) => if id in h && h[id].Record? then FieldBytes(h[id].fields) else 0
    case _ => 0
  }

  lemma {:induction false} KeyBytesAreFieldBytes(members: seq<Member>, fields: seq<Field>)
    requires |members| == |fields| && forall i :: 0 <= i < |members| ==> members[i].key == fields[i].key
    ensures KeyBytes(members) == FieldBytes(fields)
  {
    if members != [] {
      KeyBytesAreFieldBytes(members[1..], fields[1..]);
    }
  }

  lemma CostIsOwnBytes(h: Heap, v: Value, t: Json)
    requires IsHead(h, v, t)
    ensures Cost(h, v) == OwnBytes(t)
    ensures |SlotsAt(h, v)| == |Children(t)|
  {
    if v.Ref? && h[v.id].Record? {
      KeyBytesAreFieldBytes(t.members, h[v.id].fields);
    }
  }

  // ---------- Lists of trees in two parts ----------

  lemma {:induction false} SumsAppend(a: seq<Json>, b: seq<Json>)
    ensures NodesAll(a + b) == NodesAll(a) + NodesAll(b)
    ensures BytesAll(a + b) == BytesAll(a) + BytesAll(b)
  {
    if a == [] {
      assert a + b == b;
    } else {
      assert (a + b)[1..] == a[1..] + b;
      SumsAppend(a[1..], b);
    }
  }

  lemma {:induction false} DenotesAppends(h: Heap, vs: seq<Value>, ts: seq<Json>, ws: seq<Value>, us: seq<Json>)
    requires |vs| == |ts|
    ensures DenotesAll(h, vs + ws, ts + us) <==> DenotesAll(h, vs, ts) && DenotesAll(h, ws, us)
    ensures VisitsAll(h, vs + ws, ts + us) == VisitsAll(h, vs, ts) + VisitsAll(h, ws, us)
  {
    if vs == [] {
      assert vs + ws == ws && ts + us == us;
    } else {
      hide Denotes, Visits;
      assert (vs + ws)[1..] == vs[1..] + ws && (ts + us)[1..] == ts[1..] + us;
      DenotesAppends(h, vs[1..], ts[1..], ws, us);
    }
  }

  lemma {:induction false} DepthAllBounds(ts: seq<Json>, d: nat)
    requires d <= MAX_INPUT_DEPTH
    ensures d + DepthAll(ts) <= MAX_INPUT_DEPTH
            <==> forall i :: 0 <= i < |ts| ==> d + 1 + Depth(ts[i]) <= MAX_INPUT_DEPTH
  {
    if ts != [] {
      DepthAllBounds(ts[1..], d);
      assert ts == [ts[0]] + ts[1..];
      hide Depth;
      assert forall i :: 0 < i < |ts| ==> ts[i] == ts[1..][i - 1];
    }
  }

  lemma EntriesBound(slots: seq<Value>, ts: seq<Json>, d: nat)
    requires |slots| == |ts| && d <= MAX_INPUT_DEPTH
    ensures WithinDepth(Entries(slots, d + 1), ts) <==> d + DepthAll(ts) <= MAX_INPUT_DEPTH
  {
    DepthAllBounds(ts, d);
    hide Depth, DepthAll;
    if d + DepthAll(ts) <= MAX_INPUT_DEPTH {
      assert WithinDepth(Entries(slots, d + 1), ts);
    } else {
      var i :| 0 <= i < |ts| && d + 1 + Depth(ts[i]) > MAX_INPUT_DEPTH;
      assert Entries(slots, d + 1)[i].depth == d + 1;
    }
  }

  // ---------- One step of the loop ----------

  lemma OneTree(h: Heap, v: Value, t: Json)
    ensures NodesAll([t]) == Nodes(t) && BytesAll([t]) == Bytes(t)
    ensures DenotesAll(h, [v], [t]) <==> Denotes(h, v, t)
    ensures VisitsAll(h, [v], [t]) == Visits(h, v, t)
  {
    hide Nodes, Bytes, Denotes, Visits;
    assert NodesAll([]) == 0 && BytesAll([]) == 0 && VisitsAll(h, [], []) == multiset{};
  }

  /** Replacing a tree on top of the stack by its children, or children by their tree, changes nothing. */
  lemma TopUnfolds(h: Heap, nodes: nat, bytes: nat, seen: set<Id>, rest: seq<Entry>, current: Entry, ts: seq<Json>,
                   t: Json)
    requires |ts| == |rest| && IsHead(h, current.value, t) && Passes(h, nodes, seen, current)
    ensures Fits(h, nodes, bytes, seen, rest + [current], ts + [t])
            <==> Fits(h, nodes + 1, bytes + Cost(h, current.value), seen + OwnId(current.value),
                      rest + Entries(SlotsAt(h, current.value), current.depth + 1), ts + Children(t))
  {
    hide Nodes, Bytes, Denotes, Visits, Values, Entries, NodesAll, BytesAll, DenotesAll, VisitsAll, WithinDepth,
         IsHead, Passes,
         Children, Cost, OwnId, SlotsAt, Once;
    SumsUnfold(h, current.value, ts, t);
    DenotesUnfolds(h, rest, current, ts, t);
    VisitsUnfold(h, rest, current, ts, t);
    OwnIdIsNew(h, nodes, seen, current);
    DepthsUnfold(h, nodes, seen, rest, current, ts, t);
    var own, slots := OwnId(current.value), SlotsAt(h, current.value);
    var after := Values(rest + Entries(slots, current.depth + 1));
    assert multiset(seen) + (multiset(own) + VisitsAll(h, after, ts + Children(t)))
        == multiset(seen + own) + VisitsAll(h, after, ts + Children(t));
  }

  lemma OwnIdIsNew(h: Heap, nodes: nat, seen: set<Id>, current: Entry)
    requires Passes(h, nodes, seen, current)
    ensures multiset(seen + OwnId(current.value)) == multiset(seen) + multiset(OwnId(current.value))
  {
  }

  lemma SumsUnfold(h: Heap, v: Value, ts: seq<Json>, t: Json)
    requires IsHead(h, v, t)
    ensures NodesAll(ts + [t]) == 1 + NodesAll(ts + Children(t))
    ensures BytesAll(ts + [t]) == Cost(h, v) + BytesAll(ts + Children(t))
  {
    CostIsOwnBytes(h, v, t);
    OneTree(h, v, t);
    SumsAppend(ts, [t]);
    SumsAppend(ts, Children(t));
  }

  lemma ValuesAfter(h: Heap, rest: seq<Entry>, current: Entry)
    ensures Values(rest + [current]) == Values(rest) + [current.value]
    ensures Values(rest + Entries(SlotsAt(h, current.value), current.depth + 1))
            == Values(rest) + SlotsAt(h, current.value)
  {
  }

  lemma DenotesUnfolds(h: Heap, rest: seq<Entry>, current: Entry, ts: seq<Json>, t: Json)
    requires |ts| == |rest| && IsHead(h, current.value, t)
    ensures DenotesAll(h, Values(rest + [current]), ts + [t])
            <==> DenotesAll(h, Values(rest + Entries(SlotsAt(h, current.value), current.depth + 1)), ts + Children(t))
  {
    ValuesAfter(h, rest, current);
    OneTree(h, current.value, t);
    DenotesAppends(h, Values(rest), ts, [current.value], [t]);
    DenotesAppends(h, Values(rest), ts, SlotsAt(h, current.value), Children(t));
  }

  lemma VisitsUnfold(h: Heap, rest: seq<Entry>, current: Entry, ts: seq<Json>, t: Json)
    requires |ts| == |rest| && IsHead(h, current.value, t)
    ensures VisitsAll(h, Values(rest + [current]), ts + [t])
            == multiset(OwnId(current.value))
               + VisitsAll(h, Values(rest + Entries(SlotsAt(h, current.value), current.depth + 1)), ts + Children(t))
  {
    ValuesAfter(h, rest, current);
    OneTree(h, current.value, t);
    DenotesAppends(h, Values(rest), ts, [current.value], [t]);
    DenotesAppends(h, Values(rest), ts, SlotsAt(h, current.value), Children(t));
  }

  lemma DepthsUnfold(h: Heap, nodes: nat, seen: set<Id>, rest: seq<Entry>, current: Entry, ts: seq<Json>, t: Json)
    requires |ts| == |rest| && IsHead(h, current.value, t) && Passes(h, nodes, seen, current)
    ensures WithinDepth(rest + [current], ts + [t])
            <==> WithinDepth(rest + Entries(SlotsAt(h, current.value), current.depth + 1), ts + Children(t))
  {
    var entries := Entries(SlotsAt(h, current.value), current.depth + 1);
    CostIsOwnBytes(h, current.value, t);
    EntriesBound(SlotsAt(h, current.value), Children(t), current.depth);
    hide Depth, DepthAll, Children, SlotsAt, Entries, IsHead;
    WithinDepthAppends(rest, ts, entries, Children(t));
    WithinDepthAppends(rest, ts, [current], [t]);
    assert WithinDepth([current], [t]) <==> [current][0].depth + Depth([t][0]) <= MAX_INPUT_DEPTH;
  }

  lemma WithinDepthAppends(stack: seq<Entry>, ts: seq<Json>, more: seq<Entry>, us: seq<Json>)
    requires |stack| == |ts|
    ensures WithinDepth(stack + more, ts + us) <==> WithinDepth(stack, ts) && WithinDepth(more, us)
  {
    if WithinDepth(stack + more, ts + us) {
      forall i | 0 <= i < |stack|
        ensures stack[i].depth + Depth(ts[i]) <= MAX_INPUT_DEPTH
      {
        assert (stack + more)[i] == stack[i] && (ts + us)[i] == ts[i];
      }
      forall i | 0 <= i < |more|
        ensures more[i].depth + Depth(us[i]) <= MAX_INPUT_DEPTH
      {
        assert (stack + more)[|stack| + i] == more[i] && (ts + us)[|ts| + i] == us[i];
      }
    }
  }

  /** The tree whose root is the value at hand and whose children are given. */
  function Rebuild(h: Heap, v: Value, cs: seq<Json>): (t: Json)
    requires v.Ref? ==> v.id in h && !h[v.id].Exotic?
    requires |cs| == |SlotsAt(h, v)| && !v.NotFinite? && !v.Foreign?
    ensures IsHead(h, v, t) && Children(t) == cs
  {
    match v
    case Chars(chars) => String(chars)
    case Numeral(token) => Number(token)
    case Truth(truth) => Boolean(truth)
    case Nil => Null
    case Ref(id) =>
      match h[id]
      case List(_) => Array(cs)
      case Record(fields) =>
        var t := Object(seq(|cs|, i requires 0 <= i < |cs| => Member(fields[i].key, cs[i])));
        assert Children(t) == cs;
        t
  }

  ghost predicate PromisingAfter(h: Heap, nodes: nat, bytes: nat, seen: set<Id>, rest: seq<Entry>, current: Entry) {
    && Passes(h, nodes, seen, current)
    && Promising(h, nodes + 1, bytes + Cost(h, current.value), seen + OwnId(current.value),
                 rest + Entries(SlotsAt(h, current.value), current.depth + 1))
  }

  lemma PromiseStepsOn(h: Heap, nodes: nat, bytes: nat, seen: set<Id>, rest: seq<Entry>, current: Entry)
    requires Promising(h, nodes, bytes, seen, rest + [current])
    ensures PromisingAfter(h, nodes, bytes, seen, rest, current)
  {
    var ts :| Fits(h, nodes, bytes, seen, rest + [current], ts);
    assert |Values(rest + [current])| == |ts|;
    hide Fits, Passes;
    var us, t := ts[..|rest|], ts[|rest|];
    assert ts == us + [t];
    TopPasses(h, nodes, bytes, seen, rest, current, us, t);
    TopUnfolds(h, nodes, bytes, seen, rest, current, us, t);
  }

  lemma PromiseStepsBack(h: Heap, nodes: nat, bytes: nat, seen: set<Id>, rest: seq<Entry>, current: Entry)
    requires PromisingAfter(h, nodes, bytes, seen, rest, current)
    ensures Promising(h, nodes, bytes, seen, rest + [current])
  {
    hide Cost, OwnId, IsHead, Once, NodesAll, BytesAll, VisitsAll, WithinDepth, Values, Entries, Children, Nodes, Bytes;
    var after := rest + Entries(SlotsAt(h, current.value), current.depth + 1);
    var ts :| Fits(h, nodes + 1, bytes + Cost(h, current.value), seen + OwnId(current.value), after, ts);
    assert |Values(after)| == |ts|;
    var us, cs := ts[..|rest|], ts[|rest|..];
    assert ts == us + cs;
    var t := Rebuild(h, current.value, cs);
    TopUnfolds(h, nodes, bytes, seen, rest, current, us, t);
  }

  /** Taking one value off the stack and pushing its slots keeps the promise both ways. */
  lemma StepKeepsPromise(h: Heap, nodes: nat, bytes: nat, seen: set<Id>, rest: seq<Entry>, current: Entry)
    ensures Promising(h, nodes, bytes, seen, rest + [current]) <==> PromisingAfter(h, nodes, bytes, seen, rest, current)
  {
    hide PromisingAfter, Promising;
    if Promising(h, nodes, bytes, seen, rest + [current]) {
      PromiseStepsOn(h, nodes, bytes, seen, rest, current);
    }
    if PromisingAfter(h, nodes, bytes, seen, rest, current) {
      PromiseStepsBack(h, nodes, bytes, seen, rest, current);
    }
  }

  lemma TopPasses(h: Heap, nodes: nat, bytes: nat, seen: set<Id>, rest: seq<Entry>, current: Entry, ts: seq<Json>,
                  t: Json)
    requires |ts| == |rest| && Fits(h, nodes, bytes, seen, rest + [current], ts + [t])
    ensures IsHead(h, current.value, t) && Passes(h, nodes, seen, current)
  {
    assert Values(rest + [current]) == Values(rest) + [current.value];
    DenotesAppends(h, Values(rest), ts, [current.value], [t]);
    OneTree(h, current.value, t);
    SumsAppend(ts, [t]);
    WithinDepthAppends(rest, ts, [current], [t]);
    assert [current][0].depth + Depth([t][0]) <= MAX_INPUT_DEPTH;
    if current.value.Ref? {
      var visits := multiset(seen) + VisitsAll(h, Values(rest + [current]), ts + [t]);
      assert visits[current.value.id] <= 1;
      assert multiset(OwnId(current.value))[current.value.id] == 1;
    }
  }

  lemma PromiseIsWithinBytes(h: Heap, nodes: nat, bytes: nat, seen: set<Id>, stack: seq<Entry>)
    ensures Promising(h, nodes, bytes, seen, stack) ==> nodes <= MAX_INPUT_NODES && bytes <= MAX_INPUT_BYTES
  {
  }

  lemma RootPromise(h: Heap, root: Value)
    ensures Promising(h, 0, 0, {}, [Entry(root, 0)]) <==> exists t :: IsTreeWithinBudget(h, root, t)
  {
    var stack := [Entry(root, 0)];
    assert Values(stack) == [root];
    forall t
      ensures Fits(h, 0, 0, {}, stack, [t]) <==> IsTreeWithinBudget(h, root, t)
    {
      OneTree(h, root, t);
      hide DenotesAll, VisitsAll, Denotes, Visits, NodesAll, BytesAll, Nodes, Bytes, Depth;
      assert multiset(var none: set<Id> := {}; none) + Visits(h, root, t) == Visits(h, root, t);
      assert stack[0].depth + Depth([t][0]) == Depth(t);
    }
    if Promising(h, 0, 0, {}, stack) {
      var ts :| Fits(h, 0, 0, {}, stack, ts);
      assert ts == [ts[0]];
    }
  }

  ghost predicate InHeap(h: Heap, stack: seq<Entry>) {
    forall e :: e in stack && e.value.Ref? ==> e.value.id in h
  }

  lemma RootIsInHeap(h: Heap, root: Value)
    requires WellFormed(h, root)
    ensures InHeap(h, [Entry(root, 0)])
  {
  }

  lemma StepStaysInHeap(h: Heap, root: Value, rest: seq<Entry>, current: Entry)
    requires WellFormed(h, root) && InHeap(h, rest + [current])
    ensures current.value.Ref? ==> current.value.id in h
    ensures InHeap(h, rest + Entries(SlotsAt(h, current.value), current.depth + 1))
  {
    assert current in rest + [current];
    var slots := SlotsAt(h, current.value);
    forall e | e in rest + Entries(slots, current.depth + 1) && e.value.Ref?
      ensures e.value.id in h
    {
      if e in rest {
        assert e in rest + [current];
      } else {
        assert e.value in slots;
      }
    }
  }

  lemma NothingLeftFits(h: Heap, nodes: nat, bytes: nat, seen: set<Id>)
    requires nodes <= MAX_INPUT_NODES && bytes <= MAX_INPUT_BYTES
    ensures Promising(h, nodes, bytes, seen, [])
  {
    assert Fits(h, nodes, bytes, seen, [], []);
  }

  // ---------- Where values are met ----------

  /** A way from the root: which slot to follow, time after time. */
  type Path = seq<nat>

  ghost function ValueAt(h: Heap, root: Value, path: Path): Option<Value> {
    if path == [] then Some(root)
    else
      match ValueAt(h, root, path[..|path| - 1])
      case None => None
      case Some(v) =>
        var slots, k := SlotsAt(h, v), path[|path| - 1];
        if k < |slots| then Some(slots[k]) else None
  }

  /** Different ways from the root, each to a value. */
  ghost predicate AreMet(h: Heap, root: Value, met: seq<Path>) {
    && (forall i :: 0 <= i < |met| ==> ValueAt(h, root, met[i]).Some?)
    && forall i, j :: 0 <= i < j < |met| ==> met[i] != met[j]
  }

  ghost function Costs(h: Heap, root: Value, met: seq<Path>): nat {
    if met == [] then 0
    else
      var v := ValueAt(h, root, met[|met| - 1]);
      Costs(h, root, met[..|met| - 1]) + (if v.Some? then Cost(h, v.value) else 0)
  }

  /** A value that is not JSON by itself: an undefined one, or an object of another prototype. */
  predicate IsNoJson(h: Heap, v: Value) {
    v.Foreign? || (v.Ref? && v.id in h && h[v.id].Exotic?)
  }

  /** What an error says of the input. */
  ghost predicate IsBlame(h: Heap, root: Value, error: BudgetError) {
    match error
    case NotFiniteNumber => exists p :: |p| <= 32 && ValueAt(h, root, p) == Some(NotFinite)
    case NotJson =>
      exists p :: |p| <= 32 && ValueAt(h, root, p).Some? && IsNoJson(h, ValueAt(h, root, p).value)
    case Revisited => exists p, q :: IsMetTwice(h, root, p, q)
    case TooComplex =>
      || (exists p :: |p| > 32 && ValueAt(h, root, p).Some?)
      || (exists met :: AreMet(h, root, met) && |met| > 16_384)
    case TooLarge => exists met :: AreMet(h, root, met) && Costs(h, root, met) > 1_048_576
  }

  /** Two ways lead to one object, whether it is shared or leads back to itself. */
  ghost predicate IsMetTwice(h: Heap, root: Value, p: Path, q: Path) {
    p != q && ValueAt(h, root, p).Some? && ValueAt(h, root, p).value.Ref? && ValueAt(h, root, p) == ValueAt(h, root, q)
  }

  /** The ways to what is on the stack. */
  ghost predicate Leads(h: Heap, root: Value, ahead: seq<Path>, stack: seq<Entry>) {
    && |ahead| == |stack|
    && forall i :: 0 <= i < |stack| ==>
         ValueAt(h, root, ahead[i]) == Some(stack[i].value) && |ahead[i]| == stack[i].depth
  }

  /** No way ahead is the beginning of another, or of one taken already. */
  ghost predicate AreApart(met: seq<Path>, ahead: seq<Path>) {
    && (forall i, j :: 0 <= i < |ahead| && 0 <= j < |ahead| && i != j ==> !(ahead[i] <= ahead[j]))
    && forall i, j :: 0 <= i < |ahead| && 0 <= j < |met| ==> !(ahead[i] <= met[j])
  }

  ghost predicate IsSeenAmong(h: Heap, root: Value, met: seq<Path>, seen: set<Id>) {
    forall id :: id in seen ==> exists i :: 0 <= i < |met| && ValueAt(h, root, met[i]) == Some(Ref(id))
  }

  /** The ways taken account for the nodes and the bytes, and the ways ahead are others. */
  ghost predicate Tracks(h: Heap, root: Value, met: seq<Path>, ahead: seq<Path>, stack: seq<Entry>, bytes: nat,
                         seen: set<Id>) {
    && AreMet(h, root, met) && Leads(h, root, ahead, stack) && AreApart(met, ahead)
    && Costs(h, root, met) == bytes && IsSeenAmong(h, root, met, seen)
  }

  lemma RootIsTracked(h: Heap, root: Value)
    ensures Tracks(h, root, [], [[]], [Entry(root, 0)], 0, {})
  {
  }

  /** One more step along each slot. */
  ghost function Onward(p: Path, count: nat): (paths: seq<Path>)
    ensures |paths| == count && forall k :: 0 <= k < count ==> paths[k] == p + [k]
  {
    seq(count, k requires 0 <= k < count => p + [k])
  }

  lemma SlotIsAt(h: Heap, root: Value, p: Path, v: Value, k: nat)
    requires ValueAt(h, root, p) == Some(v) && k < |SlotsAt(h, v)|
    ensures ValueAt(h, root, p + [k]) == Some(SlotsAt(h, v)[k])
  {
    hide SlotsAt;
    assert (p + [k])[..|p|] == p;
  }

  lemma LeadsInParts(h: Heap, root: Value, ahead: seq<Path>, more: seq<Path>, stack: seq<Entry>, pushed: seq<Entry>)
    requires |ahead| == |stack|
    ensures Leads(h, root, ahead + more, stack + pushed)
            <==> Leads(h, root, ahead, stack) && Leads(h, root, more, pushed)
  {
    hide ValueAt;
    if Leads(h, root, ahead + more, stack + pushed) {
      forall i | 0 <= i < |ahead|
        ensures ValueAt(h, root, ahead[i]) == Some(stack[i].value) && |ahead[i]| == stack[i].depth
      {
        assert (ahead + more)[i] == ahead[i] && (stack + pushed)[i] == stack[i];
      }
      forall i | 0 <= i < |more|
        ensures ValueAt(h, root, more[i]) == Some(pushed[i].value) && |more[i]| == pushed[i].depth
      {
        assert (ahead + more)[|ahead| + i] == more[i] && (stack + pushed)[|stack| + i] == pushed[i];
      }
    }
  }

  lemma OnwardLeads(h: Heap, root: Value, rest: seq<Entry>, current: Entry, ahead: seq<Path>, p: Path)
    requires Leads(h, root, ahead + [p], rest + [current])
    ensures ValueAt(h, root, p) == Some(current.value) && |p| == current.depth
    ensures Leads(h, root, ahead + Onward(p, |SlotsAt(h, current.value)|),
                  rest + Entries(SlotsAt(h, current.value), current.depth + 1))
  {
    hide ValueAt, SlotsAt;
    var slots := SlotsAt(h, current.value);
    assert |ahead| == |rest|;
    LeadsInParts(h, root, ahead, [p], rest, [current]);
    assert [p][0] == p && [current][0] == current;
    assert ValueAt(h, root, [p][0]) == Some([current][0].value);
    forall k | 0 <= k < |slots|
      ensures ValueAt(h, root, Onward(p, |slots|)[k]) == Some(slots[k])
    {
      SlotIsAt(h, root, p, current.value, k);
    }
    LeadsInParts(h, root, ahead, Onward(p, |slots|), rest, Entries(slots, current.depth + 1));
  }

  lemma OnwardIsOther(p: Path, k: nat, q: Path)
    ensures p + [k] <= q ==> p <= q
    ensures q <= p + [k] ==> q <= p || p <= q
  {
    if p + [k] <= q {
      assert q[..|p|] == (p + [k])[..|p|] == p;
    }
    if q <= p + [k] && |q| <= |p| {
      assert p[..|q|] == (p + [k])[..|q|];
    }
  }

  lemma OnwardIsApart(met: seq<Path>, ahead: seq<Path>, p: Path, count: nat)
    requires AreApart(met, ahead + [p])
    ensures AreApart(met + [p], ahead + Onward(p, count)) && forall i :: 0 <= i < |met| ==> met[i] != p
  {
    var n, onward := |ahead|, ahead + Onward(p, count);
    forall i | 0 <= i < n
      ensures !(ahead[i] <= p) && !(p <= ahead[i])
    {
      assert (ahead + [p])[i] == ahead[i] && (ahead + [p])[n] == p;
    }
    forall j | 0 <= j < |met|
      ensures !(p <= met[j])
    {
      assert (ahead + [p])[n] == p;
    }
    forall i, j | 0 <= i < |onward| && 0 <= j < |onward| && i != j
      ensures !(onward[i] <= onward[j])
    {
      if i < n && j < n {
        assert (ahead + [p])[i] == ahead[i] && (ahead + [p])[j] == ahead[j];
      } else if i < n {
        OnwardIsOther(p, j - n, ahead[i]);
      } else if j < n {
        OnwardIsOther(p, i - n, ahead[j]);
      } else {
        assert (p + [i - n])[|p|] == i - n && (p + [j - n])[|p|] == j - n;
      }
    }
    forall i, j | 0 <= i < |onward| && 0 <= j < |met + [p]|
      ensures !(onward[i] <= (met + [p])[j])
    {
      if i >= n {
        OnwardIsOther(p, i - n, (met + [p])[j]);
      } else if j < |met| {
        assert (ahead + [p])[i] == ahead[i];
      }
    }
  }

  lemma OneMoreIsMet(h: Heap, root: Value, met: seq<Path>, p: Path)
    requires AreMet(h, root, met) && ValueAt(h, root, p).Some? && forall i :: 0 <= i < |met| ==> met[i] != p
    ensures AreMet(h, root, met + [p])
    ensures Costs(h, root, met + [p]) == Costs(h, root, met) + Cost(h, ValueAt(h, root, p).value)
  {
    hide Cost, ValueAt;
    assert (met + [p])[..|met|] == met;
  }

  lemma SeenGrows(h: Heap, root: Value, met: seq<Path>, p: Path, seen: set<Id>, v: Value)
    requires IsSeenAmong(h, root, met, seen) && ValueAt(h, root, p) == Some(v)
    ensures IsSeenAmong(h, root, met + [p], seen + OwnId(v))
  {
    hide ValueAt;
    forall id | id in seen + OwnId(v)
      ensures exists i :: 0 <= i < |met + [p]| && ValueAt(h, root, (met + [p])[i]) == Some(Ref(id))
    {
      if id in seen {
        var i :| 0 <= i < |met| && ValueAt(h, root, met[i]) == Some(Ref(id));
        assert (met + [p])[i] == met[i];
      } else {
        assert (met + [p])[|met|] == p;
      }
    }
  }

  /** Taking one value off the stack takes its way, and puts the ways through its slots ahead. */
  lemma StepIsTracked(h: Heap, root: Value, met: seq<Path>, ahead: seq<Path>, p: Path, rest: seq<Entry>, current: Entry,
                      bytes: nat, seen: set<Id>)
    requires Tracks(h, root, met, ahead + [p], rest + [current], bytes, seen)
    ensures ValueAt(h, root, p) == Some(current.value) && |p| == current.depth && AreMet(h, root, met + [p])
    ensures forall i :: 0 <= i < |met| ==> met[i] != p
    ensures Tracks(h, root, met + [p], ahead + Onward(p, |SlotsAt(h, current.value)|),
                   rest + Entries(SlotsAt(h, current.value), current.depth + 1),
                   bytes + Cost(h, current.value), seen + OwnId(current.value))
  {
    hide ValueAt, AreMet, Leads, AreApart, Costs, Cost, IsSeenAmong, SlotsAt, Onward, OwnId, Entries;
    OnwardLeads(h, root, rest, current, ahead, p);
    OnwardIsApart(met, ahead, p, |SlotsAt(h, current.value)|);
    OneMoreIsMet(h, root, met, p);
    SeenGrows(h, root, met, p, seen, current.value);
  }

  /** Whatever a check finds wrong with the value at hand is so. */
  lemma BlameFits(h: Heap, root: Value, met: seq<Path>, p: Path, current: Entry, seen: set<Id>)
    requires ValueAt(h, root, p) == Some(current.value) && |p| == current.depth && AreMet(h, root, met + [p])
    requires IsSeenAmong(h, root, met, seen) && forall i :: 0 <= i < |met| ==> met[i] != p
    ensures current.depth > MAX_INPUT_DEPTH || |met| + 1 > MAX_INPUT_NODES ==> IsBlame(h, root, TooComplex)
    ensures current.depth <= MAX_INPUT_DEPTH && current.value.NotFinite? ==> IsBlame(h, root, NotFiniteNumber)
    ensures current.depth <= MAX_INPUT_DEPTH && IsNoJson(h, current.value) ==> IsBlame(h, root, NotJson)
    ensures current.value.Ref? && current.value.id in seen ==> IsBlame(h, root, Revisited)
  {
    hide ValueAt, AreMet;
    if current.value.Ref? && current.value.id in seen {
      var i :| 0 <= i < |met| && ValueAt(h, root, met[i]) == Some(Ref(current.value.id));
      assert IsMetTwice(h, root, met[i], p);
    }
    assert |met + [p]| == |met| + 1;
  }

  lemma TrackedIsCounted(h: Heap, root: Value, met: seq<Path>, ahead: seq<Path>, stack: seq<Entry>, bytes: nat,
                         seen: set<Id>)
    requires Tracks(h, root, met, ahead, stack, bytes, seen)
    ensures |ahead| == |stack| && IsSeenAmong(h, root, met, seen)
    ensures bytes > MAX_INPUT_BYTES ==> IsBlame(h, root, TooLarge)
  {
    hide AreMet, AreApart, ValueAt;
  }

  // ---------- Pushing fields ----------

  lemma {:induction false} FieldBytesSplit(fields: seq<Field>, i: nat)
    requires i < |fields|
    ensures FieldBytes(fields[..i + 1]) == FieldBytes(fields[..i]) + |fields[i].key| * 2
  {
    if i == 0 {
      assert fields[..0] == [] && fields[..1] == [fields[0]] && fields[..1][1..] == [];
    } else {
      assert fields[..i + 1][1..] == fields[1..][..i] && fields[..i][1..] == fields[1..][..i - 1];
      FieldBytesSplit(fields[1..], i - 1);
    }
  }

  /**
   * Nothing is reported exactly when the input is a tree of JSON values within the limits; what
   * is reported is so.
   */
  method InputBudgetError(h: Heap, root: Value) returns (error: Option<BudgetError>)
    requires WellFormed(h, root)
    ensures error.None? <==> exists t :: IsTreeWithinBudget(h, root, t)
    ensures error.Some? ==> IsBlame(h, root, error.value)
  {
    hide Tracks, IsSeenAmong, AreMet, ValueAt, Onward, Leads, AreApart, Costs, IsMetTwice;
    hide IsBlame, Promising, IsTreeWithinBudget, InHeap, WellFormed, Values, Denotes, DenotesAll, Visits, VisitsAll,
         Depth, Nodes, Bytes, Children, FieldValues, IsHead;
    var nodes: nat, bytes: nat := 0, 0;
    var stack := [Entry(root, 0)];
    var seen: set<Id> := {};
    ghost var met: seq<Path>, ahead: seq<Path> := [], [[]];
    RootPromise(h, root);
    RootIsInHeap(h, root);
    RootIsTracked(h, root);
    while stack != []
      invariant nodes <= MAX_INPUT_NODES && bytes <= MAX_INPUT_BYTES
      invariant InHeap(h, stack)
      invariant |met| == nodes && Tracks(h, root, met, ahead, stack, bytes, seen)
      invariant Promising(h, 0, 0, {}, [Entry(root, 0)]) <==> Promising(h, nodes, bytes, seen, stack)
      decreases MAX_INPUT_NODES + 1 - nodes
    {
      var current, rest := stack[|stack| - 1], stack[..|stack| - 1];
      assert stack == rest + [current];
      StepKeepsPromise(h, nodes, bytes, seen, rest, current);
      StepStaysInHeap(h, root, rest, current);
      met, ahead := Advance(h, root, met, ahead, rest, current, bytes, seen);
      ghost var cost, now := bytes + Cost(h, current.value), seen + OwnId(current.value);
      stack := rest;
      nodes := nodes + 1;
      if nodes > MAX_INPUT_NODES || current.depth > MAX_INPUT_DEPTH {
        return Some(TooComplex);
      }
      match current.value {
        case Chars(chars) => bytes := bytes + |chars| * 2;
        case Numeral(_) => bytes := bytes + 8;
        case NotFinite => return Some(NotFiniteNumber);
        case Truth(_) => bytes := bytes + 4;
        case Nil => bytes := bytes + 4;
        case Foreign => return Some(NotJson);
        case Ref(id) =>
          if id in seen {
            return Some(Revisited);
          }
          seen := seen + {id};
          match h[id] {
            case List(items) => stack := PushItems(stack, items, current.depth + 1);
            case Record(fields) => stack, bytes := PushFields(stack, bytes, fields, current.depth + 1);
            case Exotic => return Some(NotJson);
          }
      }
      assert seen == now && bytes == cost;
      assert stack == rest + Entries(SlotsAt(h, current.value), current.depth + 1);
      if bytes > MAX_INPUT_BYTES {
        PromiseIsWithinBytes(h, nodes, bytes, seen, stack);
        TrackedIsCounted(h, root, met, ahead, stack, bytes, seen);
        return Some(TooLarge);
      }
    }
    NothingLeftFits(h, nodes, bytes, seen);
    return None;
  }

  /** The ways taken and ahead after a step, and what the checks of the step would report. */
  lemma Advance(h: Heap, root: Value, met: seq<Path>, ahead: seq<Path>, rest: seq<Entry>, current: Entry,
                bytes: nat, seen: set<Id>)
    returns (taken: seq<Path>, next: seq<Path>)
    requires Tracks(h, root, met, ahead, rest + [current], bytes, seen)
    ensures |taken| == |met| + 1
    ensures Tracks(h, root, taken, next, rest + Entries(SlotsAt(h, current.value), current.depth + 1),
                   bytes + Cost(h, current.value), seen + OwnId(current.value))
    ensures current.depth > MAX_INPUT_DEPTH || |met| + 1 > MAX_INPUT_NODES ==> IsBlame(h, root, TooComplex)
    ensures current.depth <= MAX_INPUT_DEPTH && current.value.NotFinite? ==> IsBlame(h, root, NotFiniteNumber)
    ensures current.depth <= MAX_INPUT_DEPTH && IsNoJson(h, current.value) ==> IsBlame(h, root, NotJson)
    ensures current.value.Ref? && current.value.id in seen ==> IsBlame(h, root, Revisited)
  {
    hide Tracks, IsSeenAmong, AreMet, ValueAt, Onward, IsBlame, IsNoJson, Cost, OwnId, SlotsAt, Entries;
    TrackedIsCounted(h, root, met, ahead, rest + [current], bytes, seen);
    var last := |ahead| - 1;
    var p := ahead[last];
    assert ahead == ahead[..last] + [p];
    StepIsTracked(h, root, met, ahead[..last], p, rest, current, bytes, seen);
    BlameFits(h, root, met, p, current, seen);
    taken, next := met + [p], ahead[..last] + Onward(p, |SlotsAt(h, current.value)|);
  }

  method PushItems(stack: seq<Entry>, items: seq<Value>, depth: nat) returns (pushed: seq<Entry>)
    ensures pushed == stack + Entries(items, depth)
  {
    pushed := stack;
    for i := 0 to |items|
      invariant pushed == stack + Entries(items[..i], depth)
    {
      pushed := pushed + [Entry(items[i], depth)];
    }
    assert items[..|items|] == items;
  }

  method PushFields(stack: seq<Entry>, bytes: nat, fields: seq<Field>,
                    depth: nat) returns (pushed: seq<Entry>, total: nat)
    ensures pushed == stack + Entries(FieldValues(fields), depth) && total == bytes + FieldBytes(fields)
  {
    pushed, total := stack, bytes;
    for i := 0 to |fields|
      invariant pushed == stack + Entries(FieldValues(fields[..i]), depth) && total == bytes + FieldBytes(fields[..i])
    {
      FieldBytesSplit(fields, i);
      total := total + |fields[i].key| * 2;
      pushed := pushed + [Entry(fields[i].value, depth)];
    }
    assert fields[..|fields|] == fields;
  }

  // ---------- Reading the tree off the graph ----------

  /** The tree below a slot, if it is no deeper than the room there is. */
  function Unfold(h: Heap, v: Value, room: nat): Option<Json>
    decreases room, 1, 0
  {
    if v.NotFinite? || v.Foreign? || (v.Ref? && (v.id !in h || h[v.id].Exotic?)) then None
    else
      match UnfoldAll(h, SlotsAt(h, v), room)
      case None => None
      case Some(cs) => Some(Rebuild(h, v, cs))
  }

  function UnfoldAll(h: Heap, vs: seq<Value>, room: nat): (r: Option<seq<Json>>)
    ensures r.Some? ==> |r.value| == |vs|
    decreases room, 0, |vs|
  {
    if vs == [] then Some([])
    else if room == 0 then None
    else
      var first, rest := Unfold(h, vs[0], room - 1), UnfoldAll(h, vs[1..], room);
      if first.Some? && rest.Some? then Some([first.value] + rest.value) else None
  }

  lemma {:induction false} HeadAndChildrenDetermine(h: Heap, v: Value, t: Json, u: Json)
    requires IsHead(h, v, t) && IsHead(h, v, u) && Children(t) == Children(u)
    ensures t == u
  {
    if v.Ref? && h[v.id].Record? {
      forall i | 0 <= i < |t.members|
        ensures t.members[i] == u.members[i]
      {
        assert Children(t)[i] == Children(u)[i];
      }
    }
  }

  /** Unfolding finds the tree a slot denotes, so a slot denotes at most one. */
  lemma {:induction false} UnfoldFinds(h: Heap, v: Value, t: Json, room: nat)
    requires Denotes(h, v, t) && Depth(t) <= room
    ensures Unfold(h, v, room) == Some(t)
    decreases Depth(t), 1, 0
  {
    hide DenotesAll, UnfoldAll;
    UnfoldAllFinds(h, SlotsAt(h, v), Children(t), room);
    HeadAndChildrenDetermine(h, v, t, Rebuild(h, v, Children(t)));
  }

  lemma {:induction false} UnfoldAllFinds(h: Heap, vs: seq<Value>, ts: seq<Json>, room: nat)
    requires DenotesAll(h, vs, ts) && DepthAll(ts) <= room
    ensures UnfoldAll(h, vs, room) == Some(ts)
    decreases DepthAll(ts), 0, |ts|
  {
    hide IsHead, SlotsAt, Rebuild, Children;
    if ts != [] {
      UnfoldFinds(h, vs[0], ts[0], room - 1);
      UnfoldAllFinds(h, vs[1..], ts[1..], room);
      assert ts == [ts[0]] + ts[1..];
    }
  }

  lemma DenotesOneTree(h: Heap, v: Value, t: Json, u: Json)
    requires Denotes(h, v, t) && Denotes(h, v, u)
    ensures t == u
  {
    hide Unfold, Denotes, Depth;
    UnfoldFinds(h, v, t, Depth(t) + Depth(u));
    UnfoldFinds(h, v, u, Depth(t) + Depth(u));
  }

  lemma {:induction false} ChildDenotes(h: Heap, vs: seq<Value>, ts: seq<Json>, i: nat)
    requires DenotesAll(h, vs, ts) && i < |vs|
    ensures i < |ts| && Denotes(h, vs[i], ts[i]) && Depth(ts[i]) < DepthAll(ts)
  {
    if i > 0 {
      ChildDenotes(h, vs[1..], ts[1..], i - 1);
    }
  }

  lemma {:induction false} AllDenote(h: Heap, vs: seq<Value>, ts: seq<Json>)
    ensures DenotesAll(h, vs, ts) <==> |vs| == |ts| && forall i :: 0 <= i < |ts| ==> Denotes(h, vs[i], ts[i])
    decreases |ts|
  {
    hide Denotes;
    if ts != [] && |vs| == |ts| {
      AllDenote(h, vs[1..], ts[1..]);
      assert forall i :: 0 < i < |ts| ==> vs[i] == vs[1..][i - 1] && ts[i] == ts[1..][i - 1];
    }
  }

  /** Primitives denote themselves, and what is no JSON denotes nothing. */
  lemma LeavesDenote(h: Heap, chars: Text, token: Text, truth: bool, t: Json)
    ensures Denotes(h, Chars(chars), t) <==> t == String(chars)
    ensures Denotes(h, Numeral(token), t) <==> t == Number(token)
    ensures Denotes(h, Truth(truth), t) <==> t == Boolean(truth)
    ensures Denotes(h, Nil, t) <==> t == Null
    ensures !Denotes(h, NotFinite, t) && !Denotes(h, Foreign, t)
  {
  }

  /** Lists denote arrays slot by slot, records denote objects field by field and in order. */
  lemma ContainersDenote(h: Heap, id: Id, t: Json)
    requires id in h
    ensures h[id].List? ==>
              var items := h[id].items;
              Denotes(h, Ref(id), t) <==>
              && t.Array? && |t.items| == |items|
              && forall i :: 0 <= i < |items| ==> Denotes(h, items[i], t.items[i])
    ensures h[id].Record? ==>
              var fields := h[id].fields;
              Denotes(h, Ref(id), t) <==>
              && t.Object? && |t.members| == |fields|
              && forall i :: 0 <= i < |fields| ==>
                   t.members[i].key == fields[i].key && Denotes(h, fields[i].value, t.members[i].value)
    ensures h[id].Exotic? ==> !Denotes(h, Ref(id), t)
  {
    AllDenote(h, Slots(h[id]), Children(t));
    assert Denotes(h, Ref(id), t) <==> IsHead(h, Ref(id), t) && DenotesAll(h, Slots(h[id]), Children(t));
    hide Denotes, DenotesAll;
    assert t.Object? ==> forall i :: 0 <= i < |t.members| ==> Children(t)[i] == t.members[i].value;
    if h[id].Record? {
      assert forall i :: 0 <= i < |h[id].fields| ==> Slots(h[id])[i] == h[id].fields[i].value;
    }
  }

  /** Each object of the chain is in a slot of the one before it. */
  ghost predicate IsChain(h: Heap, chain: seq<Id>) {
    && (forall i :: 0 <= i < |chain| ==> chain[i] in h)
    && forall i :: 0 < i < |chain| ==> Ref(chain[i]) in Slots(h[chain[i - 1]])
  }

  lemma ChainGoesOn(h: Heap, chain: seq<Id>)
    requires IsChain(h, chain) && |chain| > 1
    ensures IsChain(h, chain[1..]) && chain[1..][0] == chain[1] && chain[1..][|chain| - 2] == chain[|chain| - 1]
  {
    hide Slots;
    var rest := chain[1..];
    forall j | 0 < j < |rest|
      ensures Ref(rest[j]) in Slots(h[rest[j - 1]])
    {
      assert Ref(chain[j + 1]) in Slots(h[chain[j]]);
    }
  }

  lemma {:induction false} ChainDescends(h: Heap, chain: seq<Id>, t: Json)
    requires chain != [] && IsChain(h, chain) && Denotes(h, Ref(chain[0]), t)
    ensures exists u :: Denotes(h, Ref(chain[|chain| - 1]), u) && Depth(u) + |chain| - 1 <= Depth(t)
    decreases |chain|
  {
    hide IsHead, DenotesAll, Slots;
    if |chain| > 1 {
      var slots, rest := Slots(h[chain[0]]), chain[1..];
      assert Ref(chain[1]) in slots;
      var i :| 0 <= i < |slots| && slots[i] == Ref(chain[1]);
      ChildDenotes(h, slots, Children(t), i);
      ChainGoesOn(h, chain);
      hide Denotes, Children, IsChain, Depth;
      ChainDescends(h, rest, Children(t)[i]);
    }
  }

  /** An object that leads back to itself denotes no tree. */
  lemma CycleHasNoTree(h: Heap, chain: seq<Id>, t: Json)
    requires |chain| > 1 && IsChain(h, chain) && chain[0] == chain[|chain| - 1]
    ensures !Denotes(h, Ref(chain[0]), t)
  {
    if Denotes(h, Ref(chain[0]), t) {
      ChainDescends(h, chain, t);
      var u :| Denotes(h, Ref(chain[0]), u) && Depth(u) + |chain| - 1 <= Depth(t);
      DenotesOneTree(h, Ref(chain[0]), t, u);
    }
  }

  /** An object in two slots is refused even though no object leads back to itself. */
  lemma SharedIsRefused(t: Json)
    ensures var h: Heap := map[0 := List([Ref(1), Ref(1)]), 1 := List([])];
            !IsTreeWithinBudget(h, Ref(0), t) && Denotes(h, Ref(0), Array([Array([]), Array([])]))
  {
    var h: Heap := map[0 := List([Ref(1), Ref(1)]), 1 := List([])];
    var leaf, pair := Array([]), Array([Array([]), Array([])]);
    OneTree(h, Ref(1), leaf);
    DenotesAppends(h, [Ref(1)], [leaf], [Ref(1)], [leaf]);
    assert [Ref(1)] + [Ref(1)] == [Ref(1), Ref(1)] && [leaf] + [leaf] == [leaf, leaf];
    assert Children(leaf) == [] && Children(pair) == [leaf, leaf];
    assert Denotes(h, Ref(1), leaf) && Denotes(h, Ref(0), pair);
    if Denotes(h, Ref(0), t) {
      DenotesOneTree(h, Ref(0), t, pair);
      assert Visits(h, Ref(1), leaf)[1] == 1;
      assert Visits(h, Ref(0), pair)[1] == 2;
    }
  }

  /** The tokens and keys of a graph that can only yield well-formed JSON. */
  ghost predicate IsSane(h: Heap, root: Value) {
    && (root.Numeral? ==> IsNumberToken(root.token))
    && (forall o :: o in h ==> IsSaneBody(h[o]))
  }

  ghost predicate IsSaneBody(body: Body) {
    && (forall v :: v in Slots(body) && v.Numeral? ==> IsNumberToken(v.token))
    && (body.Record? ==> forall i, j :: 0 <= i < j < |body.fields| ==> body.fields[i].key != body.fields[j].key)
  }

  lemma {:induction false} DenotesJson(h: Heap, v: Value, t: Json)
    requires IsSane(h, v) && Denotes(h, v, t)
    ensures IsJson(t)
    decreases Depth(t)
  {
    var vs := SlotsAt(h, v);
    forall i | 0 <= i < |vs|
      ensures i < |Children(t)| && IsJson(Children(t)[i])
    {
      ChildDenotes(h, vs, Children(t), i);
      DenotesJson(h, vs[i], Children(t)[i]);
    }
    if t.Object? {
      assert forall i :: 0 <= i < |t.members| ==> t.members[i].value == Children(t)[i];
    }
  }
}
