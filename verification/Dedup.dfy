/**
 The generation-tracked dedup cache (src/dedup.rs): a map of live ids and a queue of admission
 tickets that is cleaned lazily. With atomic operations it is a plain list of admitted ids in
 admission order that drops its oldest ones when over capacity.
 */
module Dedup {
  datatype DedupState = InFlight | Done

  datatype Entry = Entry(state: DedupState, gen: nat)

  /** An `order` element: the id and the generation it was admitted with. */
  datatype Ticket = Ticket(id: string, gen: nat)

  datatype Cache = Cache(entries: map<string, Entry>, order: seq<Ticket>, gen: nat)

  predicate Live(entries: map<string, Entry>, t: Ticket) {
    t.id in entries && entries[t.id].gen == t.gen
  }

  datatype Evicted = Evicted(entries: map<string, Entry>, order: seq<Ticket>)

  /** Pops tickets, and the entries of the live ones, until the map fits. */
  function Evict(entries: map<string, Entry>, order: seq<Ticket>, capacity: nat): Evicted
    decreases |order|
  {
    if |entries| <= capacity || order == [] then Evicted(entries, order)
    else Evict(if Live(entries, order[0]) then entries - {order[0].id} else entries, order[1..], capacity)
  }

  /** `retain` of the live tickets. */
  function Compact(entries: map<string, Entry>, order: seq<Ticket>): seq<Ticket> {
    if order == [] then []
    else
      var rest := Compact(entries, order[1..]);
      if Live(entries, order[0]) then [order[0]] + rest else rest
  }

  function TryAdmit(c: Cache, capacity: nat, id: string): Cache {
    if id in c.entries then c.(gen := c.gen + 1)
    else
      var e := Evict(c.entries[id := Entry(InFlight, c.gen)], c.order + [Ticket(id, c.gen)], capacity);
      Cache(e.entries, if |e.order| > capacity * 3 then Compact(e.entries, e.order) else e.order, c.gen + 1)
  }

  function MarkDone(c: Cache, id: string): Cache {
    if id in c.entries then c.(entries := c.entries[id := c.entries[id].(state := Done)]) else c
  }

  function Remove(c: Cache, id: string): Cache {
    c.(entries := c.entries - {id})
  }

  class AtomicDedupCache {
    var entries: map<string, Entry>
    var order: seq<Ticket>
    const capacity: nat
    var gen: nat

    ghost function Value(): Cache
      reads this
    {
      Cache(entries, order, gen)
    }

    constructor (capacity: nat)
      ensures this.capacity == capacity && Value() == Cache(map[], [], 0)
    {
      this.capacity := capacity;
      entries, order, gen := map[], [], 0;
    }

    method Admit(id: string) returns (won: bool)
      modifies this
      ensures Value() == TryAdmit(old(Value()), capacity, id)
      ensures won <==> id !in old(entries)
    {
      var mine := gen;
      gen := gen + 1;
      if id in entries {
        return false;
      }
      entries := entries[id := Entry(InFlight, mine)];
      order := order + [Ticket(id, mine)];
      ghost var start := Evict(entries, order, capacity);
      while |entries| > capacity
        invariant Evict(entries, order, capacity) == start
        invariant gen == mine + 1
        decreases |order|
      {
        if order == [] {
          break;
        }
        var oldest := order[0];
        order := order[1..];
        if oldest.id in entries && entries[oldest.id].gen == oldest.gen {
          entries := entries - {oldest.id};
        }
      }
      if |order| > capacity * 3 {
        order := Compact(entries, order);
      }
      return true;
    }

    method SetDone(id: string)
      modifies this`entries
      ensures Value() == MarkDone(old(Value()), id)
    {
      if id in entries {
        entries := entries[id := Entry(Done, entries[id].gen)];
      }
    }

    method Forget(id: string)
      modifies this`entries
      ensures Value() == Remove(old(Value()), id)
    {
      entries := entries - {id};
    }
  }

  // ----- the reference: a list in admission order -----

  datatype Item = Item(id: string, state: DedupState)

  predicate Listed(items: seq<Item>, id: string) {
    items != [] && (items[0].id == id || Listed(items[1..], id))
  }

  /** The newest `capacity` items. */
  function DropOldest(items: seq<Item>, capacity: nat): seq<Item> {
    if |items| <= capacity then items else items[|items| - capacity..]
  }

  function ListAdmit(items: seq<Item>, capacity: nat, id: string): seq<Item> {
    if Listed(items, id) then items else DropOldest(items + [Item(id, InFlight)], capacity)
  }

  function ListMarkDone(items: seq<Item>, id: string): seq<Item> {
    seq(|items|, i requires 0 <= i < |items| => if items[i].id == id then Item(id, Done) else items[i])
  }

  function ListRemove(items: seq<Item>, id: string): seq<Item> {
    if items == [] then []
    else
      var rest := ListRemove(items[1..], id);
      if items[0].id == id then rest else [items[0]] + rest
  }

  // ----- what the cache stands for -----

  /** The live tickets' ids and states, in admission order. */
  function LiveItems(entries: map<string, Entry>, order: seq<Ticket>): seq<Item> {
    if order == [] then []
    else
      var rest := LiveItems(entries, order[1..]);
      if Live(entries, order[0]) then [Item(order[0].id, entries[order[0].id].state)] + rest else rest
  }

  /** Generations grow along the queue, and every entry has its ticket in it. */
  ghost predicate Ordered(entries: map<string, Entry>, order: seq<Ticket>) {
    && (forall i, j :: 0 <= i < j < |order| ==> order[i].gen < order[j].gen)
    && (forall id :: id in entries ==> Ticket(id, entries[id].gen) in order)
  }

  ghost predicate Valid(c: Cache) {
    Ordered(c.entries, c.order) && forall t :: t in c.order ==> t.gen < c.gen
  }

  function Abstract(c: Cache): seq<Item> { LiveItems(c.entries, c.order) }

  lemma {:induction false} ListedIsLive(entries: map<string, Entry>, order: seq<Ticket>, id: string)
    ensures Listed(LiveItems(entries, order), id) <==> id in entries && Ticket(id, entries[id].gen) in order
  {
    if order == [] {
    } else {
      ListedIsLive(entries, order[1..], id);
      var items, rest := LiveItems(entries, order), LiveItems(entries, order[1..]);
      assert order == [order[0]] + order[1..];
      if Live(entries, order[0]) {
        assert items[0].id == order[0].id && items[1..] == rest;
      }
    }
  }

  /** A list of distinct live tickets is as long as the map. */
  lemma {:induction false} AsManyItems(entries: map<string, Entry>, order: seq<Ticket>)
    requires Ordered(entries, order)
    ensures |LiveItems(entries, order)| == |entries|
  {
    if order == [] {
      assert entries.Keys == {};
    } else {
      var t := order[0];
      var less := if Live(entries, t) then entries - {t.id} else entries;
      TailOrdered(entries, order);
      AsManyItems(less, order[1..]);
      SameTail(entries, order);
      if Live(entries, t) {
        assert less.Keys == entries.Keys - {t.id};
      }
    }
  }

  /** Popping the first ticket, with its entry when live, leaves an ordered cache. */
  lemma TailOrdered(entries: map<string, Entry>, order: seq<Ticket>)
    requires Ordered(entries, order) && order != []
    ensures Ordered(if Live(entries, order[0]) then entries - {order[0].id} else entries, order[1..])
  {
    var less := if Live(entries, order[0]) then entries - {order[0].id} else entries;
    forall id | id in less
      ensures Ticket(id, less[id].gen) in order[1..]
    {
      assert Ticket(id, entries[id].gen) in order;
      assert order == [order[0]] + order[1..];
    }
  }

  /** Removing the first ticket's entry does not disturb the items behind it. */
  lemma SameTail(entries: map<string, Entry>, order: seq<Ticket>)
    requires order != [] && forall i, j :: 0 <= i < j < |order| ==> order[i].gen < order[j].gen
    ensures Live(entries, order[0]) ==>
              LiveItems(entries - {order[0].id}, order[1..]) == LiveItems(entries, order[1..])
  {
    if Live(entries, order[0]) {
      RemoveStale(entries, order[1..], order[0].id);
    }
  }

  lemma {:induction false} RemoveStale(entries: map<string, Entry>, order: seq<Ticket>, id: string)
    requires id in entries && forall t :: t in order ==> t.gen != entries[id].gen
    ensures LiveItems(entries - {id}, order) == LiveItems(entries, order)
  {
    if order == [] {
    } else {
      assert order[0] in order && forall t :: t in order[1..] ==> t in order;
      RemoveStale(entries, order[1..], id);
    }
  }

  lemma DropOne(items: seq<Item>, capacity: nat)
    requires |items| > capacity
    ensures DropOldest(items, capacity) == DropOldest(items[1..], capacity)
  {
  }

  /** Popping one ticket when over capacity drops the oldest item if it was live, and otherwise
      nothing. */
  lemma PopOne(entries: map<string, Entry>, order: seq<Ticket>, capacity: nat)
    requires Ordered(entries, order) && |entries| > capacity && order != []
    ensures var less := if Live(entries, order[0]) then entries - {order[0].id} else entries;
            && Ordered(less, order[1..])
            && DropOldest(LiveItems(less, order[1..]), capacity) == DropOldest(LiveItems(entries, order), capacity)
  {
    TailOrdered(entries, order);
    SameTail(entries, order);
    AsManyItems(entries, order);
    if Live(entries, order[0]) {
      DropOne(LiveItems(entries, order), capacity);
    }
  }

  /** Eviction drops the oldest items, whatever stale tickets are in the way. */
  lemma {:induction false} EvictDropsOldest(entries: map<string, Entry>, order: seq<Ticket>, capacity: nat)
    requires Ordered(entries, order)
    ensures var e := Evict(entries, order, capacity);
            && Ordered(e.entries, e.order) && |e.entries| <= capacity
            && (forall t :: t in e.order ==> t in order)
            && LiveItems(e.entries, e.order) == DropOldest(LiveItems(entries, order), capacity)
    decreases |order|
  {
    AsManyItems(entries, order);
    if |entries| <= capacity {
    } else {
      PopOne(entries, order, capacity);
      EvictDropsOldest(if Live(entries, order[0]) then entries - {order[0].id} else entries, order[1..], capacity);
      assert forall x :: x in order[1..] ==> x in order;
    }
  }

  /** Eviction takes tickets from the front of the queue only. */
  lemma {:induction false} EvictLeavesEnd(entries: map<string, Entry>, order: seq<Ticket>, capacity: nat)
    returns (k: nat)
    ensures k <= |order| && Evict(entries, order, capacity).order == order[k..]
    decreases |order|
  {
    if |entries| <= capacity || order == [] {
      k := 0;
    } else {
      k := EvictLeavesEnd(if Live(entries, order[0]) then entries - {order[0].id} else entries, order[1..], capacity);
      k := k + 1;
    }
  }

  /** A queue of at most three tickets per slot is not compacted: it keeps its end, stale or not. */
  lemma ShortQueueIsLeft(c: Cache, capacity: nat, id: string) returns (k: nat)
    requires id !in c.entries && |c.order| < 3 * capacity
    ensures k <= |c.order| + 1 && TryAdmit(c, capacity, id).order == (c.order + [Ticket(id, c.gen)])[k..]
  {
    k := EvictLeavesEnd(c.entries[id := Entry(InFlight, c.gen)], c.order + [Ticket(id, c.gen)], capacity);
  }

  /** Compaction keeps the live tickets and nothing else. */
  lemma {:induction false} CompactKeepsLive(entries: map<string, Entry>, order: seq<Ticket>)
    requires forall i, j :: 0 <= i < j < |order| ==> order[i].gen < order[j].gen
    ensures var kept := Compact(entries, order);
            && (forall t :: t in kept <==> t in order && Live(entries, t))
            && (forall i, j :: 0 <= i < j < |kept| ==> kept[i].gen < kept[j].gen)
            && LiveItems(entries, kept) == LiveItems(entries, order)
            && |kept| == |LiveItems(entries, order)|
  {
    if order == [] {
    } else {
      CompactKeepsLive(entries, order[1..]);
      var rest := Compact(entries, order[1..]);
      assert forall t :: t in order <==> t == order[0] || t in order[1..];
      if Live(entries, order[0]) {
        var kept := [order[0]] + rest;
        assert kept[1..] == rest;
        forall j | 0 < j < |kept| ensures order[0].gen < kept[j].gen {
          assert kept[j] in rest && kept[j] in order[1..];
        }
      }
    }
  }

  lemma {:induction false} AppendItem(entries: map<string, Entry>, order: seq<Ticket>, id: string, gen: nat)
    requires id !in entries && forall t :: t in order ==> t.gen < gen
    ensures LiveItems(entries[id := Entry(InFlight, gen)], order + [Ticket(id, gen)])
         == LiveItems(entries, order) + [Item(id, InFlight)]
  {
    var more := entries[id := Entry(InFlight, gen)];
    if order == [] {
      assert LiveItems(more, [Ticket(id, gen)]) == [Item(id, InFlight)] + LiveItems(more, []);
    } else {
      assert order[0] in order && forall t :: t in order[1..] ==> t in order;
      AppendItem(entries, order[1..], id, gen);
      assert (order + [Ticket(id, gen)])[1..] == order[1..] + [Ticket(id, gen)];
      assert Live(more, order[0]) <==> Live(entries, order[0]);
    }
  }

  lemma NewTicketOrdered(c: Cache, id: string)
    requires Valid(c) && id !in c.entries
    ensures Ordered(c.entries[id := Entry(InFlight, c.gen)], c.order + [Ticket(id, c.gen)])
  {
    var entries, order := c.entries[id := Entry(InFlight, c.gen)], c.order + [Ticket(id, c.gen)];
    forall x | x in entries ensures Ticket(x, entries[x].gen) in order {
      if x == id {
        assert order[|order| - 1] == Ticket(id, c.gen);
      }
    }
  }

  lemma CompactIsOrdered(entries: map<string, Entry>, order: seq<Ticket>)
    requires Ordered(entries, order)
    ensures var kept := Compact(entries, order);
            && Ordered(entries, kept) && |kept| == |entries|
            && (forall t :: t in kept ==> t in order)
            && LiveItems(entries, kept) == LiveItems(entries, order)
  {
    CompactKeepsLive(entries, order);
    AsManyItems(entries, order);
  }

  /** What the eviction loop and the compaction behind it leave of an ordered cache. */
  lemma EvictAndCompact(entries: map<string, Entry>, order: seq<Ticket>, capacity: nat)
    requires Ordered(entries, order)
    ensures var e := Evict(entries, order, capacity);
            var kept := if |e.order| > capacity * 3 then Compact(e.entries, e.order) else e.order;
            && Ordered(e.entries, kept) && |kept| <= 3 * capacity
            && (forall t :: t in kept ==> t in order)
            && LiveItems(e.entries, kept) == DropOldest(LiveItems(entries, order), capacity)
  {
    EvictDropsOldest(entries, order, capacity);
    var e := Evict(entries, order, capacity);
    CompactIsOrdered(e.entries, e.order);
  }

  lemma NewAdmit(c: Cache, capacity: nat, id: string)
    requires Valid(c) && id !in c.entries
    ensures var c' := TryAdmit(c, capacity, id);
            && Valid(c') && |c'.order| <= 3 * capacity
            && Abstract(c') == DropOldest(Abstract(c) + [Item(id, InFlight)], capacity)
  {
    var entries, order := c.entries[id := Entry(InFlight, c.gen)], c.order + [Ticket(id, c.gen)];
    NewTicketOrdered(c, id);
    AppendItem(c.entries, c.order, id, c.gen);
    assert forall t :: t in order ==> t.gen < c.gen + 1;
    EvictAndCompact(entries, order, capacity);
  }

  /** An admit is the list's admit; afterwards the queue holds at most three tickets per slot. */
  lemma AdmitRefinesList(c: Cache, capacity: nat, id: string)
    requires Valid(c) && |c.order| <= 3 * capacity
    ensures var c' := TryAdmit(c, capacity, id);
            && Valid(c') && |c'.order| <= 3 * capacity
            && Abstract(c') == ListAdmit(Abstract(c), capacity, id)
            && (id in c.entries <==> Listed(Abstract(c), id))
  {
    ListedIsLive(c.entries, c.order, id);
    if id !in c.entries {
      NewAdmit(c, capacity, id);
    }
  }

  lemma {:induction false} MarkedItems(entries: map<string, Entry>, order: seq<Ticket>, id: string)
    requires id in entries
    ensures LiveItems(entries[id := entries[id].(state := Done)], order) == ListMarkDone(LiveItems(entries, order), id)
  {
    if order == [] {
    } else {
      MarkedItems(entries, order[1..], id);
      var items, rest := LiveItems(entries, order), LiveItems(entries, order[1..]);
      if Live(entries, order[0]) {
        assert items == [items[0]] + rest;
      }
    }
  }

  lemma UnlistedUnmarked(items: seq<Item>, id: string)
    requires !Listed(items, id)
    ensures ListMarkDone(items, id) == items
  {
  }

  lemma {:induction false} RemovedItems(entries: map<string, Entry>, order: seq<Ticket>, id: string)
    ensures LiveItems(entries - {id}, order) == ListRemove(LiveItems(entries, order), id)
  {
    if order == [] {
    } else {
      RemovedItems(entries, order[1..], id);
      var items, rest := LiveItems(entries, order), LiveItems(entries, order[1..]);
      if Live(entries, order[0]) {
        assert items[0].id == order[0].id && items[1..] == rest;
      }
    }
  }

  // ----- whole runs -----

  datatype Op = Admit(id: string) | Mark(id: string) | Forget(id: string)

  function Apply(c: Cache, capacity: nat, op: Op): Cache {
    match op
    case Admit(id) => TryAdmit(c, capacity, id)
    case Mark(id) => MarkDone(c, id)
    case Forget(id) => Remove(c, id)
  }

  function ListApply(items: seq<Item>, capacity: nat, op: Op): seq<Item> {
    match op
    case Admit(id) => ListAdmit(items, capacity, id)
    case Mark(id) => ListMarkDone(items, id)
    case Forget(id) => ListRemove(items, id)
  }

  /** The answers of a run's admits, from the cache. */
  function Answers(c: Cache, capacity: nat, ops: seq<Op>): seq<bool>
    decreases |ops|
  {
    if ops == [] then []
    else
      var rest := Answers(Apply(c, capacity, ops[0]), capacity, ops[1..]);
      if ops[0].Admit? then [ops[0].id !in c.entries] + rest else rest
  }

  /** The answers of a run's admits, from the list. */
  function ListAnswers(items: seq<Item>, capacity: nat, ops: seq<Op>): seq<bool>
    decreases |ops|
  {
    if ops == [] then []
    else
      var rest := ListAnswers(ListApply(items, capacity, ops[0]), capacity, ops[1..]);
      if ops[0].Admit? then [!Listed(items, ops[0].id)] + rest else rest
  }

  lemma StepRefinesList(c: Cache, capacity: nat, op: Op)
    requires Valid(c) && |c.order| <= 3 * capacity
    ensures var c' := Apply(c, capacity, op);
            && Valid(c') && |c'.order| <= 3 * capacity
            && Abstract(c') == ListApply(Abstract(c), capacity, op)
            && (op.Admit? ==> (op.id in c.entries <==> Listed(Abstract(c), op.id)))
  {
    match op {
      case Admit(id) => AdmitRefinesList(c, capacity, id);
      case Mark(id) =>
        ListedIsLive(c.entries, c.order, id);
        if id in c.entries {
          MarkedItems(c.entries, c.order, id);
        } else {
          UnlistedUnmarked(Abstract(c), id);
        }
      case Forget(id) => RemovedItems(c.entries, c.order, id);
    }
  }

  /** Over any run of operations the cache gives exactly the list's answers. */
  lemma {:induction false} RunRefinesList(c: Cache, capacity: nat, ops: seq<Op>)
    requires Valid(c) && |c.order| <= 3 * capacity
    ensures Answers(c, capacity, ops) == ListAnswers(Abstract(c), capacity, ops)
    decreases |ops|
  {
    if ops == [] {
    } else {
      StepRefinesList(c, capacity, ops[0]);
      RunRefinesList(Apply(c, capacity, ops[0]), capacity, ops[1..]);
    }
  }

  function ApplyAll(c: Cache, capacity: nat, ops: seq<Op>): Cache
    decreases |ops|
  {
    if ops == [] then c else ApplyAll(Apply(c, capacity, ops[0]), capacity, ops[1..])
  }

  function Admits(ops: seq<Op>): nat {
    if ops == [] then 0 else (if ops[0].Admit? then 1 else 0) + Admits(ops[1..])
  }

  /** The next generation counts the calls of `try_admit`, refused ones too. */
  lemma {:induction false} GenerationsCountCalls(c: Cache, capacity: nat, ops: seq<Op>)
    ensures ApplyAll(c, capacity, ops).gen == c.gen + Admits(ops)
    decreases |ops|
  {
    if ops == [] {
    } else {
      GenerationsCountCalls(Apply(c, capacity, ops[0]), capacity, ops[1..]);
    }
  }

  lemma NewCacheRefinesEmptyList(capacity: nat, ops: seq<Op>)
    ensures Answers(Cache(map[], [], 0), capacity, ops) == ListAnswers([], capacity, ops)
  {
    RunRefinesList(Cache(map[], [], 0), capacity, ops);
  }
}
