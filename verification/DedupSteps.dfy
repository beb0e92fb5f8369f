/**
 The dedup cache under concurrency (src/dedup.rs): every thread inside `try_admit` is at some
 point between taking a generation and releasing the queue's lock, map operations are single
 atomic steps, and `remove` may strike between any two of them.
 */
module DedupSteps {
  import opened Wrappers
  import opened Dedup

  /** Where a thread is inside `try_admit`. */
  datatype Pc =
    | Idle
    | Drawn(mine: Ticket)       // has a generation
    | Inserted(mine: Ticket)    // in the map, waiting for the lock
    | Locked(mine: Ticket)      // holds the lock, has not pushed
    | Looping                   // at the eviction loop's test
    | Popping                   // over capacity, about to pop
    | Popped(hand: Ticket)      // popped a ticket, about to look it up
    | Matched(hand: Ticket)     // found it live, about to remove its id
    | Leaving                   // out of the loop
    | Sifting(at: nat)          // compacting, at this queue position
    | Unlocking

  datatype Tid = Tid(n: nat)

  /** `entries` maps a live id to its generation. */
  datatype Sys =
    Sys(entries: map<string, nat>, order: seq<Ticket>, gen: nat, owner: Option<Tid>, pcs: map<Tid, Pc>)

  datatype Action =
    | Draw(tid: Tid, id: string)
    | Step(tid: Tid)
    | Strike(id: string)        // `remove`, from any caller

  predicate LiveTicket(s: Sys, t: Ticket) {
    t.id in s.entries && s.entries[t.id] == t.gen
  }

  function At(s: Sys, tid: Tid): Pc {
    if tid in s.pcs then s.pcs[tid] else Idle
  }

  function Moved(s: Sys, tid: Tid, pc: Pc): Sys {
    s.(pcs := s.pcs[tid := pc])
  }

  /** Only taking the lock has to wait. */
  predicate Enabled(s: Sys, a: Action) {
    match a
    case Draw(tid, _) => At(s, tid).Idle?
    case Step(tid) => !At(s, tid).Idle? && (At(s, tid).Inserted? ==> s.owner.None?)
    case Strike(_) => true
  }

  function Do(s: Sys, capacity: nat, a: Action): Sys
    requires Enabled(s, a)
  {
    match a
    case Strike(id) => s.(entries := s.entries - {id})
    case Draw(tid, id) => Moved(s, tid, Drawn(Ticket(id, s.gen))).(gen := s.gen + 1)
    case Step(tid) =>
      match At(s, tid)
      case Drawn(t) =>
        if t.id in s.entries then Moved(s, tid, Idle)
        else Moved(s, tid, Inserted(t)).(entries := s.entries[t.id := t.gen])
      case Inserted(t) => Moved(s, tid, Locked(t)).(owner := Some(tid))
      case Locked(t) => Moved(s, tid, Looping).(order := s.order + [t])
      case Looping => Moved(s, tid, if |s.entries| > capacity then Popping else Leaving)
      case Popping =>
        if s.order == [] then Moved(s, tid, Leaving)
        else Moved(s, tid, Popped(s.order[0])).(order := s.order[1..])
      case Popped(t) => Moved(s, tid, if LiveTicket(s, t) then Matched(t) else Looping)
      case Matched(t) => Moved(s, tid, Looping).(entries := s.entries - {t.id})
      case Leaving => Moved(s, tid, if |s.order| > capacity * 3 then Sifting(0) else Unlocking)
      case Sifting(i) =>
        if i >= |s.order| then Moved(s, tid, Unlocking)
        else if LiveTicket(s, s.order[i]) then Moved(s, tid, Sifting(i + 1))
        else s.(order := s.order[..i] + s.order[i + 1..])
      case Unlocking => Moved(s, tid, Idle).(owner := None)
      case Idle => s
  }

  function DoAll(s: Sys, capacity: nat, actions: seq<Action>): Sys
    requires AllEnabled(s, capacity, actions)
    decreases |actions|
  {
    if actions == [] then s else DoAll(Do(s, capacity, actions[0]), capacity, actions[1..])
  }

  predicate AllEnabled(s: Sys, capacity: nat, actions: seq<Action>)
    decreases |actions|
  {
    actions == [] || (Enabled(s, actions[0]) && AllEnabled(Do(s, capacity, actions[0]), capacity, actions[1..]))
  }

  const START := Sys(map[], [], 0, None, map[])

  // ----- invariants -----

  predicate HoldsLock(pc: Pc) {
    !pc.Idle? && !pc.Drawn? && !pc.Inserted?
  }

  /** The thread has inserted its entry and has not yet left the eviction loop. */
  predicate Admitting(pc: Pc) {
    pc.Inserted? || pc.Locked? || pc.Looping? || pc.Popping? || pc.Popped? || pc.Matched?
  }

  /** The thread answers for this ticket: it has not pushed it, or has just popped it. */
  predicate Carries(pc: Pc, t: Ticket) {
    (pc.Inserted? && pc.mine == t) || (pc.Locked? && pc.mine == t) ||
    (pc.Popped? && pc.hand == t) || (pc.Matched? && pc.hand == t)
  }

  function InFlight(s: Sys): set<Tid> {
    set tid | tid in s.pcs && Admitting(s.pcs[tid])
  }

  ghost predicate Exclusive(s: Sys) {
    forall tid :: HoldsLock(At(s, tid)) <==> s.owner == Some(tid)
  }

  /** The entry's ticket is in the queue, or some thread carries it. */
  ghost predicate Accounted(s: Sys, id: string)
    requires id in s.entries
  {
    var t := Ticket(id, s.entries[id]);
    t in s.order || exists tid :: Carries(At(s, tid), t)
  }

  ghost predicate Covered(s: Sys) {
    forall id :: id in s.entries ==> Accounted(s, id)
  }

  ghost predicate Bounded(s: Sys, capacity: nat) {
    |s.entries| <= capacity + |InFlight(s)|
  }

  ghost predicate Inv(s: Sys, capacity: nat) {
    Exclusive(s) && Covered(s) && Bounded(s, capacity)
  }

  /** A step changes only its own thread's place. */
  lemma OthersStay(s: Sys, capacity: nat, a: Action, tid: Tid)
    requires Enabled(s, a) && (a.Strike? || a.tid != tid)
    ensures At(Do(s, capacity, a), tid) == At(s, tid)
  {
  }

  /** The acting thread holds the lock after its step exactly when the lock names it. */
  lemma OwnExclusive(s: Sys, capacity: nat, a: Action)
    requires Enabled(s, a) && !a.Strike? && (HoldsLock(At(s, a.tid)) <==> s.owner == Some(a.tid))
    ensures HoldsLock(At(Do(s, capacity, a), a.tid)) <==> Do(s, capacity, a).owner == Some(a.tid)
  {
    var pc := At(s, a.tid);
    if a.Step? && (pc.Inserted? || pc.Unlocking?) {
      assert At(Do(s, capacity, a), a.tid) == if pc.Inserted? then Locked(pc.mine) else Idle;
    } else {
      assert Do(s, capacity, a).owner == s.owner;
    }
  }

  lemma ExclusiveKept(s: Sys, capacity: nat, a: Action)
    requires Exclusive(s) && Enabled(s, a)
    ensures Exclusive(Do(s, capacity, a))
  {
    var s' := Do(s, capacity, a);
    forall tid ensures HoldsLock(At(s', tid)) <==> s'.owner == Some(tid) {
      assert HoldsLock(At(s, tid)) <==> s.owner == Some(tid);
      if a.Strike? || a.tid != tid {
        assert !a.Strike? ==> (HoldsLock(At(s, a.tid)) <==> s.owner == Some(a.tid));
        OthersStay(s, capacity, a, tid);
      } else {
        OwnExclusive(s, capacity, a);
      }
    }
  }

  /** A ticket of a live entry stays in the queue, or moves into the popping thread's hand. */
  lemma QueuedKept(s: Sys, capacity: nat, a: Action, t: Ticket)
    requires Enabled(s, a) && LiveTicket(s, t) && t in s.order
    ensures var s' := Do(s, capacity, a);
            t in s'.order || exists tid :: Carries(At(s', tid), t)
  {
    var s' := Do(s, capacity, a);
    if a.Step? {
      match At(s, a.tid) {
        case Popping =>
          assert s.order == [s.order[0]] + s.order[1..];
          if t == s.order[0] {
            assert Carries(At(s', a.tid), t);
          }
        case Sifting(i) =>
          if i < |s.order| {
            assert s.order == s.order[..i] + [s.order[i]] + s.order[i + 1..];
          }
        case _ =>
      }
    }
  }

  /** A thread that carries a ticket keeps it, pushes it, or removes its entry. */
  lemma CarriedKept(s: Sys, capacity: nat, a: Action, t: Ticket, tid: Tid)
    requires Enabled(s, a) && LiveTicket(s, t) && Carries(At(s, tid), t)
    requires LiveTicket(Do(s, capacity, a), t)
    ensures var s' := Do(s, capacity, a);
            t in s'.order || exists tid' :: Carries(At(s', tid'), t)
  {
    var s' := Do(s, capacity, a);
    if a.Step? && a.tid == tid {
      if s.pcs[tid].Locked? {
        assert s'.order[|s'.order| - 1] == t;
      } else {
        assert Carries(At(s', tid), t);
      }
    } else {
      OthersStay(s, capacity, a, tid);
      assert Carries(At(s', tid), t);
    }
  }

  lemma CoveredKept(s: Sys, capacity: nat, a: Action)
    requires Covered(s) && Enabled(s, a)
    ensures Covered(Do(s, capacity, a))
  {
    var s' := Do(s, capacity, a);
    forall id | id in s'.entries
      ensures Accounted(s', id)
    {
      var t := Ticket(id, s'.entries[id]);
      if id in s.entries && s.entries[id] == s'.entries[id] {
        assert Accounted(s, id);
        if t in s.order {
          QueuedKept(s, capacity, a, t);
        } else {
          var tid :| Carries(At(s, tid), t);
          CarriedKept(s, capacity, a, t, tid);
        }
      } else {
        assert Carries(At(s', a.tid), t);
      }
    }
  }

  // ----- the size bound -----

  /** As many values as keys at most: an image is no larger than its domain. */
  lemma {:induction false} ImageNoLarger(tids: set<Tid>, ids: set<string>, f: map<Tid, string>)
    requires tids <= f.Keys
    requires forall id :: id in ids ==> exists tid :: tid in tids && f[tid] == id
    ensures |ids| <= |tids|
    decreases tids
  {
    if ids == {} {
    } else {
      var id :| id in ids;
      var tid :| tid in tids && f[tid] == id;
      forall x | x in ids - {id} ensures exists y :: y in tids - {tid} && f[y] == x {
        var y :| y in tids && f[y] == x;
        assert y in tids - {tid};
      }
      ImageNoLarger(tids - {tid}, ids - {id}, f);
    }
  }

  /** With an empty queue, every entry belongs to some other thread still waiting to push. */
  lemma EmptyQueueFits(s: Sys, tid: Tid)
    requires Exclusive(s) && Covered(s) && At(s, tid).Popping? && s.order == []
    ensures |s.entries| < |InFlight(s)|
  {
    var waiting := InFlight(s) - {tid};
    var f := map x | x in waiting && s.pcs[x].Inserted? :: s.pcs[x].mine.id;
    assert HoldsLock(At(s, tid));
    forall id | id in s.entries.Keys ensures exists x :: x in f.Keys && f[x] == id {
      assert Accounted(s, id);
      var x :| Carries(At(s, x), Ticket(id, s.entries[id]));
      assert HoldsLock(At(s, x)) <==> s.owner == Some(x);
      assert x in f.Keys;
    }
    ImageNoLarger(f.Keys, s.entries.Keys, f);
    SubsetNoLarger(f.Keys, waiting);
    assert tid in InFlight(s);
  }

  lemma {:induction false} SubsetNoLarger(a: set<Tid>, b: set<Tid>)
    requires a <= b
    ensures |a| <= |b|
    decreases a
  {
    if x :| x in a {
      SubsetNoLarger(a - {x}, b - {x});
    } else {
      assert a == {};
    }
  }

  function Count(b: bool): nat { if b then 1 else 0 }

  lemma Without(tids: set<Tid>, tid: Tid)
    ensures |tids| == |tids - {tid}| + Count(tid in tids)
  {
    if tid in tids {
      assert tids == tids - {tid} + {tid};
    } else {
      assert tids == tids - {tid};
    }
  }

  lemma SameButOne(before: set<Tid>, after: set<Tid>, tid: Tid)
    requires forall x :: x != tid ==> (x in after <==> x in before)
    ensures |after| + Count(tid in before) == |before| + Count(tid in after)
  {
    assert after - {tid} == before - {tid};
    Without(before, tid);
    Without(after, tid);
  }

  /** How the number of admitting threads changes with one thread's step. */
  lemma InFlightMoves(s: Sys, capacity: nat, a: Action)
    requires Enabled(s, a) && !a.Strike?
    ensures var s' := Do(s, capacity, a);
            |InFlight(s')| + Count(Admitting(At(s, a.tid))) == |InFlight(s)| + Count(Admitting(At(s', a.tid)))
  {
    var s' := Do(s, capacity, a);
    forall x | x != a.tid ensures x in InFlight(s') <==> x in InFlight(s) {
      OthersStay(s, capacity, a, x);
      InFlightAt(s, x);
      InFlightAt(s', x);
    }
    InFlightAt(s, a.tid);
    InFlightAt(s', a.tid);
    SameButOne(InFlight(s), InFlight(s'), a.tid);
  }

  lemma InFlightAt(s: Sys, tid: Tid)
    ensures tid in InFlight(s) <==> Admitting(At(s, tid))
  {
  }

  lemma StepBounded(s: Sys, capacity: nat, tid: Tid)
    requires Inv(s, capacity) && Enabled(s, Step(tid))
    ensures Bounded(Do(s, capacity, Step(tid)), capacity)
  {
    InFlightMoves(s, capacity, Step(tid));
    match At(s, tid) {
      case Drawn(t) =>
        if t.id !in s.entries {
          MoreEntries(s.entries, t.id, t.gen);
        }
      case Popping =>
        if s.order == [] {
          EmptyQueueFits(s, tid);
        }
      case Matched(t) => FewerEntries(s.entries, t.id);
      case _ =>
    }
  }

  lemma BoundedKept(s: Sys, capacity: nat, a: Action)
    requires Inv(s, capacity) && Enabled(s, a)
    ensures Bounded(Do(s, capacity, a), capacity)
  {
    match a {
      case Strike(id) => FewerEntries(s.entries, id);
      case Draw(_, _) => InFlightMoves(s, capacity, a);
      case Step(tid) => StepBounded(s, capacity, tid);
    }
  }

  lemma MoreEntries(entries: map<string, nat>, id: string, gen: nat)
    requires id !in entries
    ensures |entries[id := gen]| == |entries| + 1
  {
    assert entries[id := gen].Keys == entries.Keys + {id};
  }

  lemma FewerEntries(entries: map<string, nat>, id: string)
    ensures |entries - {id}| <= |entries|
  {
    var less := entries - {id};
    if id in entries {
      assert less.Keys == entries.Keys - {id};
    } else {
      assert less == entries;
    }
  }

  lemma {:induction false} EveryInterleavingKeepsInv(s: Sys, capacity: nat, actions: seq<Action>)
    requires Inv(s, capacity) && AllEnabled(s, capacity, actions)
    ensures Inv(DoAll(s, capacity, actions), capacity)
    decreases |actions|
  {
    if actions == [] {
    } else {
      ExclusiveKept(s, capacity, actions[0]);
      CoveredKept(s, capacity, actions[0]);
      BoundedKept(s, capacity, actions[0]);
      EveryInterleavingKeepsInv(Do(s, capacity, actions[0]), capacity, actions[1..]);
    }
  }

  /**
   At every point of every interleaving the map holds at most `capacity` entries plus one for
   each thread still admitting, and each entry's ticket is queued or carried by a thread.
   */
  lemma EveryInterleavingIsBounded(capacity: nat, actions: seq<Action>)
    requires AllEnabled(START, capacity, actions)
    ensures var s := DoAll(START, capacity, actions);
            |s.entries| <= capacity + |InFlight(s)| && Covered(s)
  {
    EveryInterleavingKeepsInv(START, capacity, actions);
  }

  /** At rest the map fits, and every entry's ticket is in the queue. */
  lemma AtRestFits(capacity: nat, actions: seq<Action>)
    requires AllEnabled(START, capacity, actions)
    requires forall tid :: At(DoAll(START, capacity, actions), tid).Idle?
    ensures var s := DoAll(START, capacity, actions);
            |s.entries| <= capacity && forall id :: id in s.entries ==> Ticket(id, s.entries[id]) in s.order
  {
    EveryInterleavingKeepsInv(START, capacity, actions);
    var s := DoAll(START, capacity, actions);
    forall tid | tid in s.pcs ensures !Admitting(s.pcs[tid]) {
      assert At(s, tid).Idle?;
    }
    assert InFlight(s) == {};
    forall id | id in s.entries ensures Ticket(id, s.entries[id]) in s.order {
      assert Accounted(s, id);
    }
  }

  // ----- the window between the lookup and the removal -----

  /** The generation a thread carries; -1 when it carries none. */
  function GenOf(pc: Pc): int {
    match pc
    case Drawn(t) => t.gen
    case Inserted(t) => t.gen
    case Locked(t) => t.gen
    case Popped(t) => t.gen
    case Matched(t) => t.gen
    case _ => -1
  }

  /** Nothing carries a generation that has not been drawn yet. */
  ghost predicate GensDrawn(s: Sys) {
    && (forall id :: id in s.entries ==> s.entries[id] < s.gen)
    && (forall t :: t in s.order ==> t.gen < s.gen)
    && (forall tid :: GenOf(At(s, tid)) < s.gen)
  }

  /** The generation is in no entry, no queued ticket and no other thread's hand. */
  ghost predicate Unused(s: Sys, gen: int, tid: Tid) {
    && (forall id :: id in s.entries ==> s.entries[id] != gen)
    && (forall t :: t in s.order ==> t.gen != gen)
    && (forall other :: other != tid ==> GenOf(At(s, other)) != gen)
  }

  ghost predicate DrawnUnused(s: Sys) {
    forall tid :: At(s, tid).Drawn? ==> Unused(s, At(s, tid).mine.gen, tid)
  }

  /** The generations of the entries, the queue and the threads after a step are among those before it,
      but for the one just drawn. */
  lemma GensComeFrom(s: Sys, capacity: nat, a: Action)
    requires Enabled(s, a)
    ensures var s' := Do(s, capacity, a);
            && s.gen <= s'.gen
            && (forall id :: id in s'.entries ==>
                  (id in s.entries && s'.entries[id] == s.entries[id])
                  || (a.Step? && At(s, a.tid).Drawn? && s'.entries[id] == GenOf(At(s, a.tid))))
    ensures forall t :: t in Do(s, capacity, a).order ==>
              t in s.order || (a.Step? && At(s, a.tid).Locked? && t.gen == GenOf(At(s, a.tid)))
  {
  }

  lemma ThreadGenComesFrom(s: Sys, capacity: nat, a: Action, tid: Tid)
    requires Enabled(s, a)
    ensures var gen := GenOf(At(Do(s, capacity, a), tid));
            || gen == -1 || gen == GenOf(At(s, tid))
            || (a.Draw? && a.tid == tid && gen == s.gen && Do(s, capacity, a).gen == s.gen + 1)
            || (a.Step? && a.tid == tid && s.order != [] && gen == s.order[0].gen)
  {
    if a.Strike? || tid != a.tid {
      OthersStay(s, capacity, a, tid);
    }
  }

  lemma GensDrawnKept(s: Sys, capacity: nat, a: Action)
    requires GensDrawn(s) && Enabled(s, a)
    ensures GensDrawn(Do(s, capacity, a))
  {
    var s' := Do(s, capacity, a);
    GensComeFrom(s, capacity, a);
    assert !a.Strike? ==> GenOf(At(s, a.tid)) < s.gen;
    assert s.order != [] ==> s.order[0] in s.order;
    forall tid ensures GenOf(At(s', tid)) < s'.gen {
      assert GenOf(At(s, tid)) < s.gen;
      ThreadGenComesFrom(s, capacity, a, tid);
    }
  }

  lemma DrawnUnusedKept(s: Sys, capacity: nat, a: Action)
    requires GensDrawn(s) && DrawnUnused(s) && Enabled(s, a)
    ensures DrawnUnused(Do(s, capacity, a))
  {
    var s' := Do(s, capacity, a);
    forall tid | At(s', tid).Drawn?
      ensures Unused(s', At(s', tid).mine.gen, tid)
    {
      if a.Draw? && a.tid == tid {
        forall other | other != tid ensures GenOf(At(s', other)) != s.gen {
          OthersStay(s, capacity, a, other);
        }
      } else {
        OthersStay(s, capacity, a, tid);
        StaysUnused(s, capacity, a, tid, At(s, tid).mine.gen);
      }
    }
  }

  lemma StaysUnused(s: Sys, capacity: nat, a: Action, tid: Tid, gen: int)
    requires GensDrawn(s) && Enabled(s, a)
    requires 0 <= gen == GenOf(At(s, tid)) && Unused(s, gen, tid) && (a.Strike? || a.tid != tid)
    ensures Unused(Do(s, capacity, a), gen, tid)
  {
    var s' := Do(s, capacity, a);
    GensComeFrom(s, capacity, a);
    assert gen < s.gen;
    assert !a.Strike? ==> GenOf(At(s, a.tid)) != gen;
    assert s.order != [] ==> s.order[0] in s.order;
    forall other | other != tid ensures GenOf(At(s', other)) != gen {
      assert GenOf(At(s, other)) != gen;
      ThreadGenComesFrom(s, capacity, a, other);
    }
  }

  lemma {:induction false} GensKept(s: Sys, capacity: nat, actions: seq<Action>)
    requires GensDrawn(s) && DrawnUnused(s) && AllEnabled(s, capacity, actions)
    ensures GensDrawn(DoAll(s, capacity, actions)) && DrawnUnused(DoAll(s, capacity, actions))
    decreases |actions|
  {
    if actions == [] {
    } else {
      GensDrawnKept(s, capacity, actions[0]);
      DrawnUnusedKept(s, capacity, actions[0]);
      GensKept(Do(s, capacity, actions[0]), capacity, actions[1..]);
    }
  }

  predicate ByOthers(actions: seq<Action>, tid: Tid) {
    forall a :: a in actions ==> a.Strike? || a.tid != tid
  }

  /** One step of somebody else, while `tid` has `hand` matched: only `remove` of its id unmakes
      the match, and nothing remakes it. */
  lemma OthersStepInWindow(s: Sys, capacity: nat, a: Action, tid: Tid, hand: Ticket)
    requires Exclusive(s) && GensDrawn(s) && DrawnUnused(s) && Enabled(s, a)
    requires At(s, tid) == Matched(hand) && (a.Strike? || a.tid != tid)
    ensures At(Do(s, capacity, a), tid) == Matched(hand)
    ensures LiveTicket(Do(s, capacity, a), hand) <==> LiveTicket(s, hand) && a != Strike(hand.id)
  {
    OthersStay(s, capacity, a, tid);
    assert HoldsLock(At(s, tid)) && GenOf(At(s, tid)) == hand.gen;
    if a.Step? {
      assert HoldsLock(At(s, a.tid)) <==> s.owner == Some(a.tid);
    }
  }

  lemma {:induction false} MatchInWindow(s: Sys, capacity: nat, actions: seq<Action>, tid: Tid, hand: Ticket)
    requires Exclusive(s) && GensDrawn(s) && DrawnUnused(s)
    requires AllEnabled(s, capacity, actions) && ByOthers(actions, tid)
    requires At(s, tid) == Matched(hand)
    ensures var s' := DoAll(s, capacity, actions);
            && At(s', tid) == Matched(hand)
            && (LiveTicket(s', hand) <==> LiveTicket(s, hand) && Strike(hand.id) !in actions)
    decreases |actions|
  {
    if actions == [] {
    } else {
      var a := actions[0];
      assert a in actions && forall x :: x in actions[1..] ==> x in actions;
      assert forall x :: x in actions <==> x == a || x in actions[1..];
      OthersStepInWindow(s, capacity, a, tid, hand);
      ExclusiveKept(s, capacity, a);
      GensDrawnKept(s, capacity, a);
      DrawnUnusedKept(s, capacity, a);
      MatchInWindow(Do(s, capacity, a), capacity, actions[1..], tid, hand);
    }
  }

  /**
   A popped ticket is matched exactly when its generation is live, and an eviction then removes that
   generation exactly when no `remove` of the id struck between the lookup and the removal.
   */
  lemma EvictsOwnExactlyWithoutStrike(capacity: nat, before: seq<Action>, window: seq<Action>, tid: Tid, hand: Ticket)
    requires AllEnabled(START, capacity, before) && At(DoAll(START, capacity, before), tid) == Popped(hand)
    ensures Enabled(DoAll(START, capacity, before), Step(tid))
    ensures var s := DoAll(START, capacity, before);
            var looked := Do(s, capacity, Step(tid));
            && (At(looked, tid) == Matched(hand) <==> LiveTicket(s, hand))
            && (LiveTicket(s, hand) && AllEnabled(looked, capacity, window) && ByOthers(window, tid) ==>
                  KeepsMatch(looked, capacity, window, tid, hand))
  {
    var s := DoAll(START, capacity, before);
    var looked := Do(s, capacity, Step(tid));
    EveryInterleavingKeepsInv(START, capacity, before);
    GensKept(START, capacity, before);
    ExclusiveKept(s, capacity, Step(tid));
    GensDrawnKept(s, capacity, Step(tid));
    DrawnUnusedKept(s, capacity, Step(tid));
    if LiveTicket(s, hand) && AllEnabled(looked, capacity, window) && ByOthers(window, tid) {
      MatchInWindow(looked, capacity, window, tid, hand);
    }
  }

  /** Through the window the thread holds its match, live exactly without a strike. */
  ghost predicate KeepsMatch(s: Sys, capacity: nat, window: seq<Action>, tid: Tid, hand: Ticket)
    requires AllEnabled(s, capacity, window)
  {
    var s' := DoAll(s, capacity, window);
    At(s', tid) == Matched(hand) && (LiveTicket(s', hand) <==> Strike(hand.id) !in window)
  }

  /** A state some interleaving reaches. */
  ghost predicate Reachable(s: Sys, capacity: nat) {
    exists actions :: AllEnabled(START, capacity, actions) && DoAll(START, capacity, actions) == s
  }

  lemma {:induction false} OneMore(s: Sys, capacity: nat, actions: seq<Action>, a: Action)
    requires AllEnabled(s, capacity, actions) && Enabled(DoAll(s, capacity, actions), a)
    ensures AllEnabled(s, capacity, actions + [a])
    ensures DoAll(s, capacity, actions + [a]) == Do(DoAll(s, capacity, actions), capacity, a)
    decreases |actions|
  {
    var more := actions + [a];
    if actions == [] {
      assert more == [a];
    } else {
      assert more[0] == actions[0] && more[1..] == actions[1..] + [a];
      OneMore(Do(s, capacity, actions[0]), capacity, actions[1..], a);
    }
  }

  lemma Reach(s: Sys, capacity: nat, a: Action, s': Sys)
    requires Reachable(s, capacity) && Enabled(s, a) && Do(s, capacity, a) == s'
    ensures Reachable(s', capacity)
  {
    var actions :| AllEnabled(START, capacity, actions) && DoAll(START, capacity, actions) == s;
    OneMore(START, capacity, actions, a);
  }

  lemma AdmitToInserted(s: Sys, capacity: nat, tid: Tid, id: string) returns (s': Sys)
    requires Reachable(s, capacity) && At(s, tid).Idle? && s.owner.None? && id !in s.entries
    ensures Reachable(s', capacity)
    ensures s' == Sys(s.entries[id := s.gen], s.order, s.gen + 1, None, s.pcs[tid := Inserted(Ticket(id, s.gen))])
  {
    var t := Ticket(id, s.gen);
    var s1 := Sys(s.entries, s.order, s.gen + 1, None, s.pcs[tid := Drawn(t)]);
    Reach(s, capacity, Draw(tid, id), s1);
    s' := Sys(s.entries[id := s.gen], s.order, s.gen + 1, None, s.pcs[tid := Inserted(t)]);
    assert s1.pcs[tid := Inserted(t)] == s'.pcs;
    Reach(s1, capacity, Step(tid), s');
  }

  lemma AdmitToLocked(s: Sys, capacity: nat, tid: Tid, id: string) returns (s': Sys)
    requires Reachable(s, capacity) && At(s, tid).Idle? && s.owner.None? && id !in s.entries
    ensures Reachable(s', capacity)
    ensures s' == Sys(s.entries[id := s.gen], s.order, s.gen + 1, Some(tid), s.pcs[tid := Locked(Ticket(id, s.gen))])
  {
    var t := Ticket(id, s.gen);
    var s2 := AdmitToInserted(s, capacity, tid, id);
    s' := s2.(owner := Some(tid), pcs := s.pcs[tid := Locked(t)]);
    assert s2.pcs[tid := Locked(t)] == s'.pcs;
    Reach(s2, capacity, Step(tid), s');
  }

  /** A thread admits a new id, and takes it as far as the loop's test. */
  lemma AdmitToTest(s: Sys, capacity: nat, tid: Tid, id: string) returns (s': Sys)
    requires Reachable(s, capacity) && At(s, tid).Idle? && s.owner.None? && id !in s.entries
    ensures Reachable(s', capacity)
    ensures s' == Sys(s.entries[id := s.gen], s.order + [Ticket(id, s.gen)], s.gen + 1, Some(tid),
                      s.pcs[tid := Looping])
  {
    var t := Ticket(id, s.gen);
    var s3 := AdmitToLocked(s, capacity, tid, id);
    s' := Sys(s3.entries, s.order + [t], s.gen + 1, Some(tid), s.pcs[tid := Looping]);
    assert s3.pcs[tid := Looping] == s'.pcs;
    Reach(s3, capacity, Step(tid), s');
  }

  lemma TestToLeaving(s: Sys, capacity: nat, tid: Tid) returns (s': Sys)
    requires Reachable(s, capacity) && At(s, tid).Looping? && |s.entries| <= capacity
    ensures Reachable(s', capacity) && s' == s.(pcs := s.pcs[tid := Leaving])
  {
    s' := s.(pcs := s.pcs[tid := Leaving]);
    assert Do(s, capacity, Step(tid)) == s';
    Reach(s, capacity, Step(tid), s');
  }

  lemma LeavingToUnlock(s: Sys, capacity: nat, tid: Tid) returns (s': Sys)
    requires Reachable(s, capacity) && At(s, tid).Leaving? && |s.order| <= 3 * capacity
    ensures Reachable(s', capacity) && s' == s.(pcs := s.pcs[tid := Unlocking])
  {
    s' := s.(pcs := s.pcs[tid := Unlocking]);
    assert Do(s, capacity, Step(tid)) == s';
    Reach(s, capacity, Step(tid), s');
  }

  /** With room in the map and in the queue, a thread leaves the loop without compacting. */
  lemma TestToUnlock(s: Sys, capacity: nat, tid: Tid) returns (s': Sys)
    requires Reachable(s, capacity) && At(s, tid).Looping?
    requires |s.entries| <= capacity && |s.order| <= 3 * capacity
    ensures Reachable(s', capacity)
    ensures s' == s.(pcs := s.pcs[tid := Unlocking])
  {
    var s1 := TestToLeaving(s, capacity, tid);
    s' := LeavingToUnlock(s1, capacity, tid);
    assert s.pcs[tid := Leaving][tid := Unlocking] == s.pcs[tid := Unlocking];
  }

  lemma Unlock(s: Sys, capacity: nat, tid: Tid) returns (s': Sys)
    requires Reachable(s, capacity) && At(s, tid).Unlocking?
    ensures Reachable(s', capacity)
    ensures s' == s.(owner := None, pcs := s.pcs[tid := Idle])
  {
    s' := s.(owner := None, pcs := s.pcs[tid := Idle]);
    Reach(s, capacity, Step(tid), s');
  }

  /** Over capacity, a thread pops the first ticket and finds it live. */
  lemma TestToMatch(s: Sys, capacity: nat, tid: Tid) returns (s': Sys)
    requires Reachable(s, capacity) && At(s, tid).Looping?
    requires |s.entries| > capacity && s.order != [] && LiveTicket(s, s.order[0])
    ensures Reachable(s', capacity)
    ensures s' == s.(order := s.order[1..], pcs := s.pcs[tid := Matched(s.order[0])])
  {
    var t := s.order[0];
    var s1 := s.(pcs := s.pcs[tid := Popping]);
    Reach(s, capacity, Step(tid), s1);
    var s2 := s.(order := s.order[1..], pcs := s.pcs[tid := Popped(t)]);
    assert s1.pcs[tid := Popped(t)] == s2.pcs;
    Reach(s1, capacity, Step(tid), s2);
    s' := s.(order := s.order[1..], pcs := s.pcs[tid := Matched(t)]);
    assert s2.pcs[tid := Matched(t)] == s'.pcs;
    Reach(s2, capacity, Step(tid), s');
  }

  /** The id of the matched ticket is removed, and another thread admits it again. */
  lemma ReadmitInWindow(s: Sys, capacity: nat, tid: Tid, other: Tid, hand: Ticket) returns (s': Sys)
    requires Reachable(s, capacity) && At(s, tid) == Matched(hand) && At(s, other).Idle? && tid != other
    ensures Reachable(s', capacity) && At(s', tid) == Matched(hand)
    ensures s'.entries == (s.entries - {hand.id})[hand.id := s.gen]
  {
    var t := Ticket(hand.id, s.gen);
    var s1 := s.(entries := s.entries - {hand.id});
    Reach(s, capacity, Strike(hand.id), s1);
    var s2 := s1.(gen := s.gen + 1, pcs := s.pcs[other := Drawn(t)]);
    Reach(s1, capacity, Draw(other, hand.id), s2);
    s' := Do(s2, capacity, Step(other));
    Reach(s2, capacity, Step(other), s');
  }

  /** One thread admits "a" into an empty cache of capacity 1. */
  lemma FirstAdmit(tid: Tid) returns (s: Sys)
    ensures Reachable(s, 1) && s.owner.None? && s.gen == 1
    ensures s.entries == map["a" := 0] && s.order == [Ticket("a", 0)] && s.pcs.Keys == {tid} && At(s, tid).Idle?
  {
    assert DoAll(START, 1, []) == START;
    s := AdmitToTest(START, 1, tid, "a");
    assert s.entries.Keys == {"a"};
    s := TestToUnlock(s, 1, tid);
    s := Unlock(s, 1, tid);
  }

  /** The same thread admits "b", pops the ticket of "a" and finds it live. */
  lemma SecondAdmitMatches(tid: Tid) returns (s: Sys)
    ensures Reachable(s, 1) && s.gen == 2 && s.entries == map["a" := 0, "b" := 1] && s.pcs.Keys == {tid}
    ensures At(s, tid) == Matched(Ticket("a", 0))
    ensures s.owner == Some(tid) && s.order == [Ticket("b", 1)]
  {
    var s1 := FirstAdmit(tid);
    var s2 := AdmitToTest(s1, 1, tid, "b");
    assert s2.entries.Keys == {"a", "b"};
    assert |s2.entries| == 2 && s2.order[0] == Ticket("a", 0) && s2.entries["a"] == 0;
    s := TestToMatch(s2, 1, tid);
  }

  /**
   The window is real: a `remove` and a second admit of "a" between the lookup and the removal
   make the eviction remove the newer generation of "a".
   */
  lemma NewerGenerationEvicted() returns (s: Sys, tid: Tid)
    ensures Reachable(s, 1)
    ensures At(s, tid) == Matched(Ticket("a", 0)) && "a" in s.entries && s.entries["a"] == 2
    ensures "a" !in Do(s, 1, Step(tid)).entries
  {
    tid := Tid(1);
    var matched := SecondAdmitMatches(tid);
    assert At(matched, Tid(2)).Idle?;
    s := ReadmitInWindow(matched, 1, tid, Tid(2), Ticket("a", 0));
  }
}
