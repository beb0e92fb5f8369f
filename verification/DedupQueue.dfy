/**
 The eviction queue of the dedup cache, thread by thread (src/dedup.rs): in every interleaving the
 queue holds at most three tickets per slot whenever its lock is free, although other threads
 insert and remove entries while one of them compacts it.
 */
module DedupQueue {
  import opened Wrappers
  import opened Dedup
  import opened DedupSteps

  /** How many tickets of the queue are live. */
  function LiveCount(entries: map<string, nat>, order: seq<Ticket>): nat {
    if order == [] then 0
    else
      var t := order[0];
      Count(t.id in entries && entries[t.id] == t.gen) + LiveCount(entries, order[1..])
  }

  ghost predicate DistinctGens(order: seq<Ticket>) {
    forall i, j :: 0 <= i < j < |order| ==> order[i].gen != order[j].gen
  }

  /** A queue without repeated generations holds no more live tickets than there are entries. */
  lemma {:induction false} LiveCountFits(entries: map<string, nat>, order: seq<Ticket>)
    requires DistinctGens(order)
    ensures LiveCount(entries, order) <= |entries|
  {
    if order == [] {
    } else {
      var t, rest := order[0], order[1..];
      assert DistinctGens(rest);
      if t.id in entries && entries[t.id] == t.gen {
        var less := entries - {t.id};
        forall x | x in rest && x.id in entries && entries[x.id] == x.gen ensures x.id in less && less[x.id] == x.gen {
          var k :| 0 <= k < |rest| && rest[k] == x;
          assert order[k + 1] == x && order[0].gen != x.gen;
        }
        LiveCountOnlyFalls(less, entries, rest);
        LiveCountFits(less, rest);
        assert less.Keys == entries.Keys - {t.id};
      } else {
        LiveCountFits(entries, rest);
      }
    }
  }

  /** Where no ticket of the queue comes alive, the count does not rise. */
  lemma {:induction false} LiveCountOnlyFalls(before: map<string, nat>, after: map<string, nat>, order: seq<Ticket>)
    requires forall t :: t in order && t.id in after && after[t.id] == t.gen ==> t.id in before && before[t.id] == t.gen
    ensures LiveCount(after, order) <= LiveCount(before, order)
  {
    if order == [] {
    } else {
      assert order[0] in order && forall t :: t in order[1..] ==> t in order;
      LiveCountOnlyFalls(before, after, order[1..]);
    }
  }

  /** The generation of a ticket that has not been pushed yet; -1 when there is none. */
  function UnpushedGen(pc: Pc): int {
    match pc
    case Drawn(t) => t.gen
    case Inserted(t) => t.gen
    case Locked(t) => t.gen
    case _ => -1
  }

  /** No generation is queued twice, queued before it is pushed, or held by two threads. */
  ghost predicate PushedOnce(s: Sys) {
    && DistinctGens(s.order)
    && (forall tid, t :: t in s.order ==> UnpushedGen(At(s, tid)) != t.gen)
    && (forall x, y :: x != y && UnpushedGen(At(s, x)) >= 0 ==> UnpushedGen(At(s, x)) != UnpushedGen(At(s, y)))
  }

  /** What the queue holds while the lock's owner is at this point. */
  ghost predicate FitsAt(s: Sys, capacity: nat, pc: Pc) {
    match pc
    case Idle => true
    case Drawn(_) => true
    case Inserted(_) => true
    case Locked(_) => |s.order| <= 3 * capacity
    case Leaving => |s.order| <= 3 * capacity + 1 && LiveCount(s.entries, s.order) <= capacity
    case Sifting(i) => i <= |s.order| <= 3 * capacity + 1 && i + LiveCount(s.entries, s.order[i..]) <= capacity
    case Unlocking => |s.order| <= 3 * capacity
    case _ => |s.order| <= 3 * capacity + 1
  }

  ghost predicate QueueFits(s: Sys, capacity: nat) {
    && (forall tid :: FitsAt(s, capacity, At(s, tid)))
    && (s.owner.None? ==> |s.order| <= 3 * capacity)
  }

  /** What the steps of other threads leave of the queue and its live tickets. */
  lemma OthersKeepFits(s: Sys, capacity: nat, a: Action, tid: Tid)
    requires Exclusive(s) && GensDrawn(s) && PushedOnce(s) && Enabled(s, a)
    requires (a.Strike? || a.tid != tid) && HoldsLock(At(s, tid)) && FitsAt(s, capacity, At(s, tid))
    ensures FitsAt(Do(s, capacity, a), capacity, At(s, tid))
  {
    var s' := Do(s, capacity, a);
    var pc := At(s, tid);
    if a.Step? {
      assert HoldsLock(At(s, a.tid)) <==> s.owner == Some(a.tid);
    }
    assert HoldsLock(At(s, tid)) <==> s.owner == Some(tid);
    assert s'.order == s.order;
    forall t | t in s.order && LiveTicket(s', t) ensures LiveTicket(s, t) {
      if a.Step? {
        assert UnpushedGen(At(s, a.tid)) != t.gen;
      }
    }
    if pc.Leaving? {
      LiveCountOnlyFalls(s.entries, s'.entries, s.order);
    } else if pc.Sifting? {
      assert forall t :: t in s.order[pc.at..] ==> t in s.order;
      LiveCountOnlyFalls(s.entries, s'.entries, s.order[pc.at..]);
    }
  }

  /** The owner's own step. */
  lemma OwnerKeepsFits(s: Sys, capacity: nat, tid: Tid)
    requires PushedOnce(s) && Enabled(s, Step(tid)) && FitsAt(s, capacity, At(s, tid))
    requires s.owner.None? ==> |s.order| <= 3 * capacity
    ensures FitsAt(Do(s, capacity, Step(tid)), capacity, At(Do(s, capacity, Step(tid)), tid))
  {
    var s' := Do(s, capacity, Step(tid));
    match At(s, tid) {
      case Looping => LiveCountFits(s.entries, s.order);
      case Popping =>
        if s.order == [] {
          assert LiveCount(s.entries, s.order) == 0;
        }
      case Leaving => assert s.order[0..] == s.order;
      case Sifting(i) =>
        if i < |s.order| {
          assert s.order[i..][0] == s.order[i] && s.order[i..][1..] == s.order[i + 1..];
          if !LiveTicket(s, s.order[i]) {
            assert s'.order[i..] == s.order[i + 1..];
            assert At(s', tid) == Sifting(i);
          }
        }
      case _ =>
    }
  }

  lemma QueueFitsKept(s: Sys, capacity: nat, a: Action)
    requires Exclusive(s) && GensDrawn(s) && PushedOnce(s) && QueueFits(s, capacity) && Enabled(s, a)
    ensures QueueFits(Do(s, capacity, a), capacity)
  {
    var s' := Do(s, capacity, a);
    forall tid ensures FitsAt(s', capacity, At(s', tid)) {
      assert FitsAt(s, capacity, At(s, tid));
      if a.Step? && a.tid == tid {
        OwnerKeepsFits(s, capacity, tid);
      } else if a.Strike? || a.tid != tid {
        OthersStay(s, capacity, a, tid);
        if HoldsLock(At(s, tid)) {
          OthersKeepFits(s, capacity, a, tid);
        }
      }
    }
    if s'.owner.None? {
      FreeQueueFits(s, capacity, a);
    }
  }

  /** When the lock is free, nobody has pushed since it was released. */
  lemma FreeQueueFits(s: Sys, capacity: nat, a: Action)
    requires Exclusive(s) && QueueFits(s, capacity) && Enabled(s, a) && Do(s, capacity, a).owner.None?
    ensures |Do(s, capacity, a).order| <= 3 * capacity
  {
    if a.Step? {
      assert HoldsLock(At(s, a.tid)) <==> s.owner == Some(a.tid);
      assert FitsAt(s, capacity, At(s, a.tid));
    }
  }

  lemma PushedOnceKept(s: Sys, capacity: nat, a: Action)
    requires GensDrawn(s) && PushedOnce(s) && Enabled(s, a)
    ensures PushedOnce(Do(s, capacity, a))
  {
    var s' := Do(s, capacity, a);
    forall tid, t | t in s'.order ensures UnpushedGen(At(s', tid)) != t.gen {
      OwnUnpushed(s, capacity, a, tid);
      if a.Step? {
        OwnUnpushed(s, capacity, a, a.tid);
      }
      assert t in s.order || (a.Step? && At(s, a.tid) == Locked(t));
    }
    forall x, y | x != y && UnpushedGen(At(s', x)) >= 0 ensures UnpushedGen(At(s', x)) != UnpushedGen(At(s', y)) {
      OwnUnpushed(s, capacity, a, x);
      OwnUnpushed(s, capacity, a, y);
    }
    OrderStaysDistinct(s, capacity, a);
  }

  /** What a thread has not pushed after a step: what it had not before, or the newest generation. */
  lemma OwnUnpushed(s: Sys, capacity: nat, a: Action, tid: Tid)
    requires GensDrawn(s) && Enabled(s, a)
    ensures var gen := UnpushedGen(At(Do(s, capacity, a), tid));
            && (gen == UnpushedGen(At(s, tid)) || (gen == s.gen && a.Draw? && a.tid == tid)
                || (gen == -1 && a.Step? && a.tid == tid))
    ensures UnpushedGen(At(s, tid)) < s.gen
    ensures a.Step? && a.tid == tid && At(s, tid).Locked? ==> UnpushedGen(At(Do(s, capacity, a), tid)) == -1
  {
    assert GenOf(At(s, tid)) < s.gen;
    if a.Strike? || a.tid != tid {
      OthersStay(s, capacity, a, tid);
    }
  }

  lemma OrderStaysDistinct(s: Sys, capacity: nat, a: Action)
    requires PushedOnce(s) && Enabled(s, a)
    ensures DistinctGens(Do(s, capacity, a).order)
  {
    var s' := Do(s, capacity, a);
    if a.Step? {
      match At(s, a.tid) {
        case Locked(t) =>
          forall i, j | 0 <= i < j < |s'.order| ensures s'.order[i].gen != s'.order[j].gen {
            if j == |s.order| {
              assert s.order[i] in s.order && UnpushedGen(At(s, a.tid)) != s.order[i].gen;
            }
          }
        case _ =>
      }
    }
  }

  lemma {:induction false} QueueFitsAlways(s: Sys, capacity: nat, actions: seq<Action>)
    requires Exclusive(s) && GensDrawn(s) && PushedOnce(s) && QueueFits(s, capacity)
    requires AllEnabled(s, capacity, actions)
    ensures Exclusive(DoAll(s, capacity, actions)) && QueueFits(DoAll(s, capacity, actions), capacity)
    decreases |actions|
  {
    if actions == [] {
    } else {
      var a := actions[0];
      ExclusiveKept(s, capacity, a);
      GensDrawnKept(s, capacity, a);
      PushedOnceKept(s, capacity, a);
      QueueFitsKept(s, capacity, a);
      QueueFitsAlways(Do(s, capacity, a), capacity, actions[1..]);
    }
  }

  /**
   In every interleaving the queue holds at most three tickets per slot whenever the lock is free,
   and at most one more while a thread works on it.
   */
  lemma EveryReleaseFits(capacity: nat, actions: seq<Action>)
    requires AllEnabled(START, capacity, actions)
    ensures var s := DoAll(START, capacity, actions);
            |s.order| <= 3 * capacity + 1 && (s.owner.None? ==> |s.order| <= 3 * capacity)
  {
    QueueFitsAlways(START, capacity, actions);
    var s := DoAll(START, capacity, actions);
    if s.owner.Some? {
      var tid := s.owner.value;
      assert HoldsLock(At(s, tid)) && FitsAt(s, capacity, At(s, tid));
    }
  }
}
