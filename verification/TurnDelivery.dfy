/**
  What the turn-holder protocol delivers: no message is lost in the fine machine, and in the
  coarse machine, which is the source's own atomicity, they are driven in arrival order.
*/
module TurnDelivery {
  import opened Wrappers
  import opened AgentLoops
  import opened TurnProtocol

  // ---- exclusivity over whole runs ---------------------------------------------------

  predicate WaitWasCancelled(es: seq<Event>) {
    exists k :: 0 <= k < |es| && es[k].WaitCancelled?
  }

  lemma {:induction false} WedgedIffWaitCancelled(w: World, es: seq<Event>)
    requires Runnable(w, es)
    ensures Run(w, es).wedged <==> w.wedged || WaitWasCancelled(es)
    decreases |es|
  {
    if es != [] {
      WedgedIffWaitCancelled(Apply(w, es[0]), es[1..]);
      if WaitWasCancelled(es) && !es[0].WaitCancelled? {
        var k :| 0 <= k < |es| && es[k].WaitCancelled?;
        assert es[1..][k - 1] == es[k];
      }
    }
  }

  /**
    At most one turn is driven at a time, the holder keeps at most one message of its own,
    and the loop is busy exactly when a task holds the turn -- as long as no task is
    cancelled at the wait for subagents, where the source leaves the loop in SAFE_POINT.
  */
  lemma TurnsAreExclusive(es: seq<Event>)
    requires Runnable(START, es)
    ensures var w := Run(START, es);
      && (forall t, u :: Holds(w, t) && Holds(w, u) ==> t == u)
      && (forall t, u :: 0 <= t < u < |w.tasks| ==> !(w.tasks[t].Driving? && w.tasks[u].Driving?))
      && (forall t :: 0 <= t < |w.tasks| && w.tasks[t].Driving? ==> w.tasks[t].pending == [])
      && (forall t :: 0 <= t < |w.tasks| && w.tasks[t].Resubmitting? ==> |w.tasks[t].pending| <= 1)
      && ((w.loop.state != Idle <==> SomeoneHolds(w)) <==> !WaitWasCancelled(es))
  {
    ExclusiveRun(START, es);
    WedgedIffWaitCancelled(START, es);
    var w := Run(START, es);
    assert forall t :: 0 <= t < |w.tasks| ==> PcFits(w.loop, w.tasks[t]);
    forall t, u | 0 <= t < u < |w.tasks|
      ensures !(w.tasks[t].Driving? && w.tasks[u].Driving?)
    {
      assert Holds(w, t) && Holds(w, u) ==> t == u;
    }
    assert SomeoneHolds(w) ==> w.loop.state != Idle by {
      if t: nat :| Holds(w, t) {
        assert PcFits(w.loop, w.tasks[t]);
      }
    }
  }

  /** No message is submitted as a redirect. */
  predicate RedirectFree(es: seq<Event>) {
    forall k :: 0 <= k < |es| ==> RedirectFreeEvent(es[k])
  }

  predicate RedirectFreeEvent(e: Event) {
    e.Submit? ==> !e.m.isRedirect
  }

  /** No redirect is queued, and so no task waits for subagents. */
  predicate NoRedirects(w: World) {
    !HasRedirect(w.loop.queue) && forall t :: 0 <= t < |w.tasks| ==> !w.tasks[t].CancelWait?
  }

  lemma NoRedirectQueued(queue: seq<Message>, item: Item)
    requires !HasRedirect(queue)
    ensures !HasRedirect(queue + [Message(item, false)])
  {
  }

  lemma SubmitKeepsNoRedirects(w: World, m: Message)
    requires NoRedirects(w) && !m.isRedirect
    ensures NoRedirects(Apply(w, Submit(m)))
  {
    NoRedirectQueued(w.loop.queue, m.item);
    assert m == Message(m.item, false);
  }

  lemma TurnEndKeepsNoRedirects(w: World, t: nat, outcome: Outcome, suspends: bool)
    requires NoRedirects(w) && Enabled(w, TurnEnds(t, outcome, suspends))
    ensures NoRedirects(Apply(w, TurnEnds(t, outcome, suspends)))
  {
    assert !suspends;
  }

  lemma ResumeKeepsNoRedirects(w: World, t: nat)
    requires NoRedirects(w) && Enabled(w, Resume(t))
    ensures NoRedirects(Apply(w, Resume(t)))
  {
    NoRedirectQueued(w.loop.queue, w.tasks[t].rest[0].item);
  }

  lemma NoRedirectsStep(w: World, e: Event)
    requires NoRedirects(w) && Enabled(w, e) && RedirectFreeEvent(e)
    ensures NoRedirects(Apply(w, e)) && !e.WaitCancelled?
  {
    match e {
      case Submit(m) => SubmitKeepsNoRedirects(w, m);
      case TurnEnds(t, outcome, suspends) => TurnEndKeepsNoRedirects(w, t, outcome, suspends);
      case Resume(t) => ResumeKeepsNoRedirects(w, t);
      case _ => assert false;
    }
  }

  lemma {:induction false} RedirectFreeNeverWaits(w: World, es: seq<Event>)
    requires NoRedirects(w) && Runnable(w, es) && RedirectFree(es)
    ensures !WaitWasCancelled(es)
    decreases |es|
  {
    if es != [] {
      assert RedirectFreeEvent(es[0]);
      NoRedirectsStep(w, es[0]);
      assert forall k :: 0 <= k < |es[1..]| ==> es[1..][k] == es[k + 1];
      RedirectFreeNeverWaits(Apply(w, es[0]), es[1..]);
      assert forall k :: 1 <= k < |es| ==> es[k] == es[1..][k - 1];
    }
  }

  /**
    The router submits nothing as a redirect.  Over every such run, whatever turns are cancelled,
    one task at most holds the turn, and the loop is busy exactly while one does.
  */
  lemma RouterTurnsAreExclusive(es: seq<Event>)
    requires Runnable(START, es) && RedirectFree(es)
    ensures var w := Run(START, es);
      && (forall t, u :: Holds(w, t) && Holds(w, u) ==> t == u)
      && (w.loop.state != Idle <==> SomeoneHolds(w))
  {
    RedirectFreeNeverWaits(START, es);
    TurnsAreExclusive(es);
  }

  /** After such a cancellation the agent is silent for good. */
  lemma {:induction false} WedgedLoopDrivesNothing(w: World, es: seq<Event>)
    requires Exclusive(w) && w.wedged && Runnable(w, es)
    ensures Run(w, es).driven == w.driven && Run(w, es).wedged
    decreases |es|
  {
    if es != [] {
      var e := es[0];
      assert !e.Submit? ==> !Holds(w, e.t) && PcFits(w.loop, w.tasks[e.t]);
      ExclusiveStep(w, e);
      WedgedLoopDrivesNothing(Apply(w, e), es[1..]);
    }
  }

  // ---- conservation --------------------------------------------------------------------

  /** The messages a task carries, in the order it will pass them on. */
  function Carried(pc: Pc): seq<Item> {
    match pc
    case Driving(_, pending) => pending
    case CancelWait(drained, _, pending) => pending + Items(drained)
    case Resubmitting(rest, pending) => pending + Items(rest)
    case Done => []
  }

  function AllCarried(tasks: seq<Pc>): seq<Item> {
    if tasks == [] then [] else Carried(tasks[0]) + AllCarried(tasks[1..])
  }

  /** How often `x` occurs in `s`. */
  function Times(s: seq<Item>, x: Item): nat {
    if s == [] then 0 else (if s[0] == x then 1 else 0) + Times(s[1..], x)
  }

  lemma {:induction false} TimesIsMultiplicity(s: seq<Item>, x: Item)
    ensures Times(s, x) == multiset(s)[x]
  {
    if s != [] {
      TimesIsMultiplicity(s[1..], x);
      assert s == [s[0]] + s[1..];
    }
  }

  lemma {:induction false} TimesConcat(a: seq<Item>, b: seq<Item>, x: Item)
    ensures Times(a + b, x) == Times(a, x) + Times(b, x)
  {
    if a == [] {
      assert a + b == b;
    } else {
      TimesConcat(a[1..], b, x);
      assert (a + b)[1..] == a[1..] + b;
    }
  }

  function Sum(counts: seq<nat>): nat {
    if counts == [] then 0 else counts[0] + Sum(counts[1..])
  }

  /** Changing one count changes the sum by as much. */
  lemma {:induction false} SumAfterChange(counts: seq<nat>, later: seq<nat>, t: nat)
    requires |later| == |counts| && t < |counts|
    requires forall u :: 0 <= u < |counts| && u != t ==> later[u] == counts[u]
    ensures Sum(later) + counts[t] == Sum(counts) + later[t]
    decreases t
  {
    if t == 0 {
      assert later[1..] == counts[1..];
    } else {
      SumAfterChange(counts[1..], later[1..], t - 1);
    }
  }

  /** How often each task carries `x`. */
  function Counts(tasks: seq<Pc>, x: Item): (counts: seq<nat>)
    ensures |counts| == |tasks|
    ensures forall u :: 0 <= u < |tasks| ==> counts[u] == Times(Carried(tasks[u]), x)
  {
    seq(|tasks|, u requires 0 <= u < |tasks| => Times(Carried(tasks[u]), x))
  }

  lemma {:induction false} CarriedIsSum(tasks: seq<Pc>, x: Item)
    ensures Times(AllCarried(tasks), x) == Sum(Counts(tasks, x))
  {
    if tasks != [] {
      TimesConcat(Carried(tasks[0]), AllCarried(tasks[1..]), x);
      CarriedIsSum(tasks[1..], x);
      assert Counts(tasks, x)[1..] == Counts(tasks[1..], x);
    }
  }

  lemma CarriedAfterUpdate(tasks: seq<Pc>, t: nat, pc: Pc, x: Item)
    requires t < |tasks|
    ensures Times(AllCarried(tasks[t := pc]), x) + Times(Carried(tasks[t]), x)
         == Times(AllCarried(tasks), x) + Times(Carried(pc), x)
  {
    CarriedIsSum(tasks, x);
    CarriedIsSum(tasks[t := pc], x);
    SumAfterChange(Counts(tasks, x), Counts(tasks[t := pc], x), t);
  }

  lemma CarriedCons(first: Pc, rest: seq<Pc>)
    ensures AllCarried([first] + rest) == Carried(first) + AllCarried(rest)
  {
    assert ([first] + rest)[1..] == rest;
  }

  lemma {:induction false} CarriedAfterSpawn(tasks: seq<Pc>, pc: Pc)
    ensures AllCarried(tasks + [pc]) == AllCarried(tasks) + Carried(pc)
  {
    if tasks == [] {
      CarriedCons(pc, []);
      assert [] + [pc] == [pc] + [] && Carried(pc) + [] == [] + Carried(pc);
    } else {
      CarriedAfterSpawn(tasks[1..], pc);
      CarriedCons(tasks[0], tasks[1..] + [pc]);
      assert tasks + [pc] == [tasks[0]] + (tasks[1..] + [pc]);
      Regroup(Carried(tasks[0]), AllCarried(tasks[1..]), Carried(pc));
    }
  }

  /** `x` is driven, carried by a task, queued in the loop, or dropped by a cancel. */
  function Places(w: World, x: Item): nat {
    Times(w.driven, x) + Times(AllCarried(w.tasks), x) + Times(Items(w.loop.queue), x) + Times(w.lost, x)
  }

  lemma ItemsConcat(a: seq<Message>, b: seq<Message>, x: Item)
    ensures Items(a + b) == Items(a) + Items(b)
    ensures Times(Items(a + b), x) == Times(Items(a), x) + Times(Items(b), x)
  {
    assert Items(a + b) == Items(a) + Items(b);
    TimesConcat(Items(a), Items(b), x);
  }

  lemma StopPlaces(w: World, t: nat, pc: Pc, x: Item)
    requires t < |w.tasks|
    ensures Places(w.(tasks := w.tasks[t := pc]), x) + Times(Carried(w.tasks[t]), x)
         == Places(w, x) + Times(Carried(pc), x)
  {
    CarriedAfterUpdate(w.tasks, t, pc, x);
  }

  lemma DrivePlaces(w: World, t: nat, next: Item, x: Item)
    requires t < |w.tasks|
    ensures Places(w.(tasks := w.tasks[t := Driving(next, [])], driven := w.driven + [next]), x)
            + Times(Carried(w.tasks[t]), x)
         == Places(w, x) + Times([next], x)
  {
    CarriedAfterUpdate(w.tasks, t, Driving(next, []), x);
    TimesConcat(w.driven, [next], x);
  }

  /** `Continue` hands a message to `drive_turn` or leaves it with its holder. */
  lemma ContinuePlaces(w: World, t: nat, rest: seq<Message>, pending: seq<Item>, x: Item)
    requires t < |w.tasks| && |pending| <= 1
    ensures Places(Continue(w, t, rest, pending), x) + Times(Carried(w.tasks[t]), x)
         == Places(w, x) + Times(pending, x) + Times(Items(rest), x)
  {
    if rest != [] {
      StopPlaces(w, t, Resubmitting(rest, pending), x);
      TimesConcat(pending, Items(rest), x);
    } else if pending == [] {
      StopPlaces(w, t, Done, x);
    } else {
      assert pending == [pending[0]] && pending[1..] == [];
      DrivePlaces(w, t, pending[0], x);
    }
  }

  lemma PassPlaces(w: World, t: nat, drained: seq<Message>, cancelled: bool, x: Item)
    requires t < |w.tasks|
    ensures Places(PassSafePoint(w, t, drained, cancelled, []), x) + Times(Carried(w.tasks[t]), x)
         == Places(w, x) + Times(Items(drained), x)
  {
    var (loop, queued) := LeaveSafePoint(w.loop, drained);
    ItemsConcat(drained, w.loop.queue, x);
    if cancelled {
      CarriedAfterUpdate(w.tasks, t, Done, x);
      assert w.lost + Items(queued) + [] == w.lost + Items(queued);
      TimesConcat(w.lost, Items(queued), x);
    } else {
      ContinuePlaces(w.(loop := loop), t, queued, [], x);
    }
  }

  lemma SubmitPlaces(w: World, m: Message, x: Item)
    ensures Places(Apply(w, Submit(m)), x) == Places(w, x) + (if m.item == x then 1 else 0)
  {
    var spawned := if w.loop.state.Idle? then Driving(m.item, []) else Done;
    CarriedAfterSpawn(w.tasks, spawned);
    TimesConcat(AllCarried(w.tasks), [], x);
    TimesConcat(w.driven, [m.item], x);
    QueuedPlaces(w.loop.queue, m, x);
  }

  lemma SuspendPlaces(w: World, loop: LoopValue, t: nat, pc: Pc, x: Item)
    requires t < |w.tasks| && loop.queue == [] && Carried(w.tasks[t]) == [] && Carried(pc) == Items(w.loop.queue)
    ensures Places(w.(loop := loop, tasks := w.tasks[t := pc]), x) == Places(w, x)
  {
    CarriedAfterUpdate(w.tasks, t, pc, x);
  }

  lemma SuspendedCarries(drained: seq<Message>, cancelled: bool)
    ensures Carried(CancelWait(drained, cancelled, [])) == Items(drained)
  {
    assert [] + Items(drained) == Items(drained);
  }

  lemma TurnEndPlaces(w: World, t: nat, outcome: Outcome, suspends: bool, x: Item)
    requires Exclusive(w) && Enabled(w, TurnEnds(t, outcome, suspends))
    ensures Places(Apply(w, TurnEnds(t, outcome, suspends)), x) == Places(w, x)
  {
    assert PcFits(w.loop, w.tasks[t]);
    var (loop, drained) := EnterSafePoint(w.loop);
    if suspends {
      SuspendedCarries(drained, outcome.Cancelled?);
      SuspendPlaces(w, loop, t, CancelWait(drained, outcome.Cancelled?, []), x);
    } else {
      PassPlaces(w.(loop := loop), t, drained, outcome.Cancelled?, x);
    }
  }

  lemma WaitEndPlaces(w: World, t: nat, x: Item)
    requires Exclusive(w) && Enabled(w, WaitEnds(t))
    ensures Places(Apply(w, WaitEnds(t)), x) == Places(w, x)
  {
    assert PcFits(w.loop, w.tasks[t]);
    assert Carried(w.tasks[t]) == Items(w.tasks[t].drained);
    PassPlaces(w, t, w.tasks[t].drained, w.tasks[t].cancelled, x);
  }

  lemma NothingMore(s: seq<Item>)
    ensures s + [] == s
  {
  }

  lemma DropPlaces(w: World, t: nat, dropped: seq<Item>, x: Item)
    requires t < |w.tasks| && Carried(w.tasks[t]) == dropped
    ensures Places(w.(tasks := w.tasks[t := Done], lost := w.lost + dropped, wedged := true), x) == Places(w, x)
  {
    CarriedAfterUpdate(w.tasks, t, Done, x);
    TimesConcat(w.lost, dropped, x);
  }

  lemma WaitCancelPlaces(w: World, t: nat, x: Item)
    requires Exclusive(w) && Enabled(w, WaitCancelled(t))
    ensures Places(Apply(w, WaitCancelled(t)), x) == Places(w, x)
  {
    assert PcFits(w.loop, w.tasks[t]);
    var drained := w.tasks[t].drained;
    SuspendedCarries(drained, w.tasks[t].cancelled);
    DropPlaces(w, t, Items(drained), x);
    NothingMore(w.lost + Items(drained));
  }

  lemma PlacesStep(w: World, e: Event, x: Item)
    requires Exclusive(w) && Enabled(w, e)
    ensures Places(Apply(w, e), x) == Places(w, x) + (if e.Submit? && e.m.item == x then 1 else 0)
  {
    match e {
      case Submit(m) => SubmitPlaces(w, m, x);
      case TurnEnds(t, outcome, suspends) => TurnEndPlaces(w, t, outcome, suspends, x);
      case WaitEnds(t) => WaitEndPlaces(w, t, x);
      case WaitCancelled(t) => WaitCancelPlaces(w, t, x);
      case Resume(t) => ResumePlaces(w, t, x);
    }
  }

  lemma FirstOfRest(pending: seq<Item>, rest: seq<Message>, x: Item)
    requires rest != []
    ensures Times(pending + Items(rest), x)
         == Times(pending, x) + Times([rest[0].item], x) + Times(Items(rest[1..]), x)
  {
    TimesConcat(pending, Items(rest), x);
    TimesConcat([rest[0].item], Items(rest[1..]), x);
    assert Items(rest) == [rest[0].item] + Items(rest[1..]);
  }

  lemma QueuedPlaces(queue: seq<Message>, m: Message, x: Item)
    ensures Times(Items(queue + [m]), x) == Times(Items(queue), x) + Times([m.item], x)
  {
    ItemsConcat(queue, [m], x);
    assert Items([m]) == [m.item];
  }

  lemma ResumePlaces(w: World, t: nat, x: Item)
    requires Exclusive(w) && Enabled(w, Resume(t))
    ensures Places(Apply(w, Resume(t)), x) == Places(w, x)
  {
    var pc := w.tasks[t];
    assert PcFits(w.loop, pc);
    var m := Message(pc.rest[0].item, false);
    var (loop, action) := Handle(w.loop, m);
    FirstOfRest(pc.pending, pc.rest, x);
    if action.Immediate? {
      assert pc.pending == [] && pc.pending + [m.item] == [m.item];
      ContinuePlaces(w.(loop := loop), t, pc.rest[1..], [m.item], x);
    } else {
      QueuedPlaces(w.loop.queue, m, x);
      ContinuePlaces(w.(loop := loop), t, pc.rest[1..], pc.pending, x);
    }
  }

  predicate Accounted(w: World, x: Item) {
    Times(w.arrivals, x) == Places(w, x)
  }

  lemma AccountedStep(w: World, e: Event, x: Item)
    requires Exclusive(w) && Enabled(w, e) && Accounted(w, x)
    ensures Accounted(Apply(w, e), x)
  {
    PlacesStep(w, e, x);
    ArrivalsStep(w, e);
    if e.Submit? {
      TimesConcat(w.arrivals, [e.m.item], x);
    }
  }

  lemma ArrivalsStep(w: World, e: Event)
    requires Enabled(w, e)
    ensures Apply(w, e).arrivals == if e.Submit? then w.arrivals + [e.m.item] else w.arrivals
  {
  }

  lemma {:induction false} AccountedRun(w: World, es: seq<Event>, x: Item)
    requires Exclusive(w) && Runnable(w, es) && Accounted(w, x)
    ensures Accounted(Run(w, es), x)
    decreases |es|
  {
    if es != [] {
      ExclusiveStep(w, es[0]);
      AccountedStep(w, es[0], x);
      AccountedRun(Apply(w, es[0]), es[1..], x);
    }
  }

  /** No `drive_turn` of the run is cancelled, and no wait for subagents is. */
  predicate Calm(es: seq<Event>) {
    forall k :: 0 <= k < |es| ==> CalmEvent(es[k])
  }

  predicate CalmEvent(e: Event) {
    !e.WaitCancelled? && (e.TurnEnds? ==> !e.outcome.Cancelled?)
  }

  predicate CalmWorld(w: World) {
    && w.lost == [] && !w.wedged
    && forall t :: 0 <= t < |w.tasks| && w.tasks[t].CancelWait? ==> !w.tasks[t].cancelled
  }

  lemma CalmPass(w: World, t: nat, drained: seq<Message>, pending: seq<Item>)
    requires CalmWorld(w) && t < |w.tasks|
    ensures CalmWorld(PassSafePoint(w, t, drained, false, pending))
  {
  }

  lemma CalmStep(w: World, e: Event)
    requires CalmWorld(w) && Enabled(w, e) && CalmEvent(e)
    ensures CalmWorld(Apply(w, e))
  {
    match e {
      case Submit(_) =>
      case TurnEnds(t, _, suspends) =>
        var (loop, drained) := EnterSafePoint(w.loop);
        if !suspends {
          CalmPass(w.(loop := loop), t, drained, w.tasks[t].pending);
        }
      case WaitEnds(t) => CalmPass(w, t, w.tasks[t].drained, w.tasks[t].pending);
      case Resume(_) =>
    }
  }

  lemma {:induction false} CalmRun(w: World, es: seq<Event>)
    requires CalmWorld(w) && Runnable(w, es) && Calm(es)
    ensures CalmWorld(Run(w, es))
    decreases |es|
  {
    if es != [] {
      assert CalmEvent(es[0]);
      CalmStep(w, es[0]);
      assert forall k :: 0 <= k < |es[1..]| ==> es[1..][k] == es[k + 1];
      CalmRun(Apply(w, es[0]), es[1..]);
    }
  }

  /** What an event drops: the messages a cancelled holder has drained, or drains on its way out. */
  function Dropped(w: World, e: Event): seq<Item>
    requires Enabled(w, e)
  {
    match e
    case TurnEnds(_, outcome, suspends) => if outcome.Cancelled? && !suspends then Items(w.loop.queue) else []
    case WaitEnds(t) =>
      if w.tasks[t].cancelled then Items(w.tasks[t].drained) + Items(w.loop.queue) else []
    case WaitCancelled(t) => Items(w.tasks[t].drained)
    case _ => []
  }

  lemma LostGrowsByDropped(w: World, e: Event)
    requires Exclusive(w) && Enabled(w, e)
    ensures Apply(w, e).lost == w.lost + Dropped(w, e)
  {
    match e {
      case Submit(_) =>
      case TurnEnds(t, _, _) =>
        assert PcFits(w.loop, w.tasks[t]);
        assert w.loop.queue + [] == w.loop.queue;
      case WaitEnds(t) =>
        assert PcFits(w.loop, w.tasks[t]);
        assert Items(w.tasks[t].drained + w.loop.queue) == Items(w.tasks[t].drained) + Items(w.loop.queue);
      case WaitCancelled(t) =>
        assert PcFits(w.loop, w.tasks[t]);
      case Resume(_) =>
    }
  }

  predicate NeverDrops(w: World, es: seq<Event>)
    requires Runnable(w, es)
    decreases |es|
  {
    es == [] || (Dropped(w, es[0]) == [] && NeverDrops(Apply(w, es[0]), es[1..]))
  }

  /** A run loses a message exactly when some holder is cancelled that has drained one, or drains one on its way out. */
  lemma {:induction false} LosesOnlyToCancelledHolder(w: World, es: seq<Event>)
    requires Exclusive(w) && Runnable(w, es)
    ensures w.lost <= Run(w, es).lost
    ensures Run(w, es).lost == w.lost <==> NeverDrops(w, es)
    decreases |es|
  {
    if es != [] {
      ExclusiveStep(w, es[0]);
      LostGrowsByDropped(w, es[0]);
      LosesOnlyToCancelledHolder(Apply(w, es[0]), es[1..]);
    }
  }

  /**
    Over every run of the fine machine, cancellations included, the messages submitted are
    exactly the ones driven, carried, queued and dropped; without cancellations none drops.
  */
  lemma NothingIsLost(es: seq<Event>)
    requires Runnable(START, es)
    ensures var w := Run(START, es);
      && multiset(w.arrivals)
         == multiset(w.driven) + multiset(AllCarried(w.tasks)) + multiset(Items(w.loop.queue)) + multiset(w.lost)
      && (Calm(es) ==> w.lost == [])
  {
    var w := Run(START, es);
    forall x: Item
      ensures multiset(w.arrivals)[x]
           == multiset(w.driven)[x] + multiset(AllCarried(w.tasks))[x]
              + multiset(Items(w.loop.queue))[x] + multiset(w.lost)[x]
    {
      AccountedRun(START, es, x);
      TimesIsMultiplicity(w.arrivals, x);
      TimesIsMultiplicity(w.driven, x);
      TimesIsMultiplicity(AllCarried(w.tasks), x);
      TimesIsMultiplicity(Items(w.loop.queue), x);
      TimesIsMultiplicity(w.lost, x);
    }
    if Calm(es) {
      CalmRun(START, es);
    }
  }

  /** What is driven, carried or queued is all that arrived exactly when no cancelled holder has drained a message. */
  lemma EveryMessageIsKeptIff(es: seq<Event>)
    requires Runnable(START, es)
    ensures var w := Run(START, es);
      multiset(w.arrivals) == multiset(w.driven) + multiset(AllCarried(w.tasks)) + multiset(Items(w.loop.queue))
      <==> NeverDrops(START, es)
  {
    var w := Run(START, es);
    NothingIsLost(es);
    LosesOnlyToCancelledHolder(START, es);
    assert |multiset(w.lost)| == |w.lost|;
  }

  // ---- the delivered list ----------------------------------------------------------------

  /** What a step surfaces: all that was drained and queued, when it leaves a safe point. */
  function SurfacedBy(w: World, e: Event): seq<Message>
    requires Enabled(w, e)
  {
    match e
    case TurnEnds(_, _, suspends) => if suspends then [] else w.loop.queue
    case WaitEnds(t) => w.tasks[t].drained + w.loop.queue
    case _ => []
  }

  function Surfaced(w: World, es: seq<Event>): seq<Message>
    requires Runnable(w, es)
    decreases |es|
  {
    if es == [] then [] else SurfacedBy(w, es[0]) + Surfaced(Apply(w, es[0]), es[1..])
  }

  lemma EndOfEnd(all: seq<Message>, more: seq<Message>, n: nat, d: seq<Message>, k: nat, later: seq<Message>)
    requires n <= |all| && d == all[n..] && k <= |d + more| && later == (d + more)[k..]
    ensures n + k <= |all + more| && later == (all + more)[n + k..]
  {
    assert d + more == (all + more)[n..];
  }

  /** The last thousand of what follows the last thousand are the last thousand. */
  lemma LastThousandGrows(all: seq<Message>, d: seq<Message>, more: seq<Message>, later: seq<Message>)
    requires IsLastThousand(d, all) && IsLastThousand(later, d + more)
    ensures IsLastThousand(later, all + more)
  {
    var n: nat :| n <= |all| && d == all[n..] && |d| <= 1000 && (n > 0 ==> |d| == 1000);
    var k: nat :| k <= |d + more| && later == (d + more)[k..] && |later| <= 1000 && (k > 0 ==> |later| == 1000);
    EndOfEnd(all, more, n, d, k, later);
  }

  lemma SameIsLastThousand(d: seq<Message>)
    requires |d| <= 1000
    ensures IsLastThousand(d, d) && IsLastThousand(d, d + [])
  {
    assert d == d[0..] && d + [] == d;
  }

  lemma LeaveKeepsLastThousand(v: LoopValue, drained: seq<Message>)
    ensures IsLastThousand(LeaveSafePoint(v, drained).0.delivered, v.delivered + (drained + v.queue))
  {
    var all := v.delivered + (drained + v.queue);
    var d := LeaveSafePoint(v, drained).0.delivered;
    assert d == all[|all| - |d|..];
  }

  lemma PassDelivers(w: World, t: nat, drained: seq<Message>, cancelled: bool, pending: seq<Item>)
    requires t < |w.tasks|
    ensures PassSafePoint(w, t, drained, cancelled, pending).loop == LeaveSafePoint(w.loop, drained).0
  {
  }

  lemma TurnEndDelivers(w: World, t: nat, outcome: Outcome)
    requires Enabled(w, TurnEnds(t, outcome, false))
    ensures IsLastThousand(Apply(w, TurnEnds(t, outcome, false)).loop.delivered, w.loop.delivered + w.loop.queue)
  {
    var (loop, drained) := EnterSafePoint(w.loop);
    PassDelivers(w.(loop := loop), t, drained, outcome.Cancelled?, w.tasks[t].pending);
    LeaveKeepsLastThousand(loop, drained);
    assert drained + loop.queue == w.loop.queue;
  }

  lemma WaitEndDelivers(w: World, t: nat)
    requires Enabled(w, WaitEnds(t))
    ensures IsLastThousand(Apply(w, WaitEnds(t)).loop.delivered, w.loop.delivered + (w.tasks[t].drained + w.loop.queue))
  {
    PassDelivers(w, t, w.tasks[t].drained, w.tasks[t].cancelled, w.tasks[t].pending);
    LeaveKeepsLastThousand(w.loop, w.tasks[t].drained);
  }

  lemma DeliveredUnchanged(w: World, e: Event)
    requires Enabled(w, e) && !e.WaitEnds? && (e.TurnEnds? ==> e.suspends)
    ensures Apply(w, e).loop.delivered == w.loop.delivered && SurfacedBy(w, e) == []
  {
  }

  lemma DeliveredStep(w: World, e: Event)
    requires Enabled(w, e) && |w.loop.delivered| <= 1000
    ensures IsLastThousand(Apply(w, e).loop.delivered, w.loop.delivered + SurfacedBy(w, e))
  {
    if e.WaitEnds? {
      WaitEndDelivers(w, e.t);
    } else if e.TurnEnds? && !e.suspends {
      TurnEndDelivers(w, e.t, e.outcome);
    } else {
      DeliveredUnchanged(w, e);
      SameIsLastThousand(w.loop.delivered);
    }
  }

  /** Over every run the delivered list is the last thousand messages surfaced, in order. */
  lemma {:induction false} DeliveredIsLastThousand(w: World, es: seq<Event>, before: seq<Message>)
    requires Runnable(w, es) && IsLastThousand(w.loop.delivered, before)
    ensures IsLastThousand(Run(w, es).loop.delivered, before + Surfaced(w, es))
    decreases |es|
  {
    if es == [] {
      assert before + [] == before;
    } else {
      var v := Apply(w, es[0]);
      var more := SurfacedBy(w, es[0]);
      DeliveredStep(w, es[0]);
      LastThousandGrows(before, w.loop.delivered, more, v.loop.delivered);
      DeliveredIsLastThousand(v, es[1..], before + more);
      Regroup(before, more, Surfaced(v, es[1..]));
    }
  }

  lemma DeliveredFromStart(es: seq<Event>)
    requires Runnable(START, es)
    ensures IsLastThousand(Run(START, es).loop.delivered, Surfaced(START, es))
  {
    assert [] == START.loop.delivered[0..];
    assert IsLastThousand(START.loop.delivered, []);
    DeliveredIsLastThousand(START, es, []);
    assert [] + Surfaced(START, es) == Surfaced(START, es);
  }
}
