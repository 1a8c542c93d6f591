/**
  The coarse machine: a task that leaves its safe point resubmits all it drained before any
  other task runs, as in the source, where nothing between the two suspends.
*/
module TurnOrder {
  import opened Wrappers
  import opened AgentLoops
  import opened TurnProtocol
  import opened TurnDelivery

  predicate EnabledCoarse(w: World, e: Event) {
    !e.Resume? && Enabled(w, e)
  }

  /** Run task `t` until it suspends again. */
  function Settle(w: World, t: nat): (v: World)
    requires t < |w.tasks|
    ensures |v.tasks| == |w.tasks|
    decreases if w.tasks[t].Resubmitting? then |w.tasks[t].rest| else 0
  {
    if w.tasks[t].Resubmitting? && w.tasks[t].rest != [] then Settle(Apply(w, Resume(t)), t) else w
  }

  function ApplyCoarse(w: World, e: Event): World
    requires EnabledCoarse(w, e)
  {
    if e.TurnEnds? || e.WaitEnds? then Settle(Apply(w, e), e.t) else Apply(w, e)
  }

  predicate RunnableCoarse(w: World, es: seq<Event>)
    decreases |es|
  {
    es == [] || (EnabledCoarse(w, es[0]) && RunnableCoarse(ApplyCoarse(w, es[0]), es[1..]))
  }

  function RunCoarse(w: World, es: seq<Event>): World
    requires RunnableCoarse(w, es)
    decreases |es|
  {
    if es == [] then w else RunCoarse(ApplyCoarse(w, es[0]), es[1..])
  }

  // ---- the coarse machine refines the fine one ----------------------------------------

  lemma ConsConcat(a: seq<Event>, b: seq<Event>)
    requires a != []
    ensures a + b == [a[0]] + (a[1..] + b)
  {
  }

  lemma RunFirst(w: World, es: seq<Event>)
    requires es != [] && Runnable(w, es)
    ensures Enabled(w, es[0]) && Runnable(Apply(w, es[0]), es[1..])
    ensures Run(w, es) == Run(Apply(w, es[0]), es[1..])
  {
  }

  lemma {:induction false} RunConcat(w: World, a: seq<Event>, b: seq<Event>)
    requires Runnable(w, a) && Runnable(Run(w, a), b)
    ensures Runnable(w, a + b) && Run(w, a + b) == Run(Run(w, a), b)
    decreases |a|
  {
    if a == [] {
      assert a + b == b;
    } else {
      RunFirst(w, a);
      RunConcat(Apply(w, a[0]), a[1..], b);
      RunCons(w, a[0], a[1..] + b);
      ConsConcat(a, b);
    }
  }

  lemma {:induction false} SettleIsRun(w: World, t: nat) returns (es: seq<Event>)
    requires t < |w.tasks|
    ensures Runnable(w, es) && Run(w, es) == Settle(w, t)
    ensures Calm(es)
    decreases if w.tasks[t].Resubmitting? then |w.tasks[t].rest| else 0
  {
    es := [];
    if w.tasks[t].Resubmitting? && w.tasks[t].rest != [] {
      var more := SettleIsRun(Apply(w, Resume(t)), t);
      es := [Resume(t)] + more;
      assert es[1..] == more;
    }
  }

  /** Every coarse run is a fine run, with the same cancellations. */
  lemma {:induction false} CoarseRefinesFine(w: World, es: seq<Event>) returns (fine: seq<Event>)
    requires RunnableCoarse(w, es)
    ensures Runnable(w, fine) && Run(w, fine) == RunCoarse(w, es)
    ensures Calm(es) ==> Calm(fine)
    decreases |es|
  {
    fine := [];
    if es != [] {
      var e := es[0];
      var settle: seq<Event> := [];
      if e.TurnEnds? || e.WaitEnds? {
        settle := SettleIsRun(Apply(w, e), e.t);
      }
      var first := [e] + settle;
      assert first[1..] == settle;
      var more := CoarseRefinesFine(ApplyCoarse(w, e), es[1..]);
      RunConcat(w, first, more);
      fine := first + more;
      assert Calm(es) ==> CalmEvent(e) && Calm(es[1..]);
    }
  }

  // ---- arrival order -------------------------------------------------------------------

  function Plain(ms: seq<Message>): (r: seq<Message>)
    ensures |r| == |ms|
    ensures Items(r) == Items(ms)
  {
    seq(|ms|, k requires 0 <= k < |ms| => Message(ms[k].item, false))
  }

  /** With its next message in hand, the holder finds the loop busy, and what it resubmits queues. */
  lemma ResumeQueues(w: World, t: nat)
    requires t < |w.tasks| && w.tasks[t].Resubmitting? && |w.tasks[t].pending| == 1
    requires w.tasks[t].rest != [] && w.loop.state.Working?
    ensures var pc := w.tasks[t];
      Apply(w, Resume(t))
      == Continue(w.(loop := w.loop.(queue := w.loop.queue + [Message(pc.rest[0].item, false)])), t, pc.rest[1..], pc.pending)
  {
  }

  lemma PlainFirst(rest: seq<Message>)
    requires rest != []
    ensures Plain(rest) == [Message(rest[0].item, false)] + Plain(rest[1..])
  {
  }

  /** Once the holder has its next message, the rest goes back into the queue in order. */
  lemma {:induction false} SettleRequeues(w: World, t: nat)
    requires t < |w.tasks| && w.tasks[t].Resubmitting? && |w.tasks[t].pending| == 1
    requires w.tasks[t].rest != [] && w.loop.state.Working?
    ensures var pc := w.tasks[t];
      Settle(w, t) == QueuedBehind(w, t, pc.rest, pc.pending[0])
    decreases |w.tasks[t].rest|
  {
    var pc := w.tasks[t];
    var v := Apply(w, Resume(t));
    ResumeQueues(w, t);
    PlainFirst(pc.rest);
    if |pc.rest| == 1 {
      assert Plain(pc.rest[1..]) == [];
      assert pc.pending[1..] == [];
    } else {
      SettleRequeues(v, t);
      RequeueOneMore(w, t, pc.rest, pc.pending);
    }
  }

  /** The queue takes `rest` in order while the holder goes on with `next`. */
  function QueuedBehind(w: World, t: nat, rest: seq<Message>, next: Item): World
    requires t < |w.tasks|
  {
    w.(loop := w.loop.(queue := w.loop.queue + Plain(rest)),
       tasks := w.tasks[t := Driving(next, [])],
       driven := w.driven + [next])
  }

  lemma RequeueOneMore(w: World, t: nat, rest: seq<Message>, pending: seq<Item>)
    requires t < |w.tasks| && |rest| > 1 && |pending| == 1
    ensures var m := Message(rest[0].item, false);
      var v := Continue(w.(loop := w.loop.(queue := w.loop.queue + [m])), t, rest[1..], pending);
      QueuedBehind(v, t, rest[1..], pending[0]) == QueuedBehind(w, t, rest, pending[0])
  {
    var m := Message(rest[0].item, false);
    PlainFirst(rest);
    assert w.loop.queue + [m] + Plain(rest[1..]) == w.loop.queue + Plain(rest);
    assert w.tasks[t := Resubmitting(rest[1..], pending)][t := Driving(pending[0], [])]
        == w.tasks[t := Driving(pending[0], [])];
  }

  /** Leaving a safe point idle: the first message starts the next turn, the others queue. */
  lemma SettleStartsNextTurn(w: World, t: nat)
    requires t < |w.tasks| && w.tasks[t].Resubmitting? && w.tasks[t].pending == []
    requires w.tasks[t].rest != [] && w.loop.state.Idle? && w.loop.queue == []
    ensures var next := w.tasks[t].rest[0].item;
      Settle(w, t) == w.(loop := w.loop.(state := Working, turn := Some(next.id), queue := Plain(w.tasks[t].rest[1..])),
                         tasks := w.tasks[t := Driving(next, [])],
                         driven := w.driven + [next])
  {
    var pc := w.tasks[t];
    var v := Apply(w, Resume(t));
    var next := pc.rest[0].item;
    if |pc.rest| == 1 {
      assert pc.pending + [next] == [next] && [next][1..] == [];
      assert w.loop.queue == Plain(pc.rest[1..]);
    } else {
      SettleRequeues(v, t);
      assert [] + Plain(pc.rest[1..]) == Plain(pc.rest[1..]);
      assert v.tasks[t := Driving(next, [])] == w.tasks[t := Driving(next, [])];
    }
  }

  predicate NoneResubmits(w: World) {
    forall t :: 0 <= t < |w.tasks| ==> !w.tasks[t].Resubmitting?
  }

  /** A state between two coarse steps. */
  ghost predicate Settled(w: World) {
    Exclusive(w) && NoneResubmits(w)
  }

  /** What has been driven, and what will be if no task is cancelled, in that order. */
  function Trail(w: World): seq<Item> {
    w.driven + AllCarried(w.tasks) + Items(w.loop.queue)
  }

  /** In the coarse machine messages are driven in the order in which they arrived. */
  ghost predicate InOrder(w: World) {
    Settled(w) && CalmWorld(w) && w.arrivals == Trail(w)
  }

  lemma {:induction false} CarriedByOne(tasks: seq<Pc>, t: nat)
    requires t < |tasks|
    requires forall u :: 0 <= u < |tasks| && u != t ==> Carried(tasks[u]) == []
    ensures AllCarried(tasks) == Carried(tasks[t])
    decreases tasks
  {
    if t == 0 {
      CarriedByNone(tasks[1..]);
    } else {
      CarriedByOne(tasks[1..], t - 1);
    }
  }

  lemma {:induction false} CarriedByNone(tasks: seq<Pc>)
    requires forall u :: 0 <= u < |tasks| ==> Carried(tasks[u]) == []
    ensures AllCarried(tasks) == []
  {
    if tasks != [] {
      CarriedByNone(tasks[1..]);
    }
  }

  /** While `t` holds the turn, only `t` carries anything. */
  lemma OnlyHolderCarries(w: World, t: nat)
    requires Settled(w) && Holds(w, t)
    ensures forall u :: 0 <= u < |w.tasks| && u != t ==> w.tasks[u] == Done
    ensures AllCarried(w.tasks) == Carried(w.tasks[t])
  {
    forall u | 0 <= u < |w.tasks| && u != t
      ensures w.tasks[u] == Done
    {
      assert !Holds(w, u);
    }
    CarriedByOne(w.tasks, t);
  }

  /** Where a holder that is not cancelled stands once it suspends again. */
  function NextPc(queued: seq<Message>): Pc {
    if queued == [] then Done else Driving(queued[0].item, [])
  }

  function NextDriven(queued: seq<Message>): seq<Item> {
    if queued == [] then [] else [queued[0].item]
  }

  function Requeued(queued: seq<Message>): seq<Message> {
    if queued == [] then [] else Plain(queued[1..])
  }

  lemma PassSettles(w: World, t: nat, drained: seq<Message>)
    requires t < |w.tasks| && w.loop.state.SafePoint?
    ensures NextTurn(w, Settle(PassSafePoint(w, t, drained, false, []), t), t, drained + w.loop.queue)
  {
    var queued := drained + w.loop.queue;
    var p := PassSafePoint(w, t, drained, false, []);
    if queued != [] {
      assert p.tasks[t] == Resubmitting(queued, []);
      SettleStartsNextTurn(p, t);
      assert p.tasks[t := NextPc(queued)] == w.tasks[t := NextPc(queued)];
    }
  }

  lemma RequeueKeepsOrder(queued: seq<Message>)
    ensures Items(queued) == NextDriven(queued) + Items(Requeued(queued))
  {
    if queued != [] {
      assert Items(queued) == [queued[0].item] + Items(queued[1..]);
    }
  }

  /** `v` is where the holder `t` of `w` suspends next, having left its safe point with `queued`. */
  predicate NextTurn(w: World, v: World, t: nat, queued: seq<Message>) {
    && t < |w.tasks|
    && v.arrivals == w.arrivals && v.lost == w.lost && v.wedged == w.wedged
    && v.tasks == w.tasks[t := NextPc(queued)]
    && v.driven == w.driven + NextDriven(queued)
    && v.loop.queue == Requeued(queued)
  }

  lemma NextTurnKeepsTrail(w: World, v: World, t: nat, queued: seq<Message>)
    requires NextTurn(w, v, t, queued)
    requires forall u :: 0 <= u < |w.tasks| && u != t ==> w.tasks[u] == Done
    requires Trail(w) == w.driven + Items(queued)
    ensures Trail(v) == Trail(w)
  {
    RequeueKeepsOrder(queued);
    NoneLeftCarrying(w, v, t, queued);
    Regroup(w.driven, NextDriven(queued), Items(Requeued(queued)));
    assert v.driven + [] == v.driven;
  }

  lemma NoneLeftCarrying(w: World, v: World, t: nat, queued: seq<Message>)
    requires NextTurn(w, v, t, queued)
    requires forall u :: 0 <= u < |w.tasks| && u != t ==> w.tasks[u] == Done
    ensures AllCarried(v.tasks) == []
  {
    forall u | 0 <= u < |v.tasks|
      ensures Carried(v.tasks[u]) == []
    {
      assert u != t ==> v.tasks[u] == Done;
    }
    CarriedByNone(v.tasks);
  }

  lemma SettledIsExclusive(w: World, e: Event)
    requires Exclusive(w) && EnabledCoarse(w, e)
    ensures Exclusive(ApplyCoarse(w, e))
  {
    ExclusiveStep(w, e);
    if e.TurnEnds? || e.WaitEnds? {
      var settle := SettleIsRun(Apply(w, e), e.t);
      ExclusiveRun(Apply(w, e), settle);
    }
  }

  /** The event ends a task by cancellation. */
  predicate CutsOff(w: World, e: Event)
    requires EnabledCoarse(w, e)
  {
    match e
    case TurnEnds(_, outcome, suspends) => outcome.Cancelled? && !suspends
    case WaitEnds(t) => w.tasks[t].cancelled
    case WaitCancelled(_) => true
    case _ => false
  }

  /** The event lets a holder leave its safe point. */
  predicate Passes(w: World, e: Event)
    requires EnabledCoarse(w, e)
  {
    (e.WaitEnds? || (e.TurnEnds? && !e.suspends)) && !CutsOff(w, e)
  }

  lemma TurnEndsNext(w: World, e: Event)
    requires Settled(w) && EnabledCoarse(w, e) && Passes(w, e) && e.TurnEnds?
    ensures NextTurn(w, ApplyCoarse(w, e), e.t, w.loop.queue)
  {
    assert PcFits(w.loop, w.tasks[e.t]);
    var (loop, drained) := EnterSafePoint(w.loop);
    PassSettles(w.(loop := loop), e.t, drained);
    assert drained + loop.queue == drained;
  }

  lemma WaitEndsNext(w: World, e: Event)
    requires Settled(w) && EnabledCoarse(w, e) && Passes(w, e) && e.WaitEnds?
    ensures NextTurn(w, ApplyCoarse(w, e), e.t, w.tasks[e.t].drained + w.loop.queue)
  {
    assert PcFits(w.loop, w.tasks[e.t]);
    PassSettles(w, e.t, w.tasks[e.t].drained);
  }

  /** What the holder will drive next, if its turn ended now. */
  function Surfaced(w: World, e: Event): seq<Message>
    requires EnabledCoarse(w, e)
  {
    if e.WaitEnds? then w.tasks[e.t].drained + w.loop.queue else w.loop.queue
  }

  lemma StepToNextTurn(w: World, e: Event)
    requires Settled(w) && EnabledCoarse(w, e) && Passes(w, e)
    ensures NextTurn(w, ApplyCoarse(w, e), e.t, Surfaced(w, e))
    ensures Trail(w) == w.driven + Items(Surfaced(w, e))
    ensures forall u :: 0 <= u < |w.tasks| && u != e.t ==> w.tasks[u] == Done
  {
    assert Holds(w, e.t) && PcFits(w.loop, w.tasks[e.t]);
    OnlyHolderCarries(w, e.t);
    if e.WaitEnds? {
      WaitEndsNext(w, e);
      SurfacedInOrder(w, w.tasks[e.t].drained);
    } else {
      TurnEndsNext(w, e);
      assert w.driven + [] == w.driven;
    }
  }

  lemma SurfacedInOrder(w: World, drained: seq<Message>)
    requires AllCarried(w.tasks) == [] + Items(drained)
    ensures Trail(w) == w.driven + Items(drained + w.loop.queue)
  {
    assert [] + Items(drained) == Items(drained);
    assert Items(drained + w.loop.queue) == Items(drained) + Items(w.loop.queue);
    Regroup(w.driven, Items(drained), Items(w.loop.queue));
  }

  lemma IdleCarriesNothing(w: World)
    requires Settled(w) && w.loop.state.Idle?
    ensures AllCarried(w.tasks) == []
  {
    forall u | 0 <= u < |w.tasks|
      ensures Carried(w.tasks[u]) == []
    {
      assert PcFits(w.loop, w.tasks[u]);
    }
    CarriedByNone(w.tasks);
  }

  lemma IdleTrail(w: World)
    requires Settled(w) && w.loop.state.Idle?
    ensures Trail(w) == w.driven
  {
    IdleCarriesNothing(w);
    assert w.driven + [] + Items([]) == w.driven;
  }

  lemma SubmitIdleTrail(w: World, m: Message)
    requires Settled(w) && w.loop.state.Idle?
    ensures Trail(Apply(w, Submit(m))) == w.driven + [m.item]
  {
    IdleCarriesNothing(w);
    CarriedAfterSpawn(w.tasks, Driving(m.item, []));
    var driven := w.driven + [m.item];
    assert driven + ([] + []) + Items([]) == driven;
  }

  lemma SubmitBusyTrail(w: World, m: Message)
    requires !w.loop.state.Idle?
    ensures Trail(Apply(w, Submit(m))) == Trail(w) + [m.item]
  {
    CarriedAfterSpawn(w.tasks, Done);
    assert Items(w.loop.queue + [m]) == Items(w.loop.queue) + [m.item];
    QueuedLast(w.driven, AllCarried(w.tasks), Items(w.loop.queue), m.item);
  }

  lemma QueuedLast(driven: seq<Item>, carried: seq<Item>, queue: seq<Item>, x: Item)
    ensures driven + carried + queue + [x] == driven + (carried + []) + (queue + [x])
  {
  }

  lemma SubmitExtendsTrail(w: World, m: Message)
    requires Settled(w)
    ensures Trail(Apply(w, Submit(m))) == Trail(w) + [m.item]
  {
    if w.loop.state.Idle? {
      IdleTrail(w);
      SubmitIdleTrail(w, m);
    } else {
      SubmitBusyTrail(w, m);
    }
  }

  lemma SuspendKeepsTrail(w: World, e: Event)
    requires Settled(w) && Enabled(w, e) && e.TurnEnds? && e.suspends
    ensures Trail(Apply(w, e)) == Trail(w)
  {
    var v := Apply(w, e);
    assert Holds(w, e.t) && PcFits(w.loop, w.tasks[e.t]);
    OnlyHolderCarries(w, e.t);
    assert v.tasks[e.t] == CancelWait(w.loop.queue, e.outcome.Cancelled?, []);
    CarriedByOne(v.tasks, e.t);
    SuspendedOrder(w.driven, Items(w.loop.queue));
  }

  lemma SuspendedOrder(driven: seq<Item>, queue: seq<Item>)
    ensures driven + [] + queue == driven + ([] + queue) + Items([])
  {
  }

  /** What a cancelled holder leaves behind: what was queued, if it was still waiting. */
  function LeftQueued(w: World, e: Event): seq<Message> {
    if e.WaitCancelled? then w.loop.queue else []
  }

  lemma CutOffIsDone(w: World, e: Event)
    requires Settled(w) && EnabledCoarse(w, e) && CutsOff(w, e)
    ensures var v := ApplyCoarse(w, e);
      && v.tasks == w.tasks[e.t := Done] && v.arrivals == w.arrivals && v.driven == w.driven
      && v.loop.queue == LeftQueued(w, e)
  {
    assert PcFits(w.loop, w.tasks[e.t]);
  }

  lemma DoneTrail(w: World, v: World, t: nat)
    requires t < |w.tasks| && v.tasks == w.tasks[t := Done]
    requires forall u :: 0 <= u < |w.tasks| && u != t ==> w.tasks[u] == Done
    ensures Trail(v) == v.driven + Items(v.loop.queue)
  {
    CarriedByNone(v.tasks);
    assert v.driven + [] == v.driven;
  }

  lemma CutOffTrail(w: World, e: Event)
    requires Settled(w) && EnabledCoarse(w, e) && CutsOff(w, e)
    ensures ApplyCoarse(w, e).arrivals == w.arrivals
    ensures Trail(ApplyCoarse(w, e)) == w.driven + Items(LeftQueued(w, e))
  {
    assert Holds(w, e.t);
    OnlyHolderCarries(w, e.t);
    CutOffIsDone(w, e);
    DoneTrail(w, ApplyCoarse(w, e), e.t);
  }

  lemma NoneResubmitsStep(w: World, e: Event)
    requires Settled(w) && EnabledCoarse(w, e)
    ensures NoneResubmits(ApplyCoarse(w, e))
  {
    if CutsOff(w, e) {
      CutOffIsDone(w, e);
    } else if Passes(w, e) {
      StepToNextTurn(w, e);
    }
  }

  lemma SettledStep(w: World, e: Event)
    requires Settled(w) && EnabledCoarse(w, e)
    ensures Settled(ApplyCoarse(w, e))
  {
    SettledIsExclusive(w, e);
    NoneResubmitsStep(w, e);
  }

  /** Only arrivals and cancellations change the trail. */
  lemma TrailStep(w: World, e: Event)
    requires Settled(w) && EnabledCoarse(w, e) && !CutsOff(w, e)
    ensures var v := ApplyCoarse(w, e);
      if e.Submit? then Trail(v) == Trail(w) + [e.m.item] && v.arrivals == w.arrivals + [e.m.item]
      else Trail(v) == Trail(w) && v.arrivals == w.arrivals
  {
    if e.Submit? {
      SubmitExtendsTrail(w, e.m);
    } else if e.TurnEnds? && e.suspends {
      SuspendKeepsTrail(w, e);
    } else {
      StepToNextTurn(w, e);
      NextTurnKeepsTrail(w, ApplyCoarse(w, e), e.t, Surfaced(w, e));
    }
  }

  lemma CalmWorldStep(w: World, e: Event)
    requires Settled(w) && CalmWorld(w) && EnabledCoarse(w, e) && CalmEvent(e)
    ensures !CutsOff(w, e) && CalmWorld(ApplyCoarse(w, e))
  {
    if Passes(w, e) {
      StepToNextTurn(w, e);
    }
  }

  lemma InOrderStep(w: World, e: Event)
    requires InOrder(w) && EnabledCoarse(w, e) && CalmEvent(e)
    ensures InOrder(ApplyCoarse(w, e))
  {
    CalmWorldStep(w, e);
    SettledStep(w, e);
    TrailStep(w, e);
  }

  lemma {:induction false} InOrderRun(w: World, es: seq<Event>)
    requires InOrder(w) && RunnableCoarse(w, es) && Calm(es)
    ensures InOrder(RunCoarse(w, es))
    decreases |es|
  {
    if es != [] {
      assert CalmEvent(es[0]);
      assert forall k :: 0 <= k < |es[1..]| ==> es[1..][k] == es[k + 1];
      InOrderStep(w, es[0]);
      InOrderRun(ApplyCoarse(w, es[0]), es[1..]);
    }
  }

  /** From any state in order, what has been driven without cancellation is a prefix of what has arrived. */
  lemma DrivenInArrivalOrder(w: World, es: seq<Event>)
    requires InOrder(w) && RunnableCoarse(w, es) && Calm(es)
    ensures RunCoarse(w, es).driven <= RunCoarse(w, es).arrivals
    ensures RunCoarse(w, es).arrivals == Trail(RunCoarse(w, es))
  {
    InOrderRun(w, es);
  }

  // ---- order under cancellation ----------------------------------------------------------

  /** `at` picks `a` out of `b`, from left to right. */
  ghost predicate Picks<T>(at: seq<nat>, a: seq<T>, b: seq<T>) {
    && |at| == |a|
    && (forall i, j :: 0 <= i < j < |at| ==> at[i] < at[j])
    && (forall i :: 0 <= i < |at| ==> at[i] < |b| && a[i] == b[at[i]])
  }

  ghost predicate Subsequence<T>(a: seq<T>, b: seq<T>) {
    exists at: seq<nat> :: Picks(at, a, b)
  }

  lemma SubsequenceGrows<T>(a: seq<T>, b: seq<T>, x: T)
    requires Subsequence(a, b)
    ensures Subsequence(a + [x], b + [x])
  {
    var at: seq<nat> :| Picks(at, a, b);
    assert Picks(at + [|b|], a + [x], b + [x]);
  }

  lemma SubsequenceCut<T>(a: seq<T>, cut: seq<T>, c: seq<T>, b: seq<T>)
    requires Subsequence(a + cut + c, b)
    ensures Subsequence(a + c, b)
  {
    var all := a + cut + c;
    var at: seq<nat> :| Picks(at, all, b);
    var kept := at[..|a|] + at[|a| + |cut|..];
    assert Picks(kept, a + c, b) by {
      assert forall i :: 0 <= i < |a| ==> kept[i] == at[i] && all[i] == (a + c)[i];
      assert forall i :: |a| <= i < |kept| ==> kept[i] == at[i + |cut|] && all[i + |cut|] == (a + c)[i];
    }
  }

  /** What is driven, carried and queued arrived in this order, with some of it lost in between. */
  ghost predicate InSequence(w: World) {
    Settled(w) && Subsequence(Trail(w), w.arrivals)
  }

  lemma SubsequencePrefix<T>(a: seq<T>, c: seq<T>, d: seq<T>, b: seq<T>)
    requires Subsequence(a + c + d, b)
    ensures Subsequence(a, b)
  {
    assert a + (c + d) + [] == a + c + d && a + [] == a;
    SubsequenceCut(a, c + d, [], b);
  }

  lemma CutOffInSequence(w: World, e: Event)
    requires Settled(w) && EnabledCoarse(w, e) && CutsOff(w, e) && Subsequence(Trail(w), w.arrivals)
    ensures Subsequence(w.driven + Items(LeftQueued(w, e)), w.arrivals)
  {
    if e.WaitCancelled? {
      SubsequenceCut(w.driven, AllCarried(w.tasks), Items(w.loop.queue), w.arrivals);
    } else {
      SubsequencePrefix(w.driven, AllCarried(w.tasks), Items(w.loop.queue), w.arrivals);
      assert w.driven + Items([]) == w.driven;
    }
  }

  lemma InSequenceStep(w: World, e: Event)
    requires InSequence(w) && EnabledCoarse(w, e)
    ensures InSequence(ApplyCoarse(w, e))
  {
    SettledStep(w, e);
    if CutsOff(w, e) {
      CutOffTrail(w, e);
      CutOffInSequence(w, e);
    } else {
      TrailStep(w, e);
      if e.Submit? {
        SubsequenceGrows(Trail(w), w.arrivals, e.m.item);
      }
    }
  }

  lemma {:induction false} InSequenceRun(w: World, es: seq<Event>)
    requires InSequence(w) && RunnableCoarse(w, es)
    ensures InSequence(RunCoarse(w, es))
    decreases |es|
  {
    if es != [] {
      InSequenceStep(w, es[0]);
      InSequenceRun(ApplyCoarse(w, es[0]), es[1..]);
    }
  }

  lemma StartIsInOrder()
    ensures InOrder(START) && InSequence(START)
  {
    assert Trail(START) == [];
    assert Picks([], Trail(START), START.arrivals);
  }

  /**
    From START, over every coarse run: whatever is cancelled, no message is driven before one
    that arrived ahead of it; and if nothing is cancelled, the messages driven are a prefix of
    the arrivals, and the rest is carried or queued in order.
  */
  lemma NeverOutOfOrder(es: seq<Event>)
    requires RunnableCoarse(START, es)
    ensures var v := RunCoarse(START, es);
      && Subsequence(v.driven, v.arrivals)
      && (Calm(es) ==> v.driven <= v.arrivals && v.arrivals == Trail(v))
  {
    StartIsInOrder();
    InSequenceRun(START, es);
    var v := RunCoarse(START, es);
    SubsequencePrefix(v.driven, AllCarried(v.tasks), Items(v.loop.queue), v.arrivals);
    if Calm(es) {
      DrivenInArrivalOrder(START, es);
    }
  }

  // ---- progress ------------------------------------------------------------------------

  /** What is left of the turn in progress: it may still wait for subagents, then it ends. */
  ghost function Phase(w: World): nat {
    if exists t :: 0 <= t < |w.tasks| && w.tasks[t].Driving? then 2
    else if exists t :: 0 <= t < |w.tasks| && w.tasks[t].CancelWait? then 1
    else 0
  }

  ghost function Measure(w: World): int {
    2 * (|w.arrivals| - |w.driven|) + Phase(w)
  }

  lemma NextTurnProgress(w: World, v: World, t: nat, queued: seq<Message>)
    requires NextTurn(w, v, t, queued)
    requires forall u :: 0 <= u < |w.tasks| && u != t ==> w.tasks[u] == Done
    requires w.tasks[t].Driving? || w.tasks[t].CancelWait?
    ensures Measure(v) < Measure(w)
  {
    if queued != [] {
      assert v.tasks[t].Driving?;
    } else {
      assert forall u :: 0 <= u < |v.tasks| ==> v.tasks[u] == Done;
    }
  }

  /** Ending a turn, whether it returns or raises, and ending a wait, both make progress. */
  lemma ProgressStep(w: World, e: Event)
    requires InOrder(w) && EnabledCoarse(w, e) && CalmEvent(e) && !e.Submit?
    ensures Measure(ApplyCoarse(w, e)) < Measure(w)
    ensures ApplyCoarse(w, e).arrivals == w.arrivals
  {
    var v := ApplyCoarse(w, e);
    if e.TurnEnds? && e.suspends {
      assert Holds(w, e.t);
      OnlyHolderCarries(w, e.t);
      assert w.tasks[e.t].Driving? && v.tasks[e.t].CancelWait?;
      assert forall u :: 0 <= u < |v.tasks| ==> !v.tasks[u].Driving?;
    } else {
      CalmWorldStep(w, e);
      StepToNextTurn(w, e);
      NextTurnProgress(w, v, e.t, Surfaced(w, e));
    }
  }

  predicate NoArrivals(es: seq<Event>) {
    forall k :: 0 <= k < |es| ==> !es[k].Submit?
  }

  /** Nothing can happen any more, unless a new message arrives. */
  ghost predicate Quiescent(w: World) {
    forall e :: EnabledCoarse(w, e) && CalmEvent(e) ==> e.Submit?
  }

  lemma QuiescentIsIdle(w: World)
    requires InOrder(w) && Quiescent(w)
    ensures w.loop.state.Idle? && w.driven == w.arrivals
  {
    forall t | 0 <= t < |w.tasks|
      ensures w.tasks[t] == Done
    {
      assert !EnabledCoarse(w, TurnEnds(t, Returned, false));
      assert !EnabledCoarse(w, WaitEnds(t));
    }
    CarriedByNone(w.tasks);
    assert !SomeoneHolds(w);
  }

  /** Without arrivals, each step of a run uses up at least one of the measure. */
  lemma {:induction false} RunUsesUpMeasure(w: World, es: seq<Event>)
    requires InOrder(w) && RunnableCoarse(w, es) && Calm(es) && NoArrivals(es)
    ensures |es| <= Measure(w)
    ensures RunCoarse(w, es).arrivals == w.arrivals
    decreases |es|
  {
    if es == [] {
      assert |w.driven| <= |w.arrivals|;
    } else {
      assert CalmEvent(es[0]) && !es[0].Submit?;
      assert forall k :: 0 <= k < |es[1..]| ==> es[1..][k] == es[k + 1];
      ProgressStep(w, es[0]);
      InOrderStep(w, es[0]);
      RunUsesUpMeasure(ApplyCoarse(w, es[0]), es[1..]);
    }
  }

  /** The loop is idle and every message has been driven, once each and in order. */
  predicate AllDriven(w: World) {
    w.loop.state.Idle? && w.driven == w.arrivals
  }

  /**
    Once arrivals stop, a run can take at most `Measure` more steps, and when it can take no
    further one the loop is idle and every message has been driven, once each and in order.
  */
  lemma EveryMessageIsDriven(w: World, es: seq<Event>)
    requires InOrder(w) && RunnableCoarse(w, es) && Calm(es) && NoArrivals(es)
    ensures |es| <= Measure(w)
    ensures RunCoarse(w, es).arrivals == w.arrivals
    ensures Quiescent(RunCoarse(w, es)) ==> AllDriven(RunCoarse(w, es))
  {
    RunUsesUpMeasure(w, es);
    InOrderRun(w, es);
    if Quiescent(RunCoarse(w, es)) {
      QuiescentIsIdle(RunCoarse(w, es));
    }
  }

  /** From START: after any run without cancellation, once arrivals stop, everything is soon driven. */
  lemma EveryMessageIsDrivenFromStart(es: seq<Event>, rest: seq<Event>)
    requires RunnableCoarse(START, es) && Calm(es)
    requires RunnableCoarse(RunCoarse(START, es), rest) && Calm(rest) && NoArrivals(rest)
    ensures |rest| <= Measure(RunCoarse(START, es))
    ensures var v := RunCoarse(RunCoarse(START, es), rest);
      v.arrivals == RunCoarse(START, es).arrivals && (Quiescent(v) ==> AllDriven(v))
  {
    StartIsInOrder();
    InOrderRun(START, es);
    EveryMessageIsDriven(RunCoarse(START, es), rest);
  }

  // ---- where the order needs the source's atomicity ------------------------------------

  const A := Message(Item("a", "first"), false)
  const B := Message(Item("b", "second"), false)
  const C := Message(Item("c", "third"), false)

  lemma TwoArrive() returns (es: seq<Event>, w: World)
    ensures Runnable(START, es) && Calm(es) && w == Run(START, es)
    ensures w.tasks == [Driving(A.item, []), Done] && w.loop.state.Working? && w.loop.queue == [B]
    ensures w.arrivals == [A.item, B.item] && w.driven == [A.item] && w.lost == []
  {
    var w1 := Apply(START, Submit(A));
    w := Apply(w1, Submit(B));
    RunCons(w1, Submit(B), []);
    RunCons(START, Submit(A), [Submit(B)] + []);
    es := [Submit(A)] + ([Submit(B)] + []);
  }

  lemma FirstTurnEnds(w: World) returns (es: seq<Event>, v: World)
    requires w.tasks == [Driving(A.item, []), Done] && w.loop.state.Working? && w.loop.queue == [B]
    ensures Runnable(w, es) && Calm(es) && v == Run(w, es)
    ensures v.tasks == [Resubmitting([B], []), Done] && v.loop.state.Idle? && v.loop.queue == []
    ensures v.arrivals == w.arrivals && v.driven == w.driven
  {
    var (loop, drained) := EnterSafePoint(w.loop);
    assert drained + loop.queue == [B];
    v := Apply(w, TurnEnds(0, Returned, false));
    assert v.tasks[0] == Resubmitting([B], []) && v.tasks[1] == w.tasks[1];
    RunCons(w, TurnEnds(0, Returned, false), []);
    es := [TurnEnds(0, Returned, false)] + [];
  }

  lemma OneOvertakes(w: World) returns (es: seq<Event>, v: World)
    requires w.tasks == [Resubmitting([B], []), Done] && w.loop.state.Idle? && w.loop.queue == []
    requires w.arrivals == [A.item, B.item] && w.driven == [A.item]
    ensures Runnable(w, es) && Calm(es) && v == Run(w, es)
    ensures v.arrivals == [A.item, B.item, C.item] && v.driven == [A.item, C.item]
    ensures v.loop.queue == [B]
  {
    var w1 := Apply(w, Submit(C));
    assert w1.tasks[0] == w.tasks[0] && w1.driven == [A.item, C.item];
    v := Apply(w1, Resume(0));
    RunCons(w1, Resume(0), []);
    RunCons(w, Submit(C), [Resume(0)] + []);
    es := [Submit(C)] + ([Resume(0)] + []);
  }

  /**
    In the fine machine order can be lost: B arrives during A's turn, C between A's safe point
    and the resubmission of B, and C is driven while B goes back into the queue.
  */
  lemma FineMachineMayReorder() returns (es: seq<Event>)
    ensures Runnable(START, es) && Calm(es)
    ensures Run(START, es).arrivals == [A.item, B.item, C.item]
    ensures Run(START, es).driven == [A.item, C.item] && Run(START, es).loop.queue == [B]
  {
    var arrive, w := TwoArrive();
    var turn, v := FirstTurnEnds(w);
    var overtake, last := OneOvertakes(v);
    RunConcat(w, turn, overtake);
    RunConcat(START, arrive, turn + overtake);
    es := arrive + (turn + overtake);
  }

  // ---- what cancellation costs ---------------------------------------------------------

  /** B queues behind A's turn, the turn is cancelled, and B is never driven. */
  lemma CancelledTurnDrops() returns (es: seq<Event>)
    ensures Runnable(START, es)
    ensures var w := Run(START, es);
      w.arrivals == [A.item, B.item] && w.driven == [A.item] && w.lost == [B.item] && w.loop.state.Idle?
  {
    var arrive, w := TwoArrive();
    var e := TurnEnds(0, Cancelled, false);
    var v := Apply(w, e);
    assert w.loop.queue + [] == [B] && [] + [B.item] + [] == [B.item];
    RunCons(w, e, []);
    RunConcat(START, arrive, [e] + []);
    es := arrive + ([e] + []);
  }

  const REDIRECT := Message(Item("b", "second"), true)

  /** A redirect is queued, its cancellation of subagents is cut off, and nobody holds a busy loop. */
  lemma CutOffWaitWedges() returns (es: seq<Event>)
    ensures Runnable(START, es) && WaitWasCancelled(es)
    ensures var w := Run(START, es);
      w.loop.state.SafePoint? && !SomeoneHolds(w) && w.driven == [A.item] && w.lost == [REDIRECT.item]
  {
    var w1 := Apply(START, Submit(A));
    var w2 := Apply(w1, Submit(REDIRECT));
    assert w2.tasks == [Driving(A.item, []), Done] && w2.loop.queue == [REDIRECT];
    assert HasRedirect(w2.loop.queue) by {
      assert w2.loop.queue[0].isRedirect;
    }
    var w3 := Apply(w2, TurnEnds(0, Returned, true));
    assert w3.tasks == [CancelWait([REDIRECT], false, []), Done];
    var w4 := Apply(w3, WaitCancelled(0));
    assert w4.tasks == [Done, Done];
    RunCons(w3, WaitCancelled(0), []);
    RunCons(w2, TurnEnds(0, Returned, true), [WaitCancelled(0)] + []);
    RunCons(w1, Submit(REDIRECT), [TurnEnds(0, Returned, true)] + ([WaitCancelled(0)] + []));
    es := [Submit(A)] + ([Submit(REDIRECT)] + ([TurnEnds(0, Returned, true)] + ([WaitCancelled(0)] + [])));
    RunCons(START, Submit(A), [Submit(REDIRECT)] + ([TurnEnds(0, Returned, true)] + ([WaitCancelled(0)] + [])));
    assert es[3] == WaitCancelled(0);
  }

  lemma RunCons(w: World, e: Event, es: seq<Event>)
    requires Enabled(w, e) && Runnable(Apply(w, e), es)
    ensures Runnable(w, [e] + es) && Run(w, [e] + es) == Run(Apply(w, e), es)
  {
    assert ([e] + es)[1..] == es;
  }
}
