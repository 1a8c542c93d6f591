/**
  The turn-holder protocol of `_run_acp_turn` (tinyagentos/agent_chat_router.py) over one
  agent's loop, as a state machine whose steps are the stretches of code between awaits.

  Two machines share one state.  In the coarse one a task resubmits everything it drained
  within one step, which is what the source does, since none of those calls suspends.  The
  fine one may also switch tasks before each resubmission.
*/
module TurnProtocol {
  import opened Wrappers
  import opened AgentLoops

  /** Where a task is suspended. */
  datatype Pc =
    | Driving(cur: Item, pending: seq<Item>)
    | CancelWait(drained: seq<Message>, cancelled: bool, pending: seq<Item>)
    | Resubmitting(rest: seq<Message>, pending: seq<Item>)
    | Done

  datatype Outcome = Returned | Raised | Cancelled

  datatype World = World(
    loop: LoopValue,
    tasks: seq<Pc>,
    arrivals: seq<Item>,  // history: messages in the order they were submitted
    driven: seq<Item>,    // history: messages in the order `drive_turn` was called
    lost: seq<Item>,      // history: messages dropped by a cancelled task
    wedged: bool)         // history: some task was cancelled at the wait for subagents

  const START: World := World(FRESH_LOOP, [], [], [], [], false)

  datatype Event =
    | Submit(m: Message)
    | TurnEnds(t: nat, outcome: Outcome, suspends: bool)
    | WaitEnds(t: nat)
    | WaitCancelled(t: nat)
    | Resume(t: nat)

  // ---- the fine machine ------------------------------------------------------------

  predicate Enabled(w: World, e: Event) {
    match e
    case Submit(_) => true
    case TurnEnds(t, _, suspends) =>
      t < |w.tasks| && w.tasks[t].Driving? && (suspends ==> HasRedirect(w.loop.queue))
    case WaitEnds(t) => t < |w.tasks| && w.tasks[t].CancelWait?
    case WaitCancelled(t) => t < |w.tasks| && w.tasks[t].CancelWait?
    case Resume(t) => t < |w.tasks| && w.tasks[t].Resubmitting? && w.tasks[t].rest != []
  }

  /** The head of `while pending`, reached when nothing is left to resubmit. */
  function Continue(w: World, t: nat, rest: seq<Message>, pending: seq<Item>): World
    requires t < |w.tasks|
  {
    if rest != [] then w.(tasks := w.tasks[t := Resubmitting(rest, pending)])
    else if pending == [] then w.(tasks := w.tasks[t := Done])
    else w.(tasks := w.tasks[t := Driving(pending[0], pending[1..])],
            driven := w.driven + [pending[0]])
  }

  /** `reach_safe_point` from its second critical section on, and the way out of `finally`. */
  function PassSafePoint(w: World, t: nat, drained: seq<Message>, cancelled: bool, pending: seq<Item>): World
    requires t < |w.tasks|
  {
    var (loop, queued) := LeaveSafePoint(w.loop, drained);
    if cancelled
    then w.(loop := loop, tasks := w.tasks[t := Done], lost := w.lost + Items(queued) + pending)
    else Continue(w.(loop := loop), t, queued, pending)
  }

  function Apply(w: World, e: Event): World
    requires Enabled(w, e)
  {
    match e
    case Submit(m) =>
      var (loop, action) := Handle(w.loop, m);
      var w1 := w.(loop := loop, arrivals := w.arrivals + [m.item]);
      if action.Queued? then w1.(tasks := w.tasks + [Done])
      else w1.(tasks := w.tasks + [Driving(m.item, [])], driven := w.driven + [m.item])
    case TurnEnds(t, outcome, suspends) =>
      var (loop, drained) := EnterSafePoint(w.loop);
      var w1 := w.(loop := loop);
      if suspends then w1.(tasks := w.tasks[t := CancelWait(drained, outcome.Cancelled?, w.tasks[t].pending)])
      else PassSafePoint(w1, t, drained, outcome.Cancelled?, w.tasks[t].pending)
    case WaitEnds(t) =>
      PassSafePoint(w, t, w.tasks[t].drained, w.tasks[t].cancelled, w.tasks[t].pending)
    case WaitCancelled(t) =>
      w.(tasks := w.tasks[t := Done], lost := w.lost + Items(w.tasks[t].drained) + w.tasks[t].pending,
          wedged := true)
    case Resume(t) =>
      var pc := w.tasks[t];
      var m := Message(pc.rest[0].item, false);
      var (loop, action) := Handle(w.loop, m);
      Continue(w.(loop := loop), t, pc.rest[1..],
               if action.Immediate? then pc.pending + [m.item] else pc.pending)
  }

  /** What a task puts back into the queue of a busy loop is no redirect, whatever it was before. */
  lemma ResubmittedWithoutFlag(w: World, t: nat)
    requires Enabled(w, Resume(t))
    ensures var item := w.tasks[t].rest[0].item;
      if w.loop.state == Idle then Apply(w, Resume(t)).loop == w.loop.(state := Working, turn := Some(item.id))
      else Apply(w, Resume(t)).loop == w.loop.(queue := w.loop.queue + [Message(item, false)])
  {
  }

  predicate Runnable(w: World, es: seq<Event>)
    decreases |es|
  {
    es == [] || (Enabled(w, es[0]) && Runnable(Apply(w, es[0]), es[1..]))
  }

  function Run(w: World, es: seq<Event>): World
    requires Runnable(w, es)
    decreases |es|
  {
    if es == [] then w else Run(Apply(w, es[0]), es[1..])
  }

  // ---- exclusivity -----------------------------------------------------------------

  /** Task `t` holds the turn. */
  predicate Holds(w: World, t: nat) {
    t < |w.tasks| &&
    var pc := w.tasks[t];
    pc.Driving? || pc.CancelWait? || (pc.Resubmitting? && pc.pending != [])
  }

  ghost predicate SomeoneHolds(w: World) {
    exists t: nat :: Holds(w, t)
  }

  /** What the program counter of a task says about the loop. */
  predicate PcFits(loop: LoopValue, pc: Pc) {
    match pc
    case Driving(cur, pending) => pending == [] && loop.state.Working? && loop.turn == Some(cur.id)
    case CancelWait(_, _, pending) => pending == [] && loop.state.SafePoint?
    case Resubmitting(rest, pending) =>
      && rest != []
      && |pending| <= 1
      && (pending != [] ==> loop.state.Working? && loop.turn == Some(pending[0].id))
    case Done => true
  }

  ghost predicate Exclusive(w: World) {
    && (forall t, u :: Holds(w, t) && Holds(w, u) ==> t == u)
    && (forall t :: 0 <= t < |w.tasks| ==> PcFits(w.loop, w.tasks[t]))
    && (!w.loop.state.Idle? ==> SomeoneHolds(w) || w.wedged)
    && (w.wedged ==> w.loop.state.SafePoint? && !SomeoneHolds(w))
    && (w.loop.state.Idle? ==> w.loop.queue == [])
    && (w.loop.state.Idle? <==> w.loop.turn.None?)
  }

  lemma SubmitIsExclusive(w: World, m: Message)
    requires Exclusive(w)
    ensures Exclusive(Apply(w, Submit(m)))
  {
    var v := Apply(w, Submit(m));
    KeepHolders(w, v, |w.tasks|);
    assert w.loop.state.Idle? ==> Holds(v, |w.tasks|);
  }

  lemma TurnEndIsExclusive(w: World, t: nat, outcome: Outcome, suspends: bool)
    requires Exclusive(w) && Enabled(w, TurnEnds(t, outcome, suspends))
    ensures Exclusive(Apply(w, TurnEnds(t, outcome, suspends)))
  {
    var v := Apply(w, TurnEnds(t, outcome, suspends));
    assert Holds(w, t) && PcFits(w.loop, w.tasks[t]);
    KeepHolders(w, v, t);
    assert suspends ==> Holds(v, t);
    OthersFit(w, v, t);
  }

  lemma WaitEndIsExclusive(w: World, t: nat)
    requires Exclusive(w) && Enabled(w, WaitEnds(t))
    ensures Exclusive(Apply(w, WaitEnds(t)))
  {
    var v := Apply(w, WaitEnds(t));
    assert Holds(w, t) && PcFits(w.loop, w.tasks[t]);
    KeepHolders(w, v, t);
    OthersFit(w, v, t);
  }

  lemma WaitCancelIsExclusive(w: World, t: nat)
    requires Exclusive(w) && Enabled(w, WaitCancelled(t))
    ensures Exclusive(Apply(w, WaitCancelled(t)))
  {
    var v := Apply(w, WaitCancelled(t));
    assert Holds(w, t) && PcFits(w.loop, w.tasks[t]);
    KeepHolders(w, v, t);
    OthersFit(w, v, t);
  }

  lemma ResumeIsExclusive(w: World, t: nat)
    requires Exclusive(w) && Enabled(w, Resume(t))
    ensures Exclusive(Apply(w, Resume(t)))
  {
    var v := Apply(w, Resume(t));
    KeepHolders(w, v, t);
    assert PcFits(w.loop, w.tasks[t]);
    assert w.loop.state.Idle? || Holds(w, t) ==> Holds(v, t);
  }

  lemma ExclusiveStep(w: World, e: Event)
    requires Exclusive(w) && Enabled(w, e)
    ensures Exclusive(Apply(w, e))
  {
    match e {
      case Submit(m) => SubmitIsExclusive(w, m);
      case TurnEnds(t, outcome, suspends) => TurnEndIsExclusive(w, t, outcome, suspends);
      case WaitEnds(t) => WaitEndIsExclusive(w, t);
      case WaitCancelled(t) => WaitCancelIsExclusive(w, t);
      case Resume(t) => ResumeIsExclusive(w, t);
    }
  }

  /** A step of one task changes no other task's hold on the turn. */
  lemma KeepHolders(w: World, v: World, t: nat)
    requires t <= |w.tasks| <= |v.tasks| <= |w.tasks| + 1
    requires |v.tasks| > |w.tasks| ==> t == |w.tasks|
    requires forall u :: 0 <= u < |w.tasks| && u != t ==> v.tasks[u] == w.tasks[u]
    ensures forall u :: u != t ==> (Holds(v, u) <==> Holds(w, u))
  {
  }

  /** Whoever does not hold the turn fits every state of the loop. */
  lemma OthersFit(w: World, v: World, t: nat)
    requires Exclusive(w) && Holds(w, t)
    requires |v.tasks| == |w.tasks|
    requires forall u :: 0 <= u < |w.tasks| && u != t ==> v.tasks[u] == w.tasks[u]
    ensures forall u :: 0 <= u < |v.tasks| && u != t ==> PcFits(v.loop, v.tasks[u])
  {
    forall u | 0 <= u < |v.tasks| && u != t
      ensures PcFits(v.loop, v.tasks[u])
    {
      assert PcFits(w.loop, w.tasks[u]);
      assert !Holds(w, u);
    }
  }

  lemma {:induction false} ExclusiveRun(w: World, es: seq<Event>)
    requires Exclusive(w) && Runnable(w, es)
    ensures Exclusive(Run(w, es))
    decreases |es|
  {
    if es != [] {
      ExclusiveStep(w, es[0]);
      ExclusiveRun(Apply(w, es[0]), es[1..]);
    }
  }
}
