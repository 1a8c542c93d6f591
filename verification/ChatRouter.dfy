/**
  `_run_acp_turn` in the source's own form: tasks that share one `AgentLoop` and update it
  in place.  Each method runs one task from where it was suspended to its next suspension,
  and is proved to make exactly one step of the coarse machine.
*/
module ChatRouters {
  import opened AgentLoops
  import opened TurnProtocol
  import opened TurnOrder

  /** The `for m in queued` loop, with the submissions of `rest` still to make. */
  function ResubmitAll(w: World, t: nat, rest: seq<Message>, pending: seq<Item>): World
    requires t < |w.tasks|
    decreases |rest|
  {
    if rest == [] then Continue(w, t, [], pending) else
      var m := Message(rest[0].item, false);
      var (loop, action) := Handle(w.loop, m);
      ResubmitAll(w.(loop := loop), t, rest[1..], if action.Immediate? then pending + [m.item] else pending)
  }

  lemma ContinueOverwrites(w: World, t: nat, pc: Pc, rest: seq<Message>, pending: seq<Item>)
    requires t < |w.tasks|
    ensures Continue(w.(tasks := w.tasks[t := pc]), t, rest, pending) == Continue(w, t, rest, pending)
  {
    var p := Continue(w, t, rest, pending).tasks[t];
    assert w.tasks[t := pc][t := p] == w.tasks[t := p];
  }

  /** The loop is the sequence of resubmission steps of the state machine. */
  lemma {:induction false} ResubmitAllSettles(w: World, t: nat, rest: seq<Message>, pending: seq<Item>)
    requires t < |w.tasks|
    ensures ResubmitAll(w, t, rest, pending) == Settle(Continue(w, t, rest, pending), t)
    decreases |rest|
  {
    if rest != [] {
      var m := Message(rest[0].item, false);
      var (loop, action) := Handle(w.loop, m);
      var pending' := if action.Immediate? then pending + [m.item] else pending;
      ContinueOverwrites(w.(loop := loop), t, Resubmitting(rest, pending), rest[1..], pending');
      ResubmitAllSettles(w.(loop := loop), t, rest[1..], pending');
    }
  }

  class ChatRouter {
    const loop: AgentLoop
    var tasks: seq<Pc>
    ghost var arrivals: seq<Item>
    ghost var driven: seq<Item>
    ghost var lost: seq<Item>
    ghost var wedged: bool

    ghost function World(): World
      reads this, loop
    {
      TurnProtocol.World(loop.Value(), tasks, arrivals, driven, lost, wedged)
    }

    constructor ()
      ensures World() == START
      ensures fresh(loop)
    {
      loop := new AgentLoop();
      tasks, arrivals, driven, lost, wedged := [], [], [], [], false;
    }

    /** A new task, up to its first `drive_turn` or, when the loop is busy, to its end. */
    method SubmitMessage(m: Message)
      modifies this, loop
      ensures World() == Apply(old(World()), Submit(m))
    {
      var action := loop.HandleMessage(m);
      arrivals := arrivals + [m.item];
      if action == Queued {
        tasks := tasks + [Done];
      } else {
        tasks := tasks + [Driving(m.item, [])];
        driven := driven + [m.item];
      }
    }

    /** `drive_turn` of task `t` is over, in whichever way. */
    method EndTurn(t: nat, outcome: Outcome, suspends: bool)
      requires EnabledCoarse(World(), TurnEnds(t, outcome, suspends))
      modifies this, loop
      ensures World() == ApplyCoarse(old(World()), TurnEnds(t, outcome, suspends))
    {
      var pending := tasks[t].pending;
      var drained := loop.DrainAtSafePoint();
      if suspends {
        tasks := tasks[t := CancelWait(drained, outcome == Cancelled, pending)];
      } else {
        PassOn(t, drained, outcome == Cancelled, pending);
      }
    }

    /** The subagents of task `t` have stopped, or ten seconds have passed. */
    method EndWait(t: nat)
      requires EnabledCoarse(World(), WaitEnds(t))
      modifies this, loop
      ensures World() == ApplyCoarse(old(World()), WaitEnds(t))
    {
      PassOn(t, tasks[t].drained, tasks[t].cancelled, tasks[t].pending);
    }

    /** Task `t` is cancelled while it waits inside `reach_safe_point`. */
    method CancelDuringWait(t: nat)
      requires EnabledCoarse(World(), WaitCancelled(t))
      modifies this
      ensures World() == ApplyCoarse(old(World()), WaitCancelled(t))
    {
      lost := lost + Items(tasks[t].drained) + tasks[t].pending;
      wedged := true;
      tasks := tasks[t := Done];
    }

    /** The rest of `finally`, and back to the head of `while pending` unless cancelled. */
    method PassOn(t: nat, drained: seq<Message>, cancelled: bool, pending: seq<Item>)
      requires t < |tasks|
      modifies this, loop
      ensures World() == Settle(PassSafePoint(old(World()), t, drained, cancelled, pending), t)
    {
      var queued := loop.FinishSafePoint(drained);
      if cancelled {
        lost := lost + Items(queued) + pending;
        tasks := tasks[t := Done];
      } else {
        ResubmitAllSettles(World(), t, queued, pending);
        ResubmitQueued(t, queued, pending);
      }
    }

    method ResubmitQueued(t: nat, queued: seq<Message>, pendingBefore: seq<Item>)
      requires t < |tasks|
      modifies this, loop
      ensures World() == ResubmitAll(old(World()), t, queued, pendingBefore)
    {
      var pending := pendingBefore;
      var k := 0;
      while k < |queued|
        invariant 0 <= k <= |queued|
        invariant tasks == old(tasks)
        invariant ResubmitAll(World(), t, queued[k..], pending) == ResubmitAll(old(World()), t, queued, pendingBefore)
      {
        assert queued[k..][1..] == queued[k + 1..];
        var m := Message(queued[k].item, false);
        var followup := loop.HandleMessage(m);
        if followup == Immediate {
          pending := pending + [m.item];
        }
        k := k + 1;
      }
      if pending == [] {
        tasks := tasks[t := Done];
      } else {
        tasks := tasks[t := Driving(pending[0], pending[1..])];
        driven := driven + [pending[0]];
      }
    }
  }
}
