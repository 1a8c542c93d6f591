/**
  The per-agent loop controller of tinyagentos/agent_loop.py: a state, a queue of messages
  that arrived while a turn was running, and the two critical sections of a safe point.

  No critical section of the source awaits while it holds the lock, so each is one atomic
  update.  The functions below give the update on values; the class makes it in place.
*/
module AgentLoops {
  import opened Wrappers

  datatype LoopState = Idle | Working | SafePoint

  datatype LoopAction = Immediate | Queued

  /** What a message is, apart from the redirect flag of one submission of it. */
  datatype Item = Item(id: string, content: string)

  datatype Message = Message(item: Item, isRedirect: bool)

  /** Everything the turn protocol reads or writes of a loop. */
  datatype LoopValue = LoopValue(
    state: LoopState,
    queue: seq<Message>,
    turn: Option<string>,
    delivered: seq<Message>)

  const MAX_DELIVERED := 1000

  const FRESH_LOOP: LoopValue := LoopValue(Idle, [], None, [])

  function Items(ms: seq<Message>): (items: seq<Item>)
    ensures |items| == |ms|
    ensures forall k :: 0 <= k < |ms| ==> items[k] == ms[k].item
  {
    seq(|ms|, k requires 0 <= k < |ms| => ms[k].item)
  }

  predicate HasRedirect(ms: seq<Message>) {
    exists k :: 0 <= k < |ms| && ms[k].isRedirect
  }

  /** The last `n` elements, or all of them when there are fewer. */
  function LastOf<T>(s: seq<T>, n: nat): (r: seq<T>)
    ensures |r| <= n && |r| <= |s|
    ensures r == s[|s| - |r|..]
  {
    if |s| > n then s[|s| - n..] else s
  }

  /** `d` is `all` without its oldest entries, and without none of them unless a thousand remain. */
  ghost predicate IsLastThousand<T>(d: seq<T>, all: seq<T>) {
    exists n: nat :: n <= |all| && d == all[n..] && |d| <= 1000 && (n > 0 ==> |d| == 1000)
  }

  /** The critical section of `handle_message`. */
  function Handle(v: LoopValue, m: Message): (LoopValue, LoopAction) {
    if v.state.Idle?
    then (v.(state := Working, turn := Some(m.item.id)), Immediate)
    else (v.(queue := v.queue + [m]), Queued)
  }

  /** The first critical section of `reach_safe_point`; what it drained comes second. */
  function EnterSafePoint(v: LoopValue): (LoopValue, seq<Message>) {
    (v.(state := SafePoint, queue := []), v.queue)
  }

  /** The second one, which also takes what arrived while subagents were being cancelled. */
  function LeaveSafePoint(v: LoopValue, drained: seq<Message>): (LoopValue, seq<Message>) {
    var surfaced := drained + v.queue;
    var idle := if v.state.SafePoint? then v.(state := Idle, turn := None) else v;
    (idle.(queue := [], delivered := LastOf(v.delivered + surfaced, MAX_DELIVERED)), surfaced)
  }

  class AgentLoop {
    var state: LoopState
    var messageQueue: seq<Message>
    var currentTurnId: Option<string>
    var delivered: seq<Message>

    ghost function Value(): LoopValue
      reads this
    {
      LoopValue(state, messageQueue, currentTurnId, delivered)
    }

    constructor ()
      ensures Value() == FRESH_LOOP
    {
      state, messageQueue, currentTurnId, delivered := Idle, [], None, [];
    }

    method HandleMessage(m: Message) returns (action: LoopAction)
      modifies this
      ensures (Value(), action) == Handle(old(Value()), m)
      ensures old(state) == Idle ==>
        && action == Immediate && state == Working && currentTurnId == Some(m.item.id)
        && messageQueue == old(messageQueue)
      ensures old(state) != Idle ==>
        && action == Queued && state == old(state) && currentTurnId == old(currentTurnId)
        && messageQueue == old(messageQueue) + [m]
      ensures delivered == old(delivered)
    {
      if state == Working || state == SafePoint {
        messageQueue := messageQueue + [m];
        return Queued;
      }
      state := Working;
      currentTurnId := Some(m.item.id);
      return Immediate;
    }

    method DrainAtSafePoint() returns (queued: seq<Message>)
      modifies this
      ensures (Value(), queued) == EnterSafePoint(old(Value()))
      ensures queued == old(messageQueue) && messageQueue == [] && state == SafePoint
      ensures currentTurnId == old(currentTurnId) && delivered == old(delivered)
    {
      state := SafePoint;
      queued := messageQueue;
      messageQueue := [];
    }

    method FinishSafePoint(drained: seq<Message>) returns (queued: seq<Message>)
      modifies this
      ensures (Value(), queued) == LeaveSafePoint(old(Value()), drained)
      ensures queued == drained + old(messageQueue) && messageQueue == []
      ensures old(state) == SafePoint ==> state == Idle && currentTurnId == None
      ensures old(state) != SafePoint ==> state == old(state) && currentTurnId == old(currentTurnId)
      ensures IsLastThousand(delivered, old(delivered) + queued)
    {
      queued := drained + messageQueue;
      messageQueue := [];
      if state == SafePoint {
        state := Idle;
        currentTurnId := None;
      }
      delivered := delivered + queued;
      PruneDelivered();
    }

    method PruneDelivered()
      modifies this`delivered
      ensures delivered == LastOf(old(delivered), MAX_DELIVERED)
      ensures IsLastThousand(delivered, old(delivered))
    {
      if |delivered| > MAX_DELIVERED {
        delivered := delivered[|delivered| - MAX_DELIVERED..];
      }
    }
  }
}
