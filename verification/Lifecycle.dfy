/**
  The lifecycle of agent identities in tinyagentos/agent_registry_store.py.  Each call reads a
  row and later writes it with a conditional UPDATE; between the two anything may happen.
*/
module Lifecycle {
  import opened Wrappers

  type Id = string
  type Timestamp = string

  datatype Status = Pending | Active | Suspended | Revoked | Rejected

  datatype Row = Row(status: Status, revokedAt: Option<Timestamp>, tokenMinIat: int)

  type Table = map<Id, Row>

  /** `_VALID_TRANSITIONS`. */
  predicate Allowed(from: Status, to: Status): (r: bool)
    ensures r <==>
      match from
      case Pending => to.Active? || to.Rejected? || to.Revoked?
      case Active => to.Suspended? || to.Revoked?
      case Suspended => to.Active? || to.Revoked?
      case Rejected => to.Pending? || to.Active? || to.Revoked?
      case Revoked => false
  {
    (from, to) in {
      (Pending, Active), (Pending, Rejected), (Active, Suspended), (Suspended, Active),
      (Active, Revoked), (Suspended, Revoked), (Pending, Revoked), (Rejected, Revoked),
      (Rejected, Pending), (Rejected, Active)
    }
  }

  /** What a call has decided to write after its read. */
  datatype Intent =
    | SetStatus(id: Id, before: Status, after: Status)
    | Revoke(id: Id)

  datatype World = World(
    table: Table,
    intents: seq<Intent>,              // calls suspended between their read and their UPDATE
    history: map<Id, seq<Status>>)     // history: the statuses each row has been committed with

  const START: World := World(map[], [], map[])

  datatype Event =
    | ReadForSet(id: Id, after: Status)
    | ReadForRevoke(id: Id)
    | Commit(k: nat, now: Timestamp)
    | Bump(id: Id, ts: int)
    | Register(id: Id, selfJoined: bool)
    | Delete(id: Id)

  predicate Enabled(w: World, e: Event) {
    match e
    case Commit(k, _) => k < |w.intents|
    case Register(id, _) => id !in w.table
    case _ => true
  }

  /** The conditional UPDATE of an intent; it may match no row. */
  function Updated(table: Table, intent: Intent, now: Timestamp): Option<Row> {
    match intent
    case SetStatus(id, before, after) =>
      if id in table && table[id].status == before
      then Some(table[id].(status := after,
                           revokedAt := if after.Revoked? && table[id].revokedAt.None? then Some(now)
                                        else table[id].revokedAt))
      else None
    case Revoke(id) =>
      if id in table && table[id].revokedAt.None?
      then Some(table[id].(status := Revoked, revokedAt := Some(now)))
      else None
  }

  function Recorded(history: map<Id, seq<Status>>, id: Id, status: Status): map<Id, seq<Status>> {
    history[id := (if id in history then history[id] else []) + [status]]
  }

  function Apply(w: World, e: Event): World
    requires Enabled(w, e)
  {
    match e
    case ReadForSet(id, after) =>
      if id in w.table && Allowed(w.table[id].status, after)
      then w.(intents := w.intents + [SetStatus(id, w.table[id].status, after)]) else w
    case ReadForRevoke(id) =>
      if id in w.table && w.table[id].revokedAt.None?
      then w.(intents := w.intents + [Revoke(id)]) else w
    case Commit(k, now) =>
      var intent := w.intents[k];
      var left := w.(intents := w.intents[..k] + w.intents[k + 1..]);
      var row := Updated(w.table, intent, now);
      if row.None? then left
      else left.(table := w.table[intent.id := row.value],
                 history := Recorded(w.history, intent.id, row.value.status))
    case Bump(id, ts) =>
      if id in w.table
      then w.(table := w.table[id := w.table[id].(tokenMinIat := Max(w.table[id].tokenMinIat, ts))]) else w
    case Register(id, selfJoined) =>
      var status := if selfJoined then Pending else Active;
      w.(table := w.table[id := Row(status, None, 0)], history := w.history[id := [status]])
    case Delete(id) =>
      w.(table := w.table - {id}, history := w.history - {id})
  }

  function Max(a: int, b: int): int {
    if a < b then b else a
  }

  predicate Runnable(w: World, es: seq<Event>)
    decreases |es|
  {
    es == [] || (Enabled(w, es[0]) && Runnable(Apply(w, es[0]), es[1..]))
  }

  function Run(w: World, es: seq<Event>): World
    requires Runnable(w, es)
    decreases |es|
  {
    if es == [] then w else Run(Apply(w, es[0]), es[1..])
  }

  // ---- the invariant --------------------------------------------------------------------------

  /** A walk through the transition table that starts where `register` starts. */
  predicate IsPath(h: seq<Status>) {
    && h != [] && (h[0].Pending? || h[0].Active?)
    && forall k :: 0 < k < |h| ==> Allowed(h[k - 1], h[k])
  }

  predicate RowFits(w: World, id: Id) {
    id in w.table ==>
      && (w.table[id].status.Revoked? <==> w.table[id].revokedAt.Some?)
      && id in w.history && IsPath(w.history[id])
      && w.history[id][|w.history[id]| - 1] == w.table[id].status
  }

  ghost predicate Inv(w: World) {
    && (forall id :: RowFits(w, id))
    && (forall k :: 0 <= k < |w.intents| && w.intents[k].SetStatus? ==>
          Allowed(w.intents[k].before, w.intents[k].after))
  }

  lemma CommitKeepsRow(w: World, k: nat, now: Timestamp, id: Id)
    requires Inv(w) && k < |w.intents|
    ensures RowFits(Apply(w, Commit(k, now)), id)
  {
    var intent := w.intents[k];
    assert RowFits(w, id) && RowFits(w, intent.id);
    if id == intent.id && Updated(w.table, intent, now).Some? {
      var h := w.history[id];
      var status := Updated(w.table, intent, now).value.status;
      assert Allowed(w.table[id].status, status);
      var h' := h + [status];
      forall j | 0 < j < |h'|
        ensures Allowed(h'[j - 1], h'[j])
      {
        if j < |h| {
          assert h'[j - 1] == h[j - 1] && h'[j] == h[j];
        }
      }
    }
  }

  lemma StepKeepsInv(w: World, e: Event)
    requires Inv(w) && Enabled(w, e)
    ensures Inv(Apply(w, e))
  {
    forall id
      ensures RowFits(Apply(w, e), id)
    {
      assert RowFits(w, id);
      if e.Commit? {
        CommitKeepsRow(w, e.k, e.now, id);
      }
    }
  }

  lemma {:induction false} RunKeepsInv(w: World, es: seq<Event>)
    requires Inv(w) && Runnable(w, es)
    ensures Inv(Run(w, es))
    decreases |es|
  {
    if es != [] {
      StepKeepsInv(w, es[0]);
      RunKeepsInv(Apply(w, es[0]), es[1..]);
    }
  }

  /**
    However the reads and writes of concurrent calls interleave, every committed history is a
    path of the transition table, and a row is revoked exactly when `revoked_at` is set.
  */
  lemma HistoriesArePaths(es: seq<Event>, id: Id)
    requires Runnable(START, es) && id in Run(START, es).table
    ensures var w := Run(START, es);
      && id in w.history && IsPath(w.history[id])
      && w.history[id][|w.history[id]| - 1] == w.table[id].status
      && (w.table[id].status.Revoked? <==> w.table[id].revokedAt.Some?)
  {
    RunKeepsInv(START, es);
    assert RowFits(Run(START, es), id);
  }

  // ---- where a history begins -----------------------------------------------------------------

  /** The registration that the row of `id` goes back to. */
  predicate RegisteredLast(es: seq<Event>, id: Id, selfJoined: bool, k: nat) {
    && k < |es| && es[k] == Register(id, selfJoined)
    && forall j :: k < j < |es| ==> es[j] != Delete(id) && !(es[j].Register? && es[j].id == id)
  }

  /** A history begins pending where the agent joined by itself, and active where somebody registered it. */
  predicate BeginsAs(w: World, id: Id, selfJoined: bool) {
    id in w.history && w.history[id] != [] && w.history[id][0] == (if selfJoined then Pending else Active)
  }

  lemma BeginStep(w: World, e: Event, id: Id, selfJoined: bool)
    requires Inv(w) && Enabled(w, e)
    ensures e == Register(id, selfJoined) ==> BeginsAs(Apply(w, e), id, selfJoined)
    ensures BeginsAs(w, id, selfJoined) && e != Delete(id) && !(e.Register? && e.id == id) ==>
      BeginsAs(Apply(w, e), id, selfJoined)
    ensures id in Apply(w, e).table && e != Register(id, true) && e != Register(id, false) ==> id in w.table && e != Delete(id)
  {
  }

  lemma {:induction false} BeginsWithLast(w: World, es: seq<Event>, id: Id, selfJoined: bool) returns (k: int)
    requires Inv(w) && Runnable(w, es) && id in Run(w, es).table
    requires id in w.table ==> BeginsAs(w, id, selfJoined)
    ensures -1 <= k < |es|
    ensures k == -1 ==> id in w.table && BeginsAs(Run(w, es), id, selfJoined)
    ensures k >= 0 ==> es[k].Register? && RegisteredLast(es, id, es[k].selfJoined, k)
    ensures k >= 0 ==> BeginsAs(Run(w, es), id, es[k].selfJoined)
    ensures k == -1 ==> forall j :: 0 <= j < |es| ==> es[j] != Delete(id) && !(es[j].Register? && es[j].id == id)
    decreases |es|
  {
    if es == [] {
      k := -1;
    } else {
      var e := es[0];
      var joined := if e.Register? && e.id == id then e.selfJoined else selfJoined;
      BeginStep(w, e, id, joined);
      StepKeepsInv(w, e);
      var rest := BeginsWithLast(Apply(w, e), es[1..], id, joined);
      assert forall j :: 0 < j < |es| ==> es[j] == es[1..][j - 1];
      k := if rest >= 0 then rest + 1 else if e.Register? && e.id == id then 0 else -1;
    }
  }

  /** Over every run the history of a row begins as its registration says. */
  lemma HistoriesBeginAsRegistered(es: seq<Event>, id: Id) returns (k: nat)
    requires Runnable(START, es) && id in Run(START, es).table
    ensures k < |es| && es[k].Register? && RegisteredLast(es, id, es[k].selfJoined, k)
    ensures BeginsAs(Run(START, es), id, es[k].selfJoined)
  {
    var last := BeginsWithLast(START, es, id, false);
    k := last;
  }

  // ---- what cannot be undone ------------------------------------------------------------------

  predicate Deletes(es: seq<Event>, id: Id) {
    exists k :: 0 <= k < |es| && es[k] == Delete(id)
  }

  /** The row of `id` only ever moves towards fewer acceptable tokens. */
  predicate NoMoreTrusted(before: Table, after: Table, id: Id) {
    id in before ==>
      && id in after
      && (before[id].status.Revoked? ==> after[id] == before[id].(tokenMinIat := after[id].tokenMinIat))
      && before[id].tokenMinIat <= after[id].tokenMinIat
  }

  lemma {:induction false} TrustOnlyShrinks(w: World, es: seq<Event>, id: Id)
    requires Inv(w) && Runnable(w, es) && !Deletes(es, id)
    ensures NoMoreTrusted(w.table, Run(w, es).table, id)
    decreases |es|
  {
    if es != [] {
      var e := es[0];
      assert e != Delete(id);
      assert RowFits(w, id);
      assert NoMoreTrusted(w.table, Apply(w, e).table, id) by {
        if e.Commit? {
          CommitOnlyShrinks(w, e.k, e.now, id);
        }
      }
      StepKeepsInv(w, e);
      assert forall k :: 0 <= k < |es[1..]| ==> es[1..][k] == es[k + 1];
      TrustOnlyShrinks(Apply(w, e), es[1..], id);
    }
  }

  lemma CommitOnlyShrinks(w: World, k: nat, now: Timestamp, id: Id)
    requires Inv(w) && k < |w.intents|
    ensures NoMoreTrusted(w.table, Apply(w, Commit(k, now)).table, id)
  {
    assert RowFits(w, id);
    var intent := w.intents[k];
    assert intent.SetStatus? ==> Allowed(intent.before, intent.after);
  }

  // ---- the store --------------------------------------------------------------------------------

  datatype LifecycleError = UnknownAgent | InvalidTransition

  /** The same steps made in place; `intents` are the calls that are between two awaits. */
  class LifecycleStore {
    var table: Table
    var intents: seq<Intent>
    ghost var history: map<Id, seq<Status>>

    ghost function Value(): World
      reads this
    {
      World(table, intents, history)
    }

    constructor ()
      ensures Value() == START
    {
      table, intents, history := map[], [], map[];
    }

    /** `set_status` up to its UPDATE. */
    method BeginSetStatus(id: Id, after: Status) returns (refused: Option<LifecycleError>)
      modifies this
      ensures Value() == Apply(old(Value()), ReadForSet(id, after))
      ensures table == old(table)
      ensures refused == Some(UnknownAgent) <==> id !in old(table)
      ensures refused == Some(InvalidTransition) <==> id in old(table) && !Allowed(old(table)[id].status, after)
      ensures refused.None? ==> intents == old(intents) + [SetStatus(id, old(table)[id].status, after)]
      ensures refused.Some? ==> intents == old(intents)
    {
      if id !in table {
        return Some(UnknownAgent);
      }
      if !Allowed(table[id].status, after) {
        return Some(InvalidTransition);
      }
      intents := intents + [SetStatus(id, table[id].status, after)];
      return None;
    }

    /** `revoke` up to its UPDATE; nothing is written for a row already revoked. */
    method BeginRevoke(id: Id) returns (begun: bool)
      modifies this
      ensures Value() == Apply(old(Value()), ReadForRevoke(id))
      ensures begun <==> id in old(table) && old(table)[id].revokedAt.None?
      ensures table == old(table) && intents == if begun then old(intents) + [Revoke(id)] else old(intents)
    {
      if id !in table || table[id].revokedAt.Some? {
        return false;
      }
      intents := intents + [Revoke(id)];
      return true;
    }

    /** The conditional UPDATE of one suspended call; false when no row matched. */
    method CommitIntent(k: nat, now: Timestamp) returns (matched: bool)
      requires k < |intents|
      modifies this
      ensures Value() == Apply(old(Value()), Commit(k, now))
      ensures intents == old(intents[..k]) + old(intents[k + 1..])
      ensures matched <==>
        match old(intents)[k]
        case SetStatus(id, before, after) => id in old(table) && old(table)[id].status == before
        case Revoke(id) => id in old(table) && old(table)[id].revokedAt == None
      ensures !matched ==> table == old(table)
      ensures matched ==>
        match old(intents)[k]
        case SetStatus(id, _, after) =>
          var was := old(table)[id];
          table == old(table)[id := Row(after, if after == Revoked && was.revokedAt == None then Some(now) else was.revokedAt,
                                        was.tokenMinIat)]
        case Revoke(id) => table == old(table)[id := Row(Revoked, Some(now), old(table)[id].tokenMinIat)]
    {
      var intent := intents[k];
      intents := intents[..k] + intents[k + 1..];
      if intent.id !in table {
        return false;
      }
      var row := table[intent.id];
      match intent {
        case SetStatus(id, before, after) =>
          if row.status != before {
            return false;
          }
          row := row.(status := after);
          if after == Revoked && row.revokedAt.None? {
            row := row.(revokedAt := Some(now));
          }
        case Revoke(id) =>
          if row.revokedAt.Some? {
            return false;
          }
          row := row.(status := Revoked, revokedAt := Some(now));
      }
      table := table[intent.id := row];
      history := Recorded(history, intent.id, row.status);
      return true;
    }

    method BumpTokenMinIat(id: Id, ts: int)
      modifies this
      ensures Value() == Apply(old(Value()), Bump(id, ts))
      ensures table.Keys == old(table).Keys && forall other :: other in table && other != id ==> table[other] == old(table)[other]
      ensures id in table ==>
        && table[id] == Row(old(table)[id].status, old(table)[id].revokedAt, table[id].tokenMinIat)
        && table[id].tokenMinIat in {old(table)[id].tokenMinIat, ts}
        && table[id].tokenMinIat >= old(table)[id].tokenMinIat && table[id].tokenMinIat >= ts
    {
      if id in table && table[id].tokenMinIat < ts {
        table := table[id := table[id].(tokenMinIat := ts)];
      }
      assert id in table ==> table == table[id := table[id]];
    }
  }
}
