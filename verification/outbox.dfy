/** Store-and-forward: one drainer over a durable first-in-first-out outbox. */
module Outbox {
  import opened Outcomes

  datatype Entry = Entry(id: nat, message: string)

  /** What the environment does during one turn of the drain loop: messages enqueued meanwhile, then the fate of the
      publish and acknowledge calls. A failed acknowledgement may or may not have removed the entry. */
  datatype Attempt = PublishFails | AckFails(removed: bool) | Delivers

  datatype Turn = Turn(arrivals: seq<string>, attempt: Attempt)

  datatype DrainReport = DrainReport(examined: nat, delivered: nat)

  /** The outbox, everything ever enqueued, and the successful publishes in order. */
  datatype State = State(queue: seq<Entry>, history: seq<Entry>, log: seq<Entry>)

  const EMPTY := State([], [], [])

  // ---------- transitions ----------

  function EnqueueAll(s: State, messages: seq<string>): State
    decreases |messages|
  {
    if messages == [] then s
    else
      var e := Entry(|s.history|, messages[0]);
      EnqueueAll(State(s.queue + [e], s.history + [e], s.log), messages[1..])
  }

  function Publish(s: State, e: Entry): State { State(s.queue, s.history, s.log + [e]) }

  /** The queue without the entries that carry `id`. */
  function Without(queue: seq<Entry>, id: nat): seq<Entry> {
    if queue == [] then [] else (if queue[0].id == id then [] else [queue[0]]) + Without(queue[1..], id)
  }

  function Acknowledge(s: State, id: nat): State { State(Without(s.queue, id), s.history, s.log) }

  /** One turn of the drain loop on entry `e`. */
  function TurnEnd(s: State, e: Entry, turn: Turn): State {
    var s1 := EnqueueAll(s, turn.arrivals);
    match turn.attempt
    case PublishFails => s1
    case AckFails(removed) => if removed then Acknowledge(Publish(s1, e), e.id) else Publish(s1, e)
    case Delivers => Acknowledge(Publish(s1, e), e.id)
  }

  /** Draining an already peeked batch; running out of turns stands for a drainer that was dropped. */
  function Drain(s: State, batch: seq<Entry>, turns: seq<Turn>): (State, nat, bool)
    decreases |batch|
  {
    if batch == [] then (s, 0, true)
    else if turns == [] then (s, 0, false)
    else
      var s1 := TurnEnd(s, batch[0], turns[0]);
      if turns[0].attempt != Delivers then (s1, 0, false)
      else
        var (s', delivered, ok) := Drain(s1, batch[1..], turns[1..]);
        (s', delivered + 1, ok)
  }

  function Peek(s: State, limit: nat): seq<Entry> { if limit <= |s.queue| then s.queue[..limit] else s.queue }

  // ---------- the invariant ----------

  /** A log with adjacent repeats collapsed. */
  function Collapse(log: seq<Entry>): seq<Entry> {
    if |log| < 2 then log
    else
      var front := Collapse(log[..|log| - 1]);
      if log[|log| - 1] == log[|log| - 2] then front else front + [log[|log| - 1]]
  }

  lemma {:induction false} CollapseLast(log: seq<Entry>)
    requires log != []
    ensures Collapse(log) != [] && Collapse(log)[|Collapse(log)| - 1] == log[|log| - 1]
  {
    if 2 <= |log| { CollapseLast(log[..|log| - 1]); }
  }

  lemma CollapseSnoc(log: seq<Entry>, e: Entry)
    ensures Collapse(log + [e]) == if log != [] && log[|log| - 1] == e then Collapse(log) else Collapse(log) + [e]
  {
    assert (log + [e])[..|log|] == log;
  }

  /** Identifiers number the history. */
  ghost predicate Numbered(history: seq<Entry>) { forall i | 0 <= i < |history| :: history[i].id == i }

  /** `gone` entries have left the outbox; the collapsed log is those entries and perhaps the one after them. */
  ghost predicate Ordered(s: State, gone: nat) {
    && gone <= |s.history|
    && s.queue == s.history[gone..]
    && (Collapse(s.log) == s.history[..gone] || (gone < |s.history| && Collapse(s.log) == s.history[..gone + 1]))
  }

  ghost predicate Inv(s: State) { Numbered(s.history) && exists gone: nat :: Ordered(s, gone) }

  function Messages(entries: seq<Entry>): seq<string> { seq(|entries|, i requires 0 <= i < |entries| => entries[i].message) }

  lemma {:induction false} EnqueueKeeps(s: State, messages: seq<string>, gone: nat)
    requires Numbered(s.history) && Ordered(s, gone)
    ensures var s' := EnqueueAll(s, messages);
            Numbered(s'.history) && Ordered(s', gone) && s.queue <= s'.queue && s.history <= s'.history && s'.log == s.log
    ensures Messages(EnqueueAll(s, messages).history) == Messages(s.history) + messages
    decreases |messages|
  {
    if messages != [] {
      var e := Entry(|s.history|, messages[0]);
      var s1 := State(s.queue + [e], s.history + [e], s.log);
      assert s1.queue == s1.history[gone..] && s1.history[..gone] == s.history[..gone];
      if gone < |s.history| { assert s1.history[..gone + 1] == s.history[..gone + 1]; }
      EnqueueKeeps(s1, messages[1..], gone);
      assert Messages(s1.history) == Messages(s.history) + [messages[0]];
      assert Messages(s.history) + [messages[0]] + messages[1..] == Messages(s.history) + messages;
    }
  }

  /** Publishing the head of the queue keeps the collapsed log a prefix of the history. */
  lemma PublishHead(s: State, gone: nat)
    requires Numbered(s.history) && Ordered(s, gone) && s.queue != []
    ensures var s' := Publish(s, s.queue[0]); Ordered(s', gone) && Collapse(s'.log) == s'.history[..gone + 1]
  {
    var e := s.queue[0];
    assert e == s.history[gone];
    CollapseSnoc(s.log, e);
    assert s.history[..gone + 1] == s.history[..gone] + [e];
    if s.log != [] { CollapseLast(s.log); }
    if Collapse(s.log) == s.history[..gone] {
      assert s.log == [] || Collapse(s.log)[|Collapse(s.log)| - 1].id == gone - 1;
    }
  }

  lemma {:induction false} WithoutAbsent(queue: seq<Entry>, id: nat)
    requires forall i | 0 <= i < |queue| :: queue[i].id != id
    ensures Without(queue, id) == queue
  {
    if queue != [] { WithoutAbsent(queue[1..], id); }
  }

  /** Acknowledging the published head removes exactly that entry. */
  lemma AcknowledgeHead(s: State, gone: nat)
    requires Numbered(s.history) && Ordered(s, gone) && s.queue != [] && Collapse(s.log) == s.history[..gone + 1]
    ensures var s' := Acknowledge(s, s.queue[0].id);
            s'.queue == s.queue[1..] && Ordered(s', gone + 1)
  {
    assert s.queue[0] == s.history[gone];
    forall i | 0 <= i < |s.queue[1..]| ensures s.queue[1..][i].id != s.queue[0].id {
      assert s.queue[1..][i] == s.history[gone + 1 + i];
    }
    WithoutAbsent(s.queue[1..], s.queue[0].id);
    assert s.queue[1..] == s.history[gone + 1..];
  }

  lemma TurnKeeps(s: State, turn: Turn, gone: nat)
    requires Numbered(s.history) && Ordered(s, gone) && s.queue != []
    ensures var s' := TurnEnd(s, s.queue[0], turn);
            && Numbered(s'.history) && s.history <= s'.history && s.log <= s'.log
            && (turn.attempt == Delivers ==> Ordered(s', gone + 1) && s.queue[1..] <= s'.queue && s'.log == s.log + [s.queue[0]])
            && (Ordered(s', gone) || Ordered(s', gone + 1))
            && Messages(s'.history) == Messages(s.history) + turn.arrivals
  {
    hide Collapse, Without, EnqueueAll, Numbered, Ordered, Messages;
    var s1 := EnqueueAll(s, turn.arrivals);
    EnqueueKeeps(s, turn.arrivals, gone);
    assert s1.queue[0] == s.queue[0];
    PublishHead(s1, gone);
    AcknowledgeHead(Publish(s1, s1.queue[0]), gone);
  }

  /** The messages that arrive during the given turns. */
  function Arriving(turns: seq<Turn>): seq<string> { if turns == [] then [] else turns[0].arrivals + Arriving(turns[1..]) }

  /** How many turns a drain with this result took: one per delivery, and the one that failed. */
  function Taken(delivered: nat, ok: bool, turns: seq<Turn>): (n: nat)
    requires delivered <= |turns|
    ensures n <= |turns|
  {
    if !ok && delivered < |turns| then delivered + 1 else delivered
  }

  /** A drain over the head of the queue keeps the order, and what it reports as delivered has left the outbox. The messages
      that arrived meanwhile are queued behind it. */
  lemma {:induction false} DrainKeeps(s: State, batch: seq<Entry>, turns: seq<Turn>, gone: nat)
    requires Numbered(s.history) && Ordered(s, gone) && batch <= s.queue
    ensures var (s', delivered, ok) := Drain(s, batch, turns);
            && Numbered(s'.history) && s.history <= s'.history && s.log <= s'.log
            && (Ordered(s', gone + delivered) || (!ok && Ordered(s', gone + delivered + 1)))
            && (ok <==> delivered == |batch|)
            && delivered <= |batch| && delivered <= |turns|
            && (ok ==> s'.log == s.log + batch)
            && Messages(s'.history) == Messages(s.history) + Arriving(turns[..Taken(delivered, ok, turns)])
    decreases |batch|
  {
    hide TurnEnd, Numbered, Ordered, Messages;
    if batch != [] && turns != [] {
      TurnKeeps(s, turns[0], gone);
      var s1 := TurnEnd(s, batch[0], turns[0]);
      assert batch[1..] <= s.queue[1..];
      if turns[0].attempt == Delivers {
        DrainKeeps(s1, batch[1..], turns[1..], gone + 1);
        var (s', delivered, ok) := Drain(s, batch, turns);
        var n := Taken(delivered, ok, turns);
        assert turns[..n][1..] == turns[1..][..n - 1];
        assert s.log + [batch[0]] + batch[1..] == s.log + batch;
        assert Messages(s.history) + turns[0].arrivals + Arriving(turns[1..][..n - 1]) == Messages(s.history) + Arriving(turns[..n]);
      } else {
        assert turns[..1][1..] == [];
        assert Arriving(turns[..1]) == turns[0].arrivals;
      }
    }
  }

  // ---------- runs ----------

  datatype Op = Enqueue(messages: seq<string>) | DrainOnce(limit: nat, turns: seq<Turn>)

  function Step(s: State, op: Op): State {
    match op
    case Enqueue(messages) => EnqueueAll(s, messages)
    case DrainOnce(limit, turns) => Drain(s, Peek(s, limit), turns).0
  }

  function Run(ops: seq<Op>): State { if ops == [] then EMPTY else Step(Run(ops[..|ops| - 1]), ops[|ops| - 1]) }

  lemma {:induction false} RunKeeps(ops: seq<Op>)
    ensures Inv(Run(ops))
  {
    hide Collapse, Drain, EnqueueAll;
    if ops == [] {
      NothingYet();
    } else {
      var s := Run(ops[..|ops| - 1]);
      RunKeeps(ops[..|ops| - 1]);
      var gone: nat :| Ordered(s, gone);
      match ops[|ops| - 1]
      case Enqueue(messages) => EnqueueKeeps(s, messages, gone);
      case DrainOnce(limit, turns) => DrainKeeps(s, Peek(s, limit), turns, gone);
    }
  }

  lemma NothingYet()
    ensures Ordered(EMPTY, 0)
  {}

  /** The messages a run enqueues, in order. */
  function Enqueued(ops: seq<Op>): seq<string> {
    if ops == [] then []
    else
      var s := Run(ops[..|ops| - 1]);
      Enqueued(ops[..|ops| - 1]) +
      match ops[|ops| - 1]
      case Enqueue(messages) => messages
      case DrainOnce(limit, turns) =>
        var (_, delivered, ok) := Drain(s, Peek(s, limit), turns);
        if delivered <= |turns| then Arriving(turns[..Taken(delivered, ok, turns)]) else []
  }

  lemma {:induction false} HistoryIsEnqueued(ops: seq<Op>)
    ensures Messages(Run(ops).history) == Enqueued(ops)
  {
    hide Collapse, Drain, EnqueueAll, Messages, Taken, Arriving;
    if ops == [] {
      assert Messages(Run(ops).history) == [] by { NoMessages(); }
    } else {
      var s := Run(ops[..|ops| - 1]);
      HistoryIsEnqueued(ops[..|ops| - 1]);
      RunKeeps(ops[..|ops| - 1]);
      var gone: nat :| Ordered(s, gone);
      match ops[|ops| - 1]
      case Enqueue(messages) => EnqueueKeeps(s, messages, gone);
      case DrainOnce(limit, turns) => DrainKeeps(s, Peek(s, limit), turns, gone);
    }
  }

  lemma NoMessages()
    ensures Messages([]) == []
  {}

  /** In every run the history is what was enqueued, in order; the collapsed publish log is a prefix of it, what is left in
      the outbox is a suffix of it, and whatever is no longer there was published. */
  lemma StoreAndForward(ops: seq<Op>)
    ensures Messages(Run(ops).history) == Enqueued(ops)
    ensures var s := Run(ops);
            && Collapse(s.log) <= s.history
            && |s.queue| <= |s.history| && s.queue == s.history[|s.history| - |s.queue|..]
            && (forall e | e in s.history && e !in s.queue :: e in s.log)
            && |s.history| - |s.queue| <= |Collapse(s.log)| <= |s.history| - |s.queue| + 1
  {
    hide Run, Messages, Enqueued, Collapse, Numbered;
    var s := Run(ops);
    RunKeeps(ops);
    HistoryIsEnqueued(ops);
    var gone: nat :| Ordered(s, gone);
    LeftWasPublished(s, gone);
  }

  lemma LeftWasPublished(s: State, gone: nat)
    requires Ordered(s, gone)
    ensures forall e | e in s.history && e !in s.queue :: e in s.log
  {
    hide Collapse;
    forall e | e in s.history && e !in s.queue ensures e in s.log {
      assert s.history == s.history[..gone] + s.queue;
      var i :| 0 <= i < gone && s.history[i] == e;
      assert Collapse(s.log)[i] == e;
      CollapseWithin(s.log, i);
    }
  }

  lemma {:induction false} CollapseWithin(log: seq<Entry>, i: nat)
    requires i < |Collapse(log)|
    ensures Collapse(log)[i] in log
  {
    if 2 <= |log| {
      var front := log[..|log| - 1];
      if i < |Collapse(front)| { CollapseWithin(front, i); }
    }
  }

  // ---------- the imperative drain ----------

  class Forwarder {
    var queue: seq<Entry>
    var log: seq<Entry>
    ghost var history: seq<Entry>
    var next: nat

    ghost function View(): State
      reads this
    {
      State(queue, history, log)
    }

    ghost predicate Valid()
      reads this
    {
      next == |history|
    }

    constructor ()
      ensures Valid() && View() == EMPTY
    {
      queue, log, history, next := [], [], [], 0;
    }

    method EnqueueMessages(messages: seq<string>)
      requires Valid()
      modifies this
      ensures Valid() && View() == EnqueueAll(old(View()), messages)
    {
      ghost var start := View();
      var i := 0;
      while i < |messages|
        invariant i <= |messages| && Valid()
        invariant EnqueueAll(View(), messages[i..]) == EnqueueAll(start, messages)
      {
        var e := Entry(next, messages[i]);
        assert messages[i..][1..] == messages[i + 1..];
        queue, history, next := queue + [e], history + [e], next + 1;
        i := i + 1;
      }
    }

    /** Removes the entries that carry `id` and returns how many there were. */
    method Remove(id: nat) returns (removed: nat)
      requires Valid()
      modifies this
      ensures Valid() && View() == Acknowledge(old(View()), id) && removed == |old(queue)| - |queue|
    {
      var kept, i := [], 0;
      while i < |queue|
        invariant i <= |queue| && |kept| <= i && kept + Without(queue[i..], id) == Without(queue, id)
      {
        assert queue[i..][1..] == queue[i + 1..];
        if queue[i].id != id { kept := kept + [queue[i]]; }
        i := i + 1;
      }
      removed := |queue| - |kept|;
      queue := kept;
    }

    /** Publishes and acknowledges the head of the queue, unless the environment lets a call fail. */
    method TakeTurn(e: Entry, turn: Turn) returns (ok: bool)
      requires Valid() && queue != [] && queue[0] == e && Numbered(history) && exists gone: nat :: Ordered(View(), gone)
      modifies this
      ensures Valid() && View() == TurnEnd(old(View()), e, turn) && (ok <==> turn.attempt == Delivers)
    {
      hide EnqueueAll, Collapse, Without, Numbered, Ordered;
      ghost var gone: nat :| Ordered(View(), gone);
      EnqueueKeeps(View(), turn.arrivals, gone);
      EnqueueMessages(turn.arrivals);
      if turn.attempt == PublishFails { return false; }
      PublishHead(View(), gone);
      log := log + [e];
      AcknowledgeHead(View(), gone);
      if turn.attempt == AckFails(false) { return false; }
      var removed := Remove(e.id);
      if turn.attempt == AckFails(true) { return false; }
      return removed == 1;
    }

    /** One drain pass: publish, acknowledge, count; the first failure ends it. A pass that ends without one published the
        oldest entries, at most `limit` of them, in order. */
    method DrainPass(limit: nat, turns: seq<Turn>) returns (r: Option<DrainReport>)
      requires Valid() && Inv(View())
      modifies this
      ensures Valid() && Inv(View())
      ensures var batch := Peek(old(View()), limit);
              var (s', delivered, ok) := Drain(old(View()), batch, turns);
              View() == s' && r == if ok then Some(DrainReport(|batch|, delivered)) else None
      ensures var n := if limit <= |old(queue)| then limit else |old(queue)|;
              r.Some? ==> r == Some(DrainReport(n, n)) && log == old(log) + old(queue)[..n]
    {
      hide Inv, Drain, TurnEnd, Numbered, Ordered;
      ghost var start := View();
      var entries := if limit <= |queue| then queue[..limit] else queue;
      PassKeeps(start, limit, turns);
      var delivered := 0;
      ghost var gone: nat := Settled(start);
      assert entries[0..] == entries && turns[0..] == turns;
      while delivered < |entries|
        invariant delivered <= |entries| && Valid() && Numbered(history) && Ordered(View(), gone + delivered)
        invariant entries[delivered..] <= queue && delivered <= |turns|
        invariant SameEnd(start, entries, turns, View(), delivered)
      {
        ghost var now, batch, rest := View(), entries[delivered..], turns[delivered..];
        DrainUnfolds(now, batch, rest);
        if delivered == |turns| { return None; }
        assert queue[0] == entries[delivered];
        TurnKeeps(now, turns[delivered], gone + delivered);
        var ok := TakeTurn(entries[delivered], turns[delivered]);
        if !ok { return None; }
        assert batch[1..] == entries[delivered + 1..] && rest[1..] == turns[delivered + 1..] && batch[1..] <= now.queue[1..];
        delivered := delivered + 1;
      }
      DrainUnfolds(View(), entries[delivered..], turns[delivered..]);
      assert old(queue)[..|old(queue)|] == old(queue);
      return Some(DrainReport(|entries|, delivered));
    }
  }

  /** How many entries have left. */
  ghost function Settled(s: State): (gone: nat)
    requires Inv(s)
    ensures Ordered(s, gone) && Numbered(s.history)
  {
    var gone: nat :| Ordered(s, gone); gone
  }

  /** The drain of the whole batch ends where the drain of the rest does. */
  ghost predicate SameEnd(start: State, batch: seq<Entry>, turns: seq<Turn>, now: State, done: nat)
    requires done <= |batch| && done <= |turns|
  {
    var (s', delivered, ok) := Drain(start, batch, turns);
    var (t', rest, fine) := Drain(now, batch[done..], turns[done..]);
    s' == t' && delivered == done + rest && ok == fine
  }

  lemma DrainUnfolds(s: State, batch: seq<Entry>, turns: seq<Turn>)
    ensures batch == [] ==> Drain(s, batch, turns) == (s, 0, true)
    ensures batch != [] && turns == [] ==> Drain(s, batch, turns) == (s, 0, false)
    ensures batch != [] && turns != [] ==>
              var s1 := TurnEnd(s, batch[0], turns[0]);
              var (s', delivered, ok) := Drain(s1, batch[1..], turns[1..]);
              Drain(s, batch, turns) == if turns[0].attempt == Delivers then (s', delivered + 1, ok) else (s1, 0, false)
  {
    hide TurnEnd;
  }

  lemma PassKeeps(s: State, limit: nat, turns: seq<Turn>)
    requires Inv(s)
    ensures Inv(Drain(s, Peek(s, limit), turns).0)
    ensures Drain(s, Peek(s, limit), turns).2 ==> Drain(s, Peek(s, limit), turns).0.log == s.log + Peek(s, limit)
  {
    hide Drain, Collapse;
    DrainKeeps(s, Peek(s, limit), turns, Settled(s));
  }
}
