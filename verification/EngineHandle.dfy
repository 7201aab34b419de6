/**
 The engine worker (`engine_handle.rs`): many cloned handles send requests over one bounded channel to a
 single thread that owns the engine. The engine itself is an uninterpreted function of state and command.
 */
module EngineHandle {
  import opened Text

  datatype Command =
    | ListTables(database: string, schema: string)
    | ExecuteSql(sql: string)
    | RecordQueryHistory(tenant: string, warehouse: string, sql: string, duration: int, rows: int, status: string)
    | ListTenants
    | CreateTenant(name: string)
    | GetTenant(id: string)
    | RegisterParquet(name: string, path: string)
  {
    /** Query history is recorded without a reply channel. */
    predicate WantsReply() {
      !RecordQueryHistory?
    }
  }

  /** A message with the request it belongs to; each request has its own reply channel. */
  datatype Message = Message(id: nat, command: Command)

  const CAPACITY := 64

  type Exec<!E, !R> = (E, Command) -> (E, R)

  /** The engine after running messages one after the other. */
  function ExecAll<E, R>(exec: Exec<E, R>, start: E, log: seq<Message>): E {
    if log == [] then start else exec(ExecAll(exec, start, log[..|log| - 1]), log[|log| - 1].command).0
  }

  /** What the `k`-th message answers when the earlier ones have been run in order. */
  function ReplyAt<E, R>(exec: Exec<E, R>, start: E, log: seq<Message>, k: nat): R
    requires k < |log|
  {
    exec(ExecAll(exec, start, log[..k]), log[k].command).1
  }

  // ---- All interleavings ----

  /**
   The whole system. `waiting` are sends not yet taken, `log` is every message ever taken, of which the
   first `processed` have been run; `abandoned` are requests whose caller has gone away.
   */
  datatype System<E, R> = System(
    engine: E, queue: seq<Message>, waiting: map<nat, Command>, replies: map<nat, R>, delivered: map<nat, R>,
    invoked: set<nat>, abandoned: set<nat>, log: seq<Message>, processed: nat)

  function Start<E, R>(engine: E): System<E, R> {
    System(engine, [], map[], map[], map[], {}, {}, [], 0)
  }

  datatype Event =
    | Invoke(id: nat, command: Command)
    | Accept(id: nat)
    | Process
    | Deliver(id: nat)
    | Abandon(id: nat)

  /** One event, if it can happen. */
  function Step<E, R>(exec: Exec<E, R>, st: System<E, R>, ev: Event): Option<System<E, R>> {
    match ev
    case Invoke(id, command) =>
      if id in st.invoked then None
      else Some(st.(invoked := st.invoked + {id}, waiting := st.waiting[id := command]))
    case Accept(id) =>
      if id !in st.waiting || |st.queue| >= CAPACITY then None
      else
        var m := Message(id, st.waiting[id]);
        Some(st.(queue := st.queue + [m], log := st.log + [m], waiting := st.waiting - {id}))
    case Process =>
      if st.queue == [] then None
      else
        var m := st.queue[0];
        var (next, reply) := exec(st.engine, m.command);
        var answers := m.command.WantsReply() && m.id !in st.abandoned;
        Some(st.(queue := st.queue[1..], engine := next, processed := st.processed + 1,
                 replies := if answers then st.replies[m.id := reply] else st.replies))
    case Deliver(id) =>
      if id !in st.replies || id in st.delivered || id in st.abandoned then None
      else Some(st.(delivered := st.delivered[id := st.replies[id]]))
    case Abandon(id) =>
      if id !in st.invoked then None
      else Some(st.(abandoned := st.abandoned + {id}, waiting := st.waiting - {id}))
  }

  function Run<E, R>(exec: Exec<E, R>, st: System<E, R>, events: seq<Event>): Option<System<E, R>>
    decreases |events|
  {
    if events == [] then Some(st)
    else
      var next := Step(exec, st, events[0]);
      if next.None? then None else Run(exec, next.value, events[1..])
  }

  // ---- The worker ----

  /**
   The worker is the part of the system that the program's loop changes: the engine, the channel and the
   replies. Each of its methods is proved to take the step of the system that it stands for.
   */
  class Worker<E(!new), R(!new)> {
    const exec: Exec<E, R>
    var engine: E
    var queue: seq<Message>
    var replies: map<nat, R>

    /** The worker's part of a system is as the system says. */
    ghost predicate Shows(st: System<E, R>)
      reads this
    {
      engine == st.engine && queue == st.queue && replies == st.replies
    }

    /** The worker brings the materialized views back before it takes the first message. */
    constructor (exec: Exec<E, R>, registerViews: E -> E, engine: E)
      ensures this.exec == exec && Shows(Start(registerViews(engine)))
    {
      this.exec := exec;
      this.engine := registerViews(engine);
      queue, replies := [], map[];
    }

    /** A send is taken exactly when the system can accept it; otherwise the sender has to wait. */
    method TrySend(m: Message, ghost st: System<E, R>) returns (taken: bool, ghost next: System<E, R>)
      requires Shows(st) && m.id in st.waiting && st.waiting[m.id] == m.command
      modifies this`queue
      ensures taken == Step(exec, st, Accept(m.id)).Some?
      ensures if taken then Step(exec, st, Accept(m.id)) == Some(next) else next == st
      ensures Shows(next)
    {
      next := st;
      taken := |queue| < CAPACITY;
      if taken {
        queue := queue + [m];
        next := Step(exec, st, Accept(m.id)).value;
      }
    }

    /** One turn of the loop; the reply to a caller that has gone away is thrown away. */
    method Receive(gone: bool, ghost st: System<E, R>) returns (ghost next: System<E, R>)
      requires Shows(st) && queue != [] && gone == (queue[0].id in st.abandoned)
      modifies this
      ensures Step(exec, st, Process) == Some(next) && Shows(next)
    {
      var m := queue[0];
      queue := queue[1..];
      var (engine', reply) := exec(engine, m.command);
      engine := engine';
      if m.command.WantsReply() && !gone {
        replies := replies[m.id := reply];
      }
      next := Step(exec, st, Process).value;
    }

    /**
     Running until the channel is empty takes one step of the system for every message in it: it runs the
     queued messages in order and answers each as it runs.
     */
    method Loop(gone: set<nat>, ghost st: System<E, R>) returns (ghost next: System<E, R>)
      requires Shows(st) && gone == st.abandoned
      modifies this
      ensures Run(exec, st, seq(|old(queue)|, _ => Process)) == Some(next)
      ensures Shows(next) && queue == [] && engine == ExecAll(exec, old(engine), old(queue))
      ensures Distinct(old(queue)) ==>
        forall k :: 0 <= k < |old(queue)| && !old(queue)[k].command.RecordQueryHistory? && old(queue)[k].id !in gone ==>
          old(queue)[k].id in replies && replies[old(queue)[k].id] == ReplyAt(exec, old(engine), old(queue), k)
      ensures forall id :: id in old(replies) && (forall k :: 0 <= k < |old(queue)| ==> old(queue)[k].id != id) ==>
        id in replies && replies[id] == old(replies)[id]
    {
      hide ExecAll;
      next := st;
      ghost var n, all := 0, queue;
      while queue != []
        invariant n <= |all| && queue == all[n..] && Shows(next) && next.abandoned == gone
        invariant Run(exec, st, seq(n, _ => Process)) == Some(next)
        decreases |queue|
      {
        ghost var before := next;
        next := Receive(queue[0].id in gone, next);
        StepAppends(exec, st, seq(n, _ => Process), before, Process);
        n := n + 1;
        assert seq(n, _ => Process) == seq(n - 1, _ => Process) + [Process];
      }
      Drained(exec, st, n);
      assert all[..n] == all;
    }
  }

  /** Processing `n` waiting messages runs them in order and answers each as it runs. */
  lemma {:induction false} Drained<E(!new), R(!new)>(exec: Exec<E, R>, st: System<E, R>, n: nat)
    requires n <= |st.queue|
    ensures var all, r := st.queue, Run(exec, st, seq(n, _ => Process));
      && r.Some? && r.value.queue == all[n..] && r.value.abandoned == st.abandoned
      && r.value.engine == ExecAll(exec, st.engine, all[..n])
      && (Distinct(all) ==> forall k :: 0 <= k < n && !all[k].command.RecordQueryHistory? && all[k].id !in st.abandoned ==>
            all[k].id in r.value.replies && r.value.replies[all[k].id] == ReplyAt(exec, st.engine, all, k))
      && (forall id :: id in st.replies && (forall k :: 0 <= k < |all| ==> all[k].id != id) ==>
            id in r.value.replies && r.value.replies[id] == st.replies[id])
  {
    if n > 0 {
      Drained(exec, st, n - 1);
      var before := Run(exec, st, seq(n - 1, _ => Process)).value;
      assert seq(n, _ => Process) == seq(n - 1, _ => Process) + [Process];
      StepAppends(exec, st, seq(n - 1, _ => Process), before, Process);
      hide Run;
      assert before.queue[0] == st.queue[n - 1] && st.queue[..n][..n - 1] == st.queue[..n - 1];
      assert before.queue[1..] == st.queue[n..];
    }
  }

  ghost predicate Answered<E(!new), R(!new)>(exec: Exec<E, R>, start: E, st: System<E, R>, id: nat, reply: R, k: nat) {
    && k < st.processed <= |st.log| && st.log[k].id == id && !st.log[k].command.RecordQueryHistory?
    && reply == ReplyAt(exec, start, st.log, k)
  }

  /** The channel holds the taken messages that have not been run, and the engine has run the others in order. */
  ghost predicate Ordered<E(!new), R(!new)>(exec: Exec<E, R>, start: E, st: System<E, R>) {
    && st.processed <= |st.log| && st.queue == st.log[st.processed..] && |st.queue| <= CAPACITY
    && st.engine == ExecAll(exec, start, st.log[..st.processed])
  }

  ghost predicate Distinct(log: seq<Message>) {
    forall i, j :: 0 <= i < j < |log| ==> log[i].id != log[j].id
  }

  /** Every request is taken at most once, and only after it was made. */
  ghost predicate Tracked<E(!new), R(!new)>(st: System<E, R>) {
    && Distinct(st.log)
    && (forall i :: 0 <= i < |st.log| ==> st.log[i].id in st.invoked && st.log[i].id !in st.waiting)
    && (forall id :: id in st.waiting ==> id in st.invoked)
  }

  /** Replies are the sequential answers; every run message whose caller is there has its reply. */
  ghost predicate Faithful<E(!new), R(!new)>(exec: Exec<E, R>, start: E, st: System<E, R>) {
    && st.processed <= |st.log|
    && (forall id :: id in st.replies ==> exists k: nat :: Answered(exec, start, st, id, st.replies[id], k))
    && (forall id :: id in st.delivered ==> id in st.replies && st.delivered[id] == st.replies[id])
    && (forall k :: 0 <= k < st.processed && !st.log[k].command.RecordQueryHistory? && st.log[k].id !in st.abandoned ==>
          st.log[k].id in st.replies)
  }

  ghost predicate Inv<E(!new), R(!new)>(exec: Exec<E, R>, start: E, st: System<E, R>) {
    Ordered(exec, start, st) && Tracked(st) && Faithful(exec, start, st)
  }

  lemma AcceptKeepsInv<E(!new), R(!new)>(exec: Exec<E, R>, start: E, st: System<E, R>, id: nat)
    requires Inv(exec, start, st) && Step(exec, st, Accept(id)).Some?
    ensures Inv(exec, start, Step(exec, st, Accept(id)).value)
  {
    var next := Step(exec, st, Accept(id)).value;
    assert next.log[..st.processed] == st.log[..st.processed];
    assert Tracked(next) by {
      hide Ordered, Faithful;
    }
    assert Faithful(exec, start, next) by {
      hide Tracked, ExecAll;
      forall r | r in next.replies
        ensures exists k: nat :: Answered(exec, start, next, r, next.replies[r], k)
      {
        var k: nat :| Answered(exec, start, st, r, st.replies[r], k);
        assert next.log[..k] == st.log[..k];
        assert Answered(exec, start, next, r, next.replies[r], k);
      }
    }
  }

  lemma ProcessKeepsInv<E(!new), R(!new)>(exec: Exec<E, R>, start: E, st: System<E, R>)
    requires Inv(exec, start, st) && Step(exec, st, Process).Some?
    ensures Inv(exec, start, Step(exec, st, Process).value)
    ensures st.queue[0].id !in st.replies
  {
    hide Ordered, Faithful, Tracked, ExecAll;
    FirstIsUnanswered(exec, start, st);
    ProcessKeepsOrder(exec, start, st);
    ProcessKeepsTracks(exec, st);
    ProcessKeepsReplies(exec, start, st);
  }

  lemma ProcessKeepsTracks<E(!new), R(!new)>(exec: Exec<E, R>, st: System<E, R>)
    requires Tracked(st) && st.queue != []
    ensures Tracked(Step(exec, st, Process).value)
  {
  }

  lemma ProcessKeepsOrder<E(!new), R(!new)>(exec: Exec<E, R>, start: E, st: System<E, R>)
    requires Ordered(exec, start, st) && st.queue != []
    ensures Ordered(exec, start, Step(exec, st, Process).value)
  {
    var next, p := Step(exec, st, Process).value, st.processed;
    assert st.queue[0] == st.log[p];
    assert next.log[..p + 1][..p] == st.log[..p];
  }

  lemma ProcessKeepsReplies<E(!new), R(!new)>(exec: Exec<E, R>, start: E, st: System<E, R>)
    requires Ordered(exec, start, st) && Faithful(exec, start, st) && st.queue != []
    requires st.queue[0].id !in st.replies
    ensures Faithful(exec, start, Step(exec, st, Process).value)
  {
    hide ExecAll, ReplyAt;
    var next := Step(exec, st, Process).value;
    assert st.queue[0] == st.log[st.processed];
    ProcessAnswers(exec, start, st);
    RepliesStay(exec, start, st, next);
    hide Answered;
  }

  /** The message at the head of the channel has no reply yet. */
  lemma FirstIsUnanswered<E(!new), R(!new)>(exec: Exec<E, R>, start: E, st: System<E, R>)
    requires Inv(exec, start, st) && st.queue != []
    ensures st.queue[0].id !in st.replies
  {
    hide ExecAll, ReplyAt;
    var id := st.queue[0].id;
    assert st.queue[0] == st.log[st.processed];
  }

  lemma ProcessAnswers<E(!new), R(!new)>(exec: Exec<E, R>, start: E, st: System<E, R>)
    requires Ordered(exec, start, st) && st.queue != []
    ensures var next, id := Step(exec, st, Process).value, st.queue[0].id;
      id in next.replies && id !in st.replies ==> Answered(exec, start, next, id, next.replies[id], st.processed)
  {
    hide ExecAll;
    assert st.queue[0] == st.log[st.processed];
  }

  /** The replies given before a step that leaves the log as it is are still the sequential answers. */
  lemma RepliesStay<E(!new), R(!new)>(exec: Exec<E, R>, start: E, st: System<E, R>, next: System<E, R>)
    requires Faithful(exec, start, st) && next.log == st.log && st.processed <= next.processed <= |next.log|
    ensures forall id :: id in st.replies ==> exists k: nat :: Answered(exec, start, next, id, st.replies[id], k)
  {
    hide ReplyAt;
    forall id | id in st.replies
      ensures exists k: nat :: Answered(exec, start, next, id, st.replies[id], k)
    {
      var k: nat :| Answered(exec, start, st, id, st.replies[id], k);
      assert Answered(exec, start, next, id, st.replies[id], k);
    }
  }

  /** The callers' own steps: making a request, taking its answer and giving it up. */
  lemma CallerKeepsInv<E(!new), R(!new)>(exec: Exec<E, R>, start: E, st: System<E, R>, ev: Event)
    requires Inv(exec, start, st) && Step(exec, st, ev).Some? && !ev.Accept? && !ev.Process?
    ensures Inv(exec, start, Step(exec, st, ev).value)
  {
    hide ExecAll;
    var next := Step(exec, st, ev).value;
    assert Tracked(next) by {
      hide Ordered, Faithful;
    }
    assert Ordered(exec, start, next) by {
      hide Tracked, Faithful;
    }
    RepliesStay(exec, start, st, next);
    hide Tracked, Ordered, Distinct, Answered;
  }

  lemma StepKeepsInv<E(!new), R(!new)>(exec: Exec<E, R>, start: E, st: System<E, R>, ev: Event)
    requires Inv(exec, start, st) && Step(exec, st, ev).Some?
    ensures Inv(exec, start, Step(exec, st, ev).value)
  {
    match ev
    case Accept(id) => AcceptKeepsInv(exec, start, st, id);
    case Process => ProcessKeepsInv(exec, start, st);
    case _ => CallerKeepsInv(exec, start, st, ev);
  }

  /** Time only adds: messages are taken at the end of the log, and a reply, once given, never changes. */
  ghost predicate Extends<E(!new), R(!new)>(before: System<E, R>, after: System<E, R>) {
    && before.log <= after.log && before.processed <= after.processed && before.invoked <= after.invoked
    && (forall id :: id in before.replies ==> id in after.replies && after.replies[id] == before.replies[id])
    && (forall id :: id in before.delivered ==> id in after.delivered && after.delivered[id] == before.delivered[id])
  }

  lemma StepExtends<E(!new), R(!new)>(exec: Exec<E, R>, start: E, st: System<E, R>, ev: Event)
    requires Inv(exec, start, st) && Step(exec, st, ev).Some?
    ensures Extends(st, Step(exec, st, ev).value)
  {
    if ev.Process? {
      ProcessKeepsInv(exec, start, st);
    }
  }

  lemma {:induction false} RunKeepsInv<E(!new), R(!new)>(exec: Exec<E, R>, start: E, st: System<E, R>, events: seq<Event>)
    requires Inv(exec, start, st) && Run(exec, st, events).Some?
    ensures Inv(exec, start, Run(exec, st, events).value) && Extends(st, Run(exec, st, events).value)
    decreases |events|
  {
    hide Inv, Step;
    if events != [] {
      var next := Step(exec, st, events[0]).value;
      StepKeepsInv(exec, start, st, events[0]);
      StepExtends(exec, start, st, events[0]);
      RunKeepsInv(exec, start, next, events[1..]);
    }
  }

  lemma {:induction false} RunAppend<E(!new), R(!new)>(exec: Exec<E, R>, st: System<E, R>, a: seq<Event>, b: seq<Event>)
    ensures Run(exec, st, a + b) == if Run(exec, st, a).Some? then Run(exec, Run(exec, st, a).value, b) else None
    decreases |a|
  {
    hide Step;
    if a == [] {
      assert a + b == b;
    } else {
      assert (a + b)[0] == a[0] && (a + b)[1..] == a[1..] + b;
      if Step(exec, st, a[0]).Some? {
        RunAppend(exec, Step(exec, st, a[0]).value, a[1..], b);
      }
    }
  }

  lemma StepAppends<E(!new), R(!new)>(exec: Exec<E, R>, st: System<E, R>, events: seq<Event>, mid: System<E, R>, ev: Event)
    requires Run(exec, st, events) == Some(mid)
    ensures Run(exec, st, events + [ev]) == Step(exec, mid, ev)
  {
    hide Step;
    RunAppend(exec, st, events, [ev]);
    assert [ev][1..] == [];
  }

  /**
   Linearizability. In every interleaving there is one order, the order in which the channel took the
   messages, such that every reply is the engine's answer after running all earlier messages one by one;
   no request runs twice; and the channel never holds more than 64 messages.
   */
  lemma RepliesAreSequential<E(!new), R(!new)>(exec: Exec<E, R>, start: E, events: seq<Event>)
    requires Run(exec, Start<E, R>(start), events).Some?
    ensures var st := Run(exec, Start<E, R>(start), events).value;
      && |st.queue| <= CAPACITY && st.processed <= |st.log|
      && Distinct(st.log)
      && st.engine == ExecAll(exec, start, st.log[..st.processed])
      && (forall id :: id in st.delivered ==> exists k: nat :: Answered(exec, start, st, id, st.delivered[id], k))
      && (forall k :: 0 <= k < st.processed && !st.log[k].command.RecordQueryHistory? && st.log[k].id !in st.abandoned ==>
            st.log[k].id in st.replies && st.replies[st.log[k].id] == ReplyAt(exec, start, st.log, k))
  {
    var init: System<E, R> := Start(start);
    assert Inv(exec, start, init);
    RunKeepsInv(exec, start, init, events);
    var st := Run(exec, init, events).value;
    forall k | 0 <= k < st.processed && !st.log[k].command.RecordQueryHistory? && st.log[k].id !in st.abandoned
      ensures st.log[k].id in st.replies && st.replies[st.log[k].id] == ReplyAt(exec, start, st.log, k)
    {
      var id := st.log[k].id;
      var j: nat :| Answered(exec, start, st, id, st.replies[id], j);
    }
  }

  /**
   Real-time order. If request `x` was taken before request `y` was made (its sender has seen the send,
   or the reply, come back), then `y` runs after `x`: every message run before `y` includes `x`.
   */
  lemma TakenBeforeMadeRunsBefore<E(!new), R(!new)>(
    exec: Exec<E, R>, start: E, before: seq<Event>, after: seq<Event>, x: nat, i: nat, y: nat, j: nat)
    requires Run(exec, Start<E, R>(start), before + after).Some?
    requires var mid := Run(exec, Start<E, R>(start), before);
      mid.Some? && i < |mid.value.log| && mid.value.log[i].id == x && y !in mid.value.invoked
    requires var st := Run(exec, Start<E, R>(start), before + after).value; j < |st.log| && st.log[j].id == y
    ensures var st := Run(exec, Start<E, R>(start), before + after).value;
      && i < j && st.log[i].id == x
      && (forall k :: 0 <= k < |st.log| && st.log[k].id == x ==> k < j)
  {
    hide Run, Step;
    var init: System<E, R> := Start(start);
    StartKeepsInv<E, R>(exec, start);
    RunAppend(exec, init, before, after);
    RunKeepsInv(exec, start, init, before);
    var mid := Run(exec, init, before).value;
    RunKeepsInv(exec, start, mid, after);
    var st := Run(exec, mid, after).value;
    assert forall k :: 0 <= k < |mid.log| ==> st.log[k] == mid.log[k];
    assert forall k :: 0 <= k < |mid.log| ==> mid.log[k].id in mid.invoked;
  }

  lemma StartKeepsInv<E(!new), R(!new)>(exec: Exec<E, R>, start: E)
    ensures Inv(exec, start, Start<E, R>(start))
  {
  }

  // ---- Every step ----

  /**
   What every event needs and does: a request is made once; it is taken while fewer than 64 messages wait; the oldest
   is run, and answered if it wants that and its caller is there; an answer is delivered once, to a caller that is there.
   */
  lemma StepsAre<E(!new), R(!new)>(exec: Exec<E, R>, st: System<E, R>, id: nat, command: Command)
    ensures Step(exec, st, Invoke(id, command)) ==
      if id in st.invoked then None
      else Some(System(st.engine, st.queue, st.waiting[id := command], st.replies, st.delivered, st.invoked + {id},
                       st.abandoned, st.log, st.processed))
    ensures Step(exec, st, Accept(id)) ==
      if id !in st.waiting || |st.queue| >= 64 then None
      else Some(System(st.engine, st.queue + [Message(id, st.waiting[id])], st.waiting - {id}, st.replies, st.delivered,
                       st.invoked, st.abandoned, st.log + [Message(id, st.waiting[id])], st.processed))
    ensures Step(exec, st, Process) ==
      if st.queue == [] then None
      else
        var m := st.queue[0];
        var (engine, reply) := exec(st.engine, m.command);
        Some(System(engine, st.queue[1..], st.waiting,
                    if m.command.RecordQueryHistory? || m.id in st.abandoned then st.replies else st.replies[m.id := reply],
                    st.delivered, st.invoked, st.abandoned, st.log, st.processed + 1))
    ensures Step(exec, st, Deliver(id)) ==
      if id in st.replies && id !in st.delivered && id !in st.abandoned
      then Some(st.(delivered := st.delivered[id := st.replies[id]])) else None
    ensures Step(exec, st, Abandon(id)) ==
      if id in st.invoked then Some(st.(abandoned := st.abandoned + {id}, waiting := st.waiting - {id})) else None
  {
  }
}
