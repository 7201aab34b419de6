/**
 Overlapping completions of an OIDC login (`complete_oidc_login`). The lock is taken to read the
 transaction and again to mark it consumed, and the update does not look at the mark, so that other calls
 can come in between.
 */
module OidcOverlap {
  import opened OidcLogin

  /** How far an attempt to complete has come. */
  datatype Attempt =
    | HasRead(state: string, tx: Transaction, verifier: string, claims: Claims)
    | Passed(state: string, session: Session)
    | Completed(state: string, session: Session)
    | Failed

  datatype Shared = Shared(store: Store, attempts: map<nat, Attempt>)

  /** The calls that are one step each, and the three steps of an attempt: read, check, mark as consumed. */
  datatype Event =
    | Call(op: Op)
    | Read(id: nat, state: string, verifier: string, claims: Claims)
    | Check(id: nat)
    | Mark(id: nat)

  function Step(sh: Shared, ev: Event): Shared {
    match ev
    case Call(op) => if op.CompleteOp? then sh else sh.(store := Apply(sh.store, op))
    case Read(id, state, verifier, claims) =>
      if id in sh.attempts then sh
      else if !Pending(sh.store, state) then sh.(attempts := sh.attempts[id := Failed])
      else sh.(attempts := sh.attempts[id := HasRead(state, sh.store.transactions[state], verifier, claims)])
    case Check(id) =>
      if id !in sh.attempts || !sh.attempts[id].HasRead? then sh
      else
        var at := sh.attempts[id];
        var r := Judge(sh.store, at.tx, at.verifier, at.claims);
        sh.(attempts := sh.attempts[id := if r.Ok? then Passed(at.state, r.value) else Failed])
    case Mark(id) =>
      if id !in sh.attempts || !sh.attempts[id].Passed? then sh
      else
        var at := sh.attempts[id];
        Shared(if at.state in sh.store.transactions then Consume(sh.store, at.state) else sh.store,
               sh.attempts[id := Completed(at.state, at.session)])
  }

  /** The state before the `k`-th event. */
  function Before(init: Shared, events: seq<Event>, k: nat): Shared
    requires k <= |events|
  {
    if k == 0 then init else Step(Before(init, events, k - 1), events[k - 1])
  }

  /** Event `k` completes attempt `id` of the login of `state`. */
  predicate CompletesHere(init: Shared, events: seq<Event>, k: nat, id: nat, state: string)
    requires k < |events|
  {
    var sh := Before(init, events, k);
    events[k] == Mark(id) && id in sh.attempts && sh.attempts[id].Passed? && sh.attempts[id].state == state
  }

  /** Run without interruption, the three steps are the atomic completion. */
  lemma UninterruptedIsAtomic(sh: Shared, id: nat, state: string, verifier: string, claims: Claims)
    requires id !in sh.attempts
    ensures var (next, r) := Complete(sh.store, state, verifier, claims);
      Step(Step(Step(sh, Read(id, state, verifier, claims)), Check(id)), Mark(id))
        == Shared(next, sh.attempts[id := if r.Ok? then Completed(state, r.value) else Failed])
  {
    hide Judge;
    var r := Complete(sh.store, state, verifier, claims).1;
    var last := if r.Ok? then Completed(state, r.value) else Failed;
    var first := Step(sh, Read(id, state, verifier, claims)).attempts[id];
    var middle := Step(Step(sh, Read(id, state, verifier, claims)), Check(id)).attempts[id];
    assert sh.attempts[id := first][id := middle] == sh.attempts[id := middle];
    assert sh.attempts[id := middle][id := last] == sh.attempts[id := last];
  }

  // ---- What an attempt depends on ----

  /** The event is one of the attempt. */
  predicate Of(ev: Event, id: nat) {
    !ev.Call? && ev.id == id
  }

  lemma {:induction false} AttemptStays(init: Shared, events: seq<Event>, i: nat, j: nat, id: nat)
    requires i <= j <= |events| && forall k :: i <= k < j ==> !Of(events[k], id)
    ensures id in Before(init, events, i).attempts <==> id in Before(init, events, j).attempts
    ensures id in Before(init, events, i).attempts ==>
      Before(init, events, j).attempts[id] == Before(init, events, i).attempts[id]
  {
    hide Apply, Judge, Consume;
    if i < j {
      AttemptStays(init, events, i, j - 1, id);
      assert !Of(events[j - 1], id);
    }
  }

  /**
   An attempt that reads at `r`, checks at `c` and marks at `m` completes exactly when the login was pending
   at its read and its checks passed. What others did to the transaction since its read does not matter.
   */
  lemma AttemptCompletesIff(init: Shared, events: seq<Event>, r: nat, c: nat, m: nat, id: nat,
                            state: string, verifier: string, claims: Claims)
    requires init.attempts == map[] && r < c < m < |events|
    requires events[r] == Read(id, state, verifier, claims) && events[c] == Check(id) && events[m] == Mark(id)
    requires forall k :: 0 <= k < m && k != r && k != c ==> !Of(events[k], id)
    ensures CompletesHere(init, events, m, id, state) <==>
      Pending(Before(init, events, r).store, state)
      && Judge(Before(init, events, c).store, Before(init, events, r).store.transactions[state], verifier, claims).Ok?
  {
    hide Judge, Apply;
    AttemptStays(init, events, 0, r, id);
    AttemptStays(init, events, r + 1, c, id);
    AttemptStays(init, events, c + 1, m, id);
  }

  // ---- Reading after another attempt has completed ----

  /** No two starts use the same state. */
  predicate FreshStates(events: seq<Event>) {
    forall i, j :: 0 <= i < j < |events| && StartsState(events[i]) && StartsState(events[j]) ==>
      events[i].op.state != events[j].op.state
  }

  predicate StartsState(ev: Event) {
    ev.Call? && ev.op.StartOp?
  }

  /** The login of `state` was started before event `k`. */
  ghost predicate Started(events: seq<Event>, k: nat, state: string)
    requires k <= |events|
  {
    exists s :: 0 <= s < k && StartsState(events[s]) && events[s].op.state == state
  }

  predicate IsFor(at: Attempt, state: string) {
    !at.Failed? && at.state == state
  }

  /** Transactions and attempts come from starts. */
  lemma {:induction false} ComesFromStart(init: Shared, events: seq<Event>, k: nat, state: string)
    requires init.store.transactions == map[] && init.attempts == map[] && k <= |events|
    ensures state in Before(init, events, k).store.transactions ==> Started(events, k, state)
    ensures forall id :: id in Before(init, events, k).attempts && IsFor(Before(init, events, k).attempts[id], state) ==>
      Started(events, k, state)
  {
    hide Judge, KeepOthers, InsertMapping, Accepted;
    if k > 0 {
      ComesFromStart(init, events, k - 1, state);
      if StartsState(events[k - 1]) && events[k - 1].op.state == state {
        assert Started(events, k, state);
      } else {
        assert Started(events, k - 1, state) ==> Started(events, k, state);
      }
    }
  }

  /** After a completion the state is pending no more. */
  lemma {:induction false} NotPendingAfter(init: Shared, events: seq<Event>, i: nat, j: nat, id: nat, state: string)
    requires init.store.transactions == map[] && init.attempts == map[] && FreshStates(events)
    requires i < j <= |events| && CompletesHere(init, events, i, id, state)
    ensures !Pending(Before(init, events, j).store, state)
  {
    hide Judge, KeepOthers, InsertMapping, Accepted;
    ComesFromStart(init, events, i, state);
    if j > i + 1 {
      NotPendingAfter(init, events, i, j - 1, id, state);
    }
  }

  /**
   Two attempts complete the same login only when they overlap: the later one had read the transaction
   before the earlier one marked it.
   */
  lemma SecondCompletionHadRead(init: Shared, events: seq<Event>, i: nat, a: nat, r: nat, c: nat, m: nat, b: nat,
                                state: string, verifier: string, claims: Claims)
    requires init.store.transactions == map[] && init.attempts == map[] && FreshStates(events)
    requires r < c < m < |events| && i < m && CompletesHere(init, events, i, a, state) && a != b
    requires events[r] == Read(b, state, verifier, claims) && events[c] == Check(b) && events[m] == Mark(b)
    requires forall k :: 0 <= k < m && k != r && k != c ==> !Of(events[k], b)
    ensures CompletesHere(init, events, m, b, state) ==> r < i
  {
    hide Judge, Apply, Before;
    AttemptCompletesIff(init, events, r, c, m, b, state, verifier, claims);
    if i < r {
      NotPendingAfter(init, events, i, r, a, state);
    }
  }

  /** And overlapping attempts do: from any store in which both would be admitted, both complete. */
  lemma OverlappingAttemptsComplete(sh: Shared, a: nat, b: nat, state: string, verifier: string, claims: Claims)
    requires a != b && a !in sh.attempts && b !in sh.attempts
    requires Admit(sh.store, state, verifier, claims).Ok?
    ensures var session := Admit(sh.store, state, verifier, claims).value;
      var s1 := Step(Step(sh, Read(a, state, verifier, claims)), Read(b, state, verifier, claims));
      var s2 := Step(Step(s1, Check(a)), Check(b));
      var s3 := Step(Step(s2, Mark(a)), Mark(b));
      s3.attempts[a] == Completed(state, session) && s3.attempts[b] == Completed(state, session)
  {
    hide Judge;
  }

  /** The calls between the steps are those of the store; an attempt has its own number, and a completion is no call here. */
  lemma CallsAndReadsAre(sh: Shared, op: Op, id: nat, state: string, verifier: string, claims: Claims)
    ensures Step(sh, Call(op)) == Shared(if op.CompleteOp? then sh.store else Apply(sh.store, op), sh.attempts)
    ensures id in sh.attempts ==> Step(sh, Read(id, state, verifier, claims)) == sh
    ensures id !in sh.attempts ==>
      var next := Step(sh, Read(id, state, verifier, claims));
      && next.store == sh.store && next.attempts.Keys == sh.attempts.Keys + {id}
      && (forall other :: other in sh.attempts ==> next.attempts[other] == sh.attempts[other])
      && (next.attempts[id] == Failed <==> state !in sh.store.transactions || sh.store.transactions[state].consumed)
  {
    hide Apply;
  }
}
