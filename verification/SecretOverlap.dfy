/**
 Overlapping calls on the secret store. Re-sealing reads the secret under the lock, and replacing a secret checks
 its row and then writes it (`reseal_secret`, `rotate_secret`); the lock is free in between, so that other calls
 can come there.
 */
module SecretOverlap {
  import opened ByteStrings
  import opened Text
  import opened SealedPayload
  import opened SecretStore
  import opened SecretMeaning

  /** How far a replacement has come: it has its value, its row has been found active, or it has answered. */
  datatype Attempt =
    | Given(organization: string, handle: string, raw: Bytes, reseal: bool)
    | Checked(organization: string, handle: string, raw: Bytes, reseal: bool)
    | Answered(result: Result<Metadata, Error>)

  datatype Shared = Shared(store: Store, attempts: map<nat, Attempt>)

  /** A call without interruption, or a step of one: a re-sealing starts with a read, a rotation with its new value. */
  datatype Event =
    | Call(op: Op)
    | Read(id: nat, organization: string, handle: string)
    | Begin(id: nat, organization: string, handle: string, raw: Bytes)
    | Check(id: nat)
    | Write(id: nat, nonce: Bytes)

  function CheckRow(st: Store, at: Attempt): Attempt
    requires at.Given?
  {
    var k := IndexOf(st.rows, at.organization, at.handle);
    if at.raw == [] then Answered(Err(EmptySecret))
    else if k.None? then Answered(Err(NotFound))
    else if !st.rows[k.value].active then Answered(Err(IsRevoked))
    else Checked(at.organization, at.handle, at.raw, at.reseal)
  }

  /** The metadata of the row as it is now. */
  function Report(st: Store, organization: string, handle: string): Result<Metadata, Error> {
    var k := IndexOf(st.rows, organization, handle);
    if k.None? then Err(NotFound) else Ok(MetadataOf(st.rows[k.value]))
  }

  /** The write changes a row only while it is active, and the answer is what the row says afterwards. */
  function Step(c: Crypto, sh: Shared, ev: Event): (next: Shared)
    requires ValidRing(sh.store.ring)
    ensures ValidRing(next.store.ring)
  {
    match ev
    case Call(op) => sh.(store := Apply(c, sh.store, op))
    case Read(id, organization, handle) =>
      if id in sh.attempts then sh
      else
        var plain := Resolve(c, sh.store, organization, handle);
        sh.(attempts := sh.attempts[id := if plain.Ok? then Given(organization, handle, plain.value, true)
                                          else Answered(Err(plain.error))])
    case Begin(id, organization, handle, raw) =>
      if id in sh.attempts then sh else sh.(attempts := sh.attempts[id := Given(organization, handle, raw, false)])
    case Check(id) =>
      if id !in sh.attempts || !sh.attempts[id].Given? then sh
      else sh.(attempts := sh.attempts[id := CheckRow(sh.store, sh.attempts[id])])
    case Write(id, nonce) =>
      if id !in sh.attempts || !sh.attempts[id].Checked? then sh
      else
        var at := sh.attempts[id];
        var store := Rotate(c, sh.store, at.organization, at.handle, nonce, at.raw).0;
        Shared(store, sh.attempts[id := Answered(Report(store, at.organization, at.handle))])
  }

  /** The state after the first `k` events. */
  function After(c: Crypto, init: Shared, events: seq<Event>, k: nat): (sh: Shared)
    requires ValidRing(init.store.ring) && k <= |events|
    ensures ValidRing(sh.store.ring)
  {
    if k == 0 then init else Step(c, After(c, init, events, k - 1), events[k - 1])
  }

  /** Run without interruption, the steps are the atomic calls. */
  lemma UninterruptedIsAtomic(c: Crypto, sh: Shared, id: nat, organization: string, handle: string, nonce: Bytes, raw: Bytes)
    requires ValidRing(sh.store.ring) && id !in sh.attempts
    ensures var (next, r) := Reseal(c, sh.store, organization, handle, nonce);
      Step(c, Step(c, Step(c, sh, Read(id, organization, handle)), Check(id)), Write(id, nonce))
        == Shared(next, sh.attempts[id := Answered(r)])
    ensures var (next, r) := Rotate(c, sh.store, organization, handle, nonce, raw);
      Step(c, Step(c, Step(c, sh, Begin(id, organization, handle, raw)), Check(id)), Write(id, nonce))
        == Shared(next, sh.attempts[id := Answered(r)])
  {
    hide ValidRing, Unseal;
    var plain := Resolve(c, sh.store, organization, handle);
    if plain.Ok? {
      GivenIsAtomic(c, sh, id, Given(organization, handle, plain.value, true), nonce);
    }
    GivenIsAtomic(c, sh, id, Given(organization, handle, raw, false), nonce);
  }

  lemma GivenIsAtomic(c: Crypto, sh: Shared, id: nat, at: Attempt, nonce: Bytes)
    requires ValidRing(sh.store.ring) && at.Given?
    ensures var (next, r) := Rotate(c, sh.store, at.organization, at.handle, nonce, at.raw);
      Step(c, Step(c, sh.(attempts := sh.attempts[id := at]), Check(id)), Write(id, nonce))
        == Shared(next, sh.attempts[id := Answered(r)])
  {
    hide ValidRing, Seal;
    var (next, r) := Rotate(c, sh.store, at.organization, at.handle, nonce, at.raw);
    var middle := CheckRow(sh.store, at);
    assert sh.attempts[id := at][id := middle] == sh.attempts[id := middle];
    assert sh.attempts[id := middle][id := Answered(r)] == sh.attempts[id := Answered(r)];
    if middle.Checked? {
      RotatedIndex(c, sh.store, at.organization, at.handle, nonce, at.raw);
    }
  }

  /** A rotation leaves the row of the handle where it was. */
  lemma RotatedIndex(c: Crypto, st: Store, organization: string, handle: string, nonce: Bytes, raw: Bytes)
    requires ValidRing(st.ring)
    ensures IndexOf(Rotate(c, st, organization, handle, nonce, raw).0.rows, organization, handle)
         == IndexOf(st.rows, organization, handle)
  {
    hide ValidRing, Seal;
    var k := IndexOf(st.rows, organization, handle);
    if k.Some? {
      var row := st.rows[k.value];
      IndexOfUpdated(st.rows, k.value, row.(payload := Seal(c, st.ring, nonce, raw), version := row.version + 1), organization, handle);
    }
  }

  lemma {:induction false} IndexOfUpdated(rows: seq<Row>, k: nat, row: Row, organization: string, handle: string)
    requires k < |rows| && At(row, rows[k].organization, rows[k].handle)
    ensures IndexOf(rows[k := row], organization, handle) == IndexOf(rows, organization, handle)
  {
    if k > 0 {
      assert rows[k := row][1..] == rows[1..][k - 1 := row];
      IndexOfUpdated(rows[1..], k - 1, row, organization, handle);
    } else {
      assert rows[k := row][1..] == rows[1..];
    }
  }

  // ---- What every interleaving keeps ----

  ghost predicate Typed(c: Crypto, ev: Event) {
    match ev
    case Call(op) => WellTyped(c, op)
    case Begin(_, _, _, raw) => c.isUtf8(raw)
    case Write(_, nonce) => |nonce| == NONCE_LENGTH
    case _ => true
  }

  /** Values in hand are text; a checked one is not empty and its handle has a row. */
  ghost predicate AttemptInv(c: Crypto, st: Store, at: Attempt) {
    match at
    case Given(_, _, raw, _) => c.isUtf8(raw)
    case Checked(organization, handle, raw, _) => c.isUtf8(raw) && raw != [] && Held(c, st, organization, handle).Some?
    case Answered(_) => true
  }

  ghost predicate SharedInv(c: Crypto, sh: Shared) {
    Inv(c, sh.store) && forall id :: id in sh.attempts ==> AttemptInv(c, sh.store, sh.attempts[id])
  }

  /** What an event does to what a handle stands for. */
  function MeantBy(sh: Shared, ev: Event, organization: string, handle: string, s: Option<Secret>): Option<Secret> {
    match ev
    case Call(op) => Meant(op, organization, handle, s)
    case Write(id, _) => if Writes(sh, id, organization, handle, s) then Some(Secret(true, sh.attempts[id].raw)) else s
    case _ => s
  }

  /** The attempt is about to replace the secret of this handle. */
  predicate Writes(sh: Shared, id: nat, organization: string, handle: string, s: Option<Secret>) {
    && id in sh.attempts && sh.attempts[id].Checked?
    && sh.attempts[id].organization == organization && sh.attempts[id].handle == handle
    && s.Some? && s.value.active
  }

  lemma StepMeans(c: Crypto, sh: Shared, ev: Event, organization: string, handle: string)
    requires Ideal(c) && SharedInv(c, sh) && Typed(c, ev)
    ensures ValidRing(sh.store.ring)
    ensures Held(c, Step(c, sh, ev).store, organization, handle)
         == MeantBy(sh, ev, organization, handle, Held(c, sh.store, organization, handle))
  {
    hide Inv, Held, Rotate, Apply, Meant, WellTyped, CheckRow, Report, Resolve;
    InvRing(c, sh.store);
    match ev
    case Call(op) => ApplyMeans(c, sh.store, op, organization, handle);
    case Write(id, nonce) =>
      if id in sh.attempts && sh.attempts[id].Checked? {
        var at := sh.attempts[id];
        assert AttemptInv(c, sh.store, at);
        RotateMeans(c, sh.store, at.organization, at.handle, nonce, at.raw, organization, handle);
        RotateIsMeant(at, nonce, organization, handle, Held(c, sh.store, organization, handle));
      }
    case _ =>
  }

  lemma RotateIsMeant(at: Attempt, nonce: Bytes, organization: string, handle: string, s: Option<Secret>)
    requires at.Checked? && at.raw != []
    ensures Meant(RotateOp(at.organization, at.handle, nonce, at.raw), organization, handle, s) ==
      if at.organization == organization && at.handle == handle && s.Some? && s.value.active
      then Some(Secret(true, at.raw)) else s
  {
  }

  lemma MeantIsOneWay(sh: Shared, ev: Event, organization: string, handle: string, s: Option<Secret>)
    requires s.Some?
    ensures var t := MeantBy(sh, ev, organization, handle, s); t.Some? && (t.value.active ==> s.value.active)
  {
  }

  /** Resolving answers what the handle stands for. */
  lemma ResolveIsHeld(c: Crypto, st: Store, organization: string, handle: string)
    requires Ideal(c) && Inv(c, st)
    ensures var s := Held(c, st, organization, handle);
      && Resolve(c, st, organization, handle) ==
           (if s.None? then Err(NotFound) else if !s.value.active then Err(IsRevoked) else Ok(s.value.value))
      && (s.Some? ==> c.isUtf8(s.value.value) && s.value.value != [])
  {
    hide Inv, Unseal, Opens, Sorted, ValidRing;
    HeldIffStored(c, st, organization, handle);
    if Held(c, st, organization, handle).Some? {
      var k := IndexOf(st.rows, organization, handle).value;
      OpensText(c, st.ring.keys, st.rows[k].payload);
    }
  }

  lemma OpensText(c: Crypto, keys: seq<DataKey>, payload: string)
    requires Opens(c, keys, payload)
    ensures Unseal(c, keys, payload).Ok?
    ensures c.isUtf8(Unseal(c, keys, payload).value) && Unseal(c, keys, payload).value != []
  {
  }

  lemma StepKeepsInv(c: Crypto, sh: Shared, ev: Event)
    requires Ideal(c) && SharedInv(c, sh) && Typed(c, ev)
    ensures ValidRing(sh.store.ring) && SharedInv(c, Step(c, sh, ev))
  {
    hide Inv, Held, Rotate, Apply, WellTyped, Report, Resolve, MeantBy, CheckRow;
    InvRing(c, sh.store);
    var next := Step(c, sh, ev);
    assert Inv(c, next.store) by {
      StoreKeepsInv(c, sh, ev);
    }
    forall id | id in next.attempts
      ensures AttemptInv(c, next.store, next.attempts[id])
    {
      if id in sh.attempts && next.attempts[id] == sh.attempts[id] {
        AttemptStaysInv(c, sh, ev, id);
      } else {
        NewAttemptInv(c, sh, ev, id);
      }
    }
  }

  lemma StoreKeepsInv(c: Crypto, sh: Shared, ev: Event)
    requires Ideal(c) && SharedInv(c, sh) && Typed(c, ev) && ValidRing(sh.store.ring)
    ensures Inv(c, Step(c, sh, ev).store)
  {
    hide Inv, Held, Rotate, Apply, WellTyped, Report, Resolve, CheckRow;
    match ev
    case Call(op) => ApplyKeepsInv(c, sh.store, op);
    case Write(id, nonce) =>
      if id in sh.attempts && sh.attempts[id].Checked? {
        var at := sh.attempts[id];
        assert AttemptInv(c, sh.store, at);
        RotateKeepsInv(c, sh.store, at.organization, at.handle, nonce, at.raw);
      }
    case _ =>
  }

  lemma AttemptStaysInv(c: Crypto, sh: Shared, ev: Event, id: nat)
    requires Ideal(c) && SharedInv(c, sh) && Typed(c, ev) && ValidRing(sh.store.ring) && id in sh.attempts
    ensures AttemptInv(c, Step(c, sh, ev).store, sh.attempts[id])
  {
    hide Inv, Held, Step, MeantBy, Typed;
    var at := sh.attempts[id];
    assert AttemptInv(c, sh.store, at);
    if at.Checked? {
      StepMeans(c, sh, ev, at.organization, at.handle);
      MeantIsOneWay(sh, ev, at.organization, at.handle, Held(c, sh.store, at.organization, at.handle));
    }
  }

  lemma NewAttemptInv(c: Crypto, sh: Shared, ev: Event, id: nat)
    requires Ideal(c) && SharedInv(c, sh) && Typed(c, ev) && ValidRing(sh.store.ring)
    requires var next := Step(c, sh, ev); id in next.attempts && !(id in sh.attempts && next.attempts[id] == sh.attempts[id])
    ensures AttemptInv(c, Step(c, sh, ev).store, Step(c, sh, ev).attempts[id])
  {
    hide Inv, Held, Rotate, Apply, WellTyped, Report, Resolve;
    match ev
    case Read(_, organization, handle) => ResolveIsHeld(c, sh.store, organization, handle);
    case Check(_) =>
      var at := sh.attempts[id];
      assert AttemptInv(c, sh.store, at);
      HeldIffStored(c, sh.store, at.organization, at.handle);
    case _ =>
  }

  /** In every interleaving every stored payload opens, and what is in hand can be stored. */
  lemma {:induction false} AfterKeepsInv(c: Crypto, init: Shared, events: seq<Event>, k: nat)
    requires Ideal(c) && SharedInv(c, init) && k <= |events| && forall i :: 0 <= i < |events| ==> Typed(c, events[i])
    ensures ValidRing(init.store.ring) && SharedInv(c, After(c, init, events, k))
  {
    hide SharedInv, Typed, Step;
    assert ValidRing(init.store.ring) by {
      SharedRing(c, init);
    }
    if k > 0 {
      AfterKeepsInv(c, init, events, k - 1);
      StepKeepsInv(c, After(c, init, events, k - 1), events[k - 1]);
    }
  }

  lemma SharedRing(c: Crypto, sh: Shared)
    requires SharedInv(c, sh)
    ensures ValidRing(sh.store.ring)
  {
    InvRing(c, sh.store);
  }

  /** What the handle stands for after the first `k` events. */
  function HeldAt(c: Crypto, init: Shared, events: seq<Event>, k: nat, organization: string, handle: string): Option<Secret>
    requires ValidRing(init.store.ring) && k <= |events|
  {
    Held(c, After(c, init, events, k).store, organization, handle)
  }

  predicate IsActive(s: Option<Secret>) {
    s.Some? && s.value.active
  }

  /** What was stored stays stored, and what is active was active before. */
  lemma {:induction false} HeldIsOneWay(c: Crypto, init: Shared, events: seq<Event>, i: nat, j: nat, organization: string, handle: string)
    requires Ideal(c) && SharedInv(c, init) && i <= j <= |events| && forall k :: 0 <= k < |events| ==> Typed(c, events[k])
    ensures ValidRing(init.store.ring)
    ensures HeldAt(c, init, events, i, organization, handle).Some? ==>
      HeldAt(c, init, events, j, organization, handle).Some?
      && (IsActive(HeldAt(c, init, events, j, organization, handle)) ==> IsActive(HeldAt(c, init, events, i, organization, handle)))
  {
    hide Held, SharedInv, Typed, Step, MeantBy, ValidRing;
    SharedRing(c, init);
    if i < j {
      HeldIsOneWay(c, init, events, i, j - 1, organization, handle);
      AfterKeepsInv(c, init, events, j - 1);
      var sh := After(c, init, events, j - 1);
      StepMeans(c, sh, events[j - 1], organization, handle);
      if HeldAt(c, init, events, i, organization, handle).Some? {
        MeantIsOneWay(sh, events[j - 1], organization, handle, Held(c, sh.store, organization, handle));
      }
    }
  }

  // ---- Lost rotations ----

  /** Event `m` is the write of a re-sealing that puts back another secret than the handle stands for by then. */
  predicate Loses(c: Crypto, init: Shared, events: seq<Event>, m: nat, organization: string, handle: string)
    requires ValidRing(init.store.ring) && m < |events|
  {
    var sh := After(c, init, events, m);
    var s := Held(c, sh.store, organization, handle);
    && events[m].Write? && Writes(sh, events[m].id, organization, handle, s)
    && sh.attempts[events[m].id].reseal && sh.attempts[events[m].id].raw != s.value.value
  }

  /** What the handle should stand for: calls and rotations mean what they do, and re-sealing means nothing. */
  function Plain(c: Crypto, init: Shared, events: seq<Event>, k: nat, organization: string, handle: string): Option<Secret>
    requires ValidRing(init.store.ring) && k <= |events|
  {
    if k == 0 then Held(c, init.store, organization, handle)
    else
      var sh, ev := After(c, init, events, k - 1), events[k - 1];
      var s := Plain(c, init, events, k - 1, organization, handle);
      if ev.Write? && ev.id in sh.attempts && sh.attempts[ev.id].Checked? && sh.attempts[ev.id].reseal then s
      else MeantBy(sh, ev, organization, handle, s)
  }

  lemma OneStepRefinesIff(c: Crypto, init: Shared, events: seq<Event>, m: nat, organization: string, handle: string)
    requires Ideal(c) && SharedInv(c, init) && m < |events| && forall k :: 0 <= k < |events| ==> Typed(c, events[k])
    requires ValidRing(init.store.ring)
    requires HeldAt(c, init, events, m, organization, handle) == Plain(c, init, events, m, organization, handle)
    ensures HeldAt(c, init, events, m + 1, organization, handle) == Plain(c, init, events, m + 1, organization, handle)
       <==> !Loses(c, init, events, m, organization, handle)
  {
    hide Held, SharedInv, Typed, Step, ValidRing, Meant;
    AfterKeepsInv(c, init, events, m);
    StepMeans(c, After(c, init, events, m), events[m], organization, handle);
  }

  lemma PlainStart(c: Crypto, init: Shared, events: seq<Event>, organization: string, handle: string)
    requires ValidRing(init.store.ring)
    ensures HeldAt(c, init, events, 0, organization, handle) == Plain(c, init, events, 0, organization, handle)
  {
  }

  /** The store refines the plain map throughout an interleaving exactly when no re-sealing loses a secret. */
  lemma {:induction false} OverlapRefinesIff(c: Crypto, init: Shared, events: seq<Event>, n: nat, organization: string, handle: string)
    requires Ideal(c) && SharedInv(c, init) && n <= |events| && forall k :: 0 <= k < |events| ==> Typed(c, events[k])
    ensures ValidRing(init.store.ring)
    ensures (forall k :: 0 <= k <= n ==>
               HeldAt(c, init, events, k, organization, handle) == Plain(c, init, events, k, organization, handle))
       <==> (forall m :: 0 <= m < n ==> !Loses(c, init, events, m, organization, handle))
  {
    hide SharedInv, Typed, ValidRing, HeldAt, Plain, Loses;
    SharedRing(c, init);
    if n > 0 {
      OverlapRefinesIff(c, init, events, n - 1, organization, handle);
      if HeldAt(c, init, events, n - 1, organization, handle) == Plain(c, init, events, n - 1, organization, handle) {
        OneStepRefinesIff(c, init, events, n - 1, organization, handle);
      }
    } else {
      PlainStart(c, init, events, organization, handle);
    }
  }

  /** The event is one of the attempt. */
  predicate Of(ev: Event, id: nat) {
    !ev.Call? && ev.id == id
  }

  lemma {:induction false} AttemptStays(c: Crypto, init: Shared, events: seq<Event>, i: nat, j: nat, id: nat)
    requires ValidRing(init.store.ring) && i <= j <= |events| && forall k :: i <= k < j ==> !Of(events[k], id)
    ensures id in After(c, init, events, i).attempts <==> id in After(c, init, events, j).attempts
    ensures id in After(c, init, events, i).attempts ==>
      After(c, init, events, j).attempts[id] == After(c, init, events, i).attempts[id]
  {
    hide ValidRing, Apply, Resolve, CheckRow, Rotate, Report;
    if i < j {
      AttemptStays(c, init, events, i, j - 1, id);
      assert !Of(events[j - 1], id);
    }
  }

  /**
   A re-sealing that reads at `r`, checks at `q` and writes at `m` loses a secret exactly when the handle was
   active at the read, is still active at the write, and stands for another secret by then. While the handle is
   active the write puts back the secret of the read, and a handle revoked since stays as it is.
   */
  lemma ResealLosesIff(c: Crypto, init: Shared, events: seq<Event>, r: nat, q: nat, m: nat, id: nat,
                       organization: string, handle: string, nonce: Bytes)
    requires Ideal(c) && SharedInv(c, init) && id !in init.attempts && forall k :: 0 <= k < |events| ==> Typed(c, events[k])
    requires r < q < m < |events|
    requires events[r] == Read(id, organization, handle) && events[q] == Check(id) && events[m] == Write(id, nonce)
    requires forall k :: 0 <= k < m && k != r && k != q ==> !Of(events[k], id)
    ensures ValidRing(init.store.ring)
    ensures var read, held := HeldAt(c, init, events, r, organization, handle), HeldAt(c, init, events, m, organization, handle);
      && (Loses(c, init, events, m, organization, handle) <==> IsActive(read) && IsActive(held) && held != read)
      && HeldAt(c, init, events, m + 1, organization, handle) == (if IsActive(read) && IsActive(held) then read else held)
  {
    hide ValidRing, Held, SharedInv, Typed, Step, AttemptInv, Inv, Resolve, CheckRow;
    SharedRing(c, init);
    AttemptStays(c, init, events, 0, r, id);
    AttemptStays(c, init, events, r + 1, q, id);
    AttemptStays(c, init, events, q + 1, m, id);
    ReadGives(c, init, events, r, id, organization, handle);
    HeldIsOneWay(c, init, events, r, q, organization, handle);
    HeldIsOneWay(c, init, events, q, m, organization, handle);
    if IsActive(HeldAt(c, init, events, r, organization, handle)) {
      CheckPasses(c, init, events, q, id);
    } else {
      AnswerStands(c, After(c, init, events, q), id);
    }
    AfterKeepsInv(c, init, events, m);
    StepMeans(c, After(c, init, events, m), events[m], organization, handle);
  }

  lemma ReadGives(c: Crypto, init: Shared, events: seq<Event>, r: nat, id: nat, organization: string, handle: string)
    requires Ideal(c) && SharedInv(c, init) && ValidRing(init.store.ring) && forall k :: 0 <= k < |events| ==> Typed(c, events[k])
    requires r < |events| && events[r] == Read(id, organization, handle) && id !in After(c, init, events, r).attempts
    ensures id in After(c, init, events, r + 1).attempts
    ensures var read, at := HeldAt(c, init, events, r, organization, handle), After(c, init, events, r + 1).attempts[id];
      if IsActive(read) then at == Given(organization, handle, read.value.value, true) && read.value.value != [] else at.Answered?
  {
    hide ValidRing, Held, Typed, AttemptInv, Inv, Resolve;
    AfterKeepsInv(c, init, events, r);
    ResolveIsHeld(c, After(c, init, events, r).store, organization, handle);
  }

  lemma CheckPasses(c: Crypto, init: Shared, events: seq<Event>, q: nat, id: nat)
    requires Ideal(c) && SharedInv(c, init) && ValidRing(init.store.ring) && forall k :: 0 <= k < |events| ==> Typed(c, events[k])
    requires q < |events| && events[q] == Check(id)
    requires var sh := After(c, init, events, q); id in sh.attempts && sh.attempts[id].Given? && sh.attempts[id].raw != []
    ensures id in After(c, init, events, q + 1).attempts
    ensures var at, now := After(c, init, events, q).attempts[id], After(c, init, events, q + 1).attempts[id];
      if IsActive(HeldAt(c, init, events, q, at.organization, at.handle))
      then now == Checked(at.organization, at.handle, at.raw, at.reseal) else now.Answered?
  {
    hide ValidRing, Held, Typed, AttemptInv, Inv;
    AfterKeepsInv(c, init, events, q);
    var at := After(c, init, events, q).attempts[id];
    HeldIffStored(c, After(c, init, events, q).store, at.organization, at.handle);
  }

  lemma AnswerStands(c: Crypto, sh: Shared, id: nat)
    requires ValidRing(sh.store.ring) && id in sh.attempts && sh.attempts[id].Answered?
    ensures Step(c, sh, Check(id)) == sh
  {
  }

  /** A rotation that comes between the read and the write of a re-sealing is undone, from any store that holds the secret. */
  lemma RotationInBetweenIsLost(c: Crypto, sh: Shared, id: nat, organization: string, handle: string, raw: Bytes,
                                first: Bytes, second: Bytes)
    requires Ideal(c) && SharedInv(c, sh) && id !in sh.attempts
    requires IsActive(Held(c, sh.store, organization, handle))
    requires c.isUtf8(raw) && raw != [] && |first| == NONCE_LENGTH && |second| == NONCE_LENGTH
    ensures ValidRing(sh.store.ring)
    ensures var events := [Read(id, organization, handle), Call(RotateOp(organization, handle, first, raw)), Check(id), Write(id, second)];
      && HeldAt(c, sh, events, 2, organization, handle) == Some(Secret(true, raw))
      && HeldAt(c, sh, events, 4, organization, handle) == Held(c, sh.store, organization, handle)
  {
    hide ValidRing, Held, SharedInv, AttemptInv, Inv, Resolve, CheckRow, Step, Loses;
    SharedRing(c, sh);
    var events := [Read(id, organization, handle), Call(RotateOp(organization, handle, first, raw)), Check(id), Write(id, second)];
    ResealLosesIff(c, sh, events, 0, 2, 3, id, organization, handle, second);
    forall k | 0 <= k < 4
      ensures HeldAt(c, sh, events, k + 1, organization, handle)
           == MeantBy(After(c, sh, events, k), events[k], organization, handle, HeldAt(c, sh, events, k, organization, handle))
    {
      AfterKeepsInv(c, sh, events, k);
      StepMeans(c, After(c, sh, events, k), events[k], organization, handle);
    }
    assert HeldAt(c, sh, events, 1, organization, handle) == HeldAt(c, sh, events, 0, organization, handle);
  }

  // ---- What the answer says ----

  /**
   Once checked, a replacement answers with success whatever came in between, and its secret is stored exactly
   when the metadata it answers with says that the handle is active.
   */
  lemma AnswerTellsIfStored(c: Crypto, sh: Shared, id: nat, nonce: Bytes)
    requires Ideal(c) && SharedInv(c, sh) && |nonce| == NONCE_LENGTH && id in sh.attempts && sh.attempts[id].Checked?
    ensures ValidRing(sh.store.ring)
    ensures var at, next := sh.attempts[id], Step(c, sh, Write(id, nonce));
      var before, after := Held(c, sh.store, at.organization, at.handle), Held(c, next.store, at.organization, at.handle);
      && next.attempts[id].Answered? && next.attempts[id].result.Ok? && before.Some?
      && next.attempts[id].result.value.active == before.value.active
      && after == if before.value.active then Some(Secret(true, at.raw)) else before
  {
    hide ValidRing, Inv, Held, Rotate;
    SharedRing(c, sh);
    var at := sh.attempts[id];
    assert AttemptInv(c, sh.store, at);
    var next := Step(c, sh, Write(id, nonce));
    StepMeans(c, sh, Write(id, nonce), at.organization, at.handle);
    StepKeepsInv(c, sh, Write(id, nonce));
    HeldIffStored(c, next.store, at.organization, at.handle);
  }

  /** An attempt has its own number: it starts with what it reads or is given, and a number in use is not taken again. */
  lemma StartsAre(c: Crypto, sh: Shared, id: nat, organization: string, handle: string, raw: Bytes)
    requires ValidRing(sh.store.ring)
    ensures var read, begun := Step(c, sh, Read(id, organization, handle)), Step(c, sh, Begin(id, organization, handle, raw));
      if id in sh.attempts then read == sh && begun == sh
      else
        && begun == Shared(sh.store, sh.attempts[id := Given(organization, handle, raw, false)])
        && read.store == sh.store && read.attempts.Keys == sh.attempts.Keys + {id}
        && (forall other :: other in sh.attempts ==> read.attempts[other] == sh.attempts[other])
        && match Resolve(c, sh.store, organization, handle)
           case Ok(plain) => read.attempts[id] == Given(organization, handle, plain, true)
           case Err(error) => read.attempts[id] == Answered(Err(error))
  {
    hide ValidRing, Resolve;
  }
}
