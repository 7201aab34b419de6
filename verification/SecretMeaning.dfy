/**
 What the sealed store means: a map from handles to secrets, in which keys, nonces, payloads and
 re-sealing do not appear. Every run of the store (`secrets.rs`) refines the same run of this map.
 */
module SecretMeaning {
  import opened ByteStrings
  import opened Text
  import opened SealedPayload
  import opened SecretStore

  datatype Secret = Secret(active: bool, value: Bytes)

  /** What a handle stands for in a store. */
  function Held(c: Crypto, st: Store, organization: string, handle: string): Option<Secret> {
    var row := Lookup(st.rows, organization, handle);
    if row.None? then None
    else
      var plain := Unseal(c, st.ring.keys, row.value.payload);
      if plain.Err? then None else Some(Secret(row.value.active, plain.value))
  }

  /** What an operation does to one handle; the key ring and re-sealing do nothing. */
  function Meant(op: Op, organization: string, handle: string, s: Option<Secret>): Option<Secret> {
    match op
    case CreateOp(o, h, _, raw) =>
      if o == organization && h == handle && raw != [] && s.None? then Some(Secret(true, raw)) else s
    case RotateOp(o, h, _, raw) =>
      if o == organization && h == handle && raw != [] && s.Some? && s.value.active then Some(Secret(true, raw)) else s
    case RevokeOp(o, h) =>
      if o == organization && h == handle && s.Some? then Some(s.value.(active := false)) else s
    case _ => s
  }

  function MeantAll(ops: seq<Op>, organization: string, handle: string, s: Option<Secret>): Option<Secret>
    decreases |ops|
  {
    if ops == [] then s else MeantAll(ops[1..], organization, handle, Meant(ops[0], organization, handle, s))
  }

  // ---- Looking rows up ----

  function Lookup(rows: seq<Row>, organization: string, handle: string): Option<Row> {
    var k := IndexOf(rows, organization, handle);
    if k.None? then None else Some(rows[k.value])
  }

  lemma LookupIs(rows: seq<Row>, row: Row)
    requires Sorted(rows) && row in rows
    ensures Lookup(rows, row.organization, row.handle) == Some(row)
  {
    hide Sorted;
    var i :| 0 <= i < |rows| && rows[i] == row;
    var k := IndexOf(rows, row.organization, row.handle);
    assert At(rows[i], row.organization, row.handle);
    SortedIsUnique(rows, i, k.value);
  }

  lemma LookupInserted(rows: seq<Row>, row: Row, organization: string, handle: string)
    requires Sorted(rows) && Lookup(rows, row.organization, row.handle).None?
    ensures Lookup(Insert(rows, row), organization, handle) ==
      if At(row, organization, handle) then Some(row) else Lookup(rows, organization, handle)
  {
    hide Sorted, Insert;
    var after, found := Insert(rows, row), Lookup(rows, organization, handle);
    InsertKeepsSorted(rows, row);
    assert forall r :: r in after <==> r in multiset(after);
    assert forall r :: r in after <==> r == row || r in rows;
    if At(row, organization, handle) {
      LookupIs(after, row);
    } else if found.Some? {
      LookupIs(after, found.value);
    } else {
      forall i | 0 <= i < |after|
        ensures !At(after[i], organization, handle)
      {
        assert after[i] in after;
      }
    }
  }

  lemma LookupUpdated(rows: seq<Row>, k: nat, row: Row, organization: string, handle: string)
    requires Sorted(rows) && k < |rows| && At(row, rows[k].organization, rows[k].handle)
    ensures Lookup(rows[k := row], organization, handle) ==
      if At(row, organization, handle) then Some(row) else Lookup(rows, organization, handle)
  {
    var after := rows[k := row];
    UpdateKeepsSorted(rows, k, row);
    hide Sorted;
    var found := Lookup(rows, organization, handle);
    if At(row, organization, handle) {
      assert after[k] == row;
      LookupIs(after, row);
    } else if found.Some? {
      var i := IndexOf(rows, organization, handle).value;
      assert after[i] == found.value;
      LookupIs(after, found.value);
    }
  }

  // ---- Every operation ----

  lemma CreateMeans(c: Crypto, st: Store, o: string, h: string, nonce: Bytes, raw: Bytes, organization: string, handle: string)
    requires Ideal(c) && Inv(c, st) && |nonce| == NONCE_LENGTH && c.isUtf8(raw)
    ensures Held(c, Create(c, st, o, h, nonce, raw).0, organization, handle)
         == Meant(CreateOp(o, h, nonce, raw), organization, handle, Held(c, st, organization, handle))
  {
    hide Unseal, Seal, Sorted, Insert, ValidRing;
    HeldIffStored(c, st, o, h);
    if raw != [] && IndexOf(st.rows, o, h).None? {
      SealOpens(c, st.ring, nonce, raw);
      LookupInserted(st.rows, Row(o, h, true, 1, Seal(c, st.ring, nonce, raw)), organization, handle);
    }
  }

  lemma RotateMeans(c: Crypto, st: Store, o: string, h: string, nonce: Bytes, raw: Bytes, organization: string, handle: string)
    requires Ideal(c) && Inv(c, st) && |nonce| == NONCE_LENGTH && c.isUtf8(raw)
    ensures Held(c, Rotate(c, st, o, h, nonce, raw).0, organization, handle)
         == Meant(RotateOp(o, h, nonce, raw), organization, handle, Held(c, st, organization, handle))
  {
    hide Unseal, Seal, Sorted, ValidRing;
    HeldIffStored(c, st, o, h);
    var k := IndexOf(st.rows, o, h);
    if raw != [] && k.Some? && st.rows[k.value].active {
      SealOpens(c, st.ring, nonce, raw);
      var row := st.rows[k.value];
      var next := row.(payload := Seal(c, st.ring, nonce, raw), version := row.version + 1);
      LookupUpdated(st.rows, k.value, next, organization, handle);
    }
  }

  lemma RevokeMeans(c: Crypto, st: Store, o: string, h: string, organization: string, handle: string)
    requires Inv(c, st)
    ensures Held(c, Revoke(st, o, h).0, organization, handle)
         == Meant(RevokeOp(o, h), organization, handle, Held(c, st, organization, handle))
  {
    hide Unseal, Sorted, ValidRing;
    HeldIffStored(c, st, o, h);
    var k := IndexOf(st.rows, o, h);
    if k.Some? {
      LookupUpdated(st.rows, k.value, st.rows[k.value].(active := false), organization, handle);
    }
  }

  /** In a reachable store a handle stands for something exactly when it has a row. */
  lemma HeldIffStored(c: Crypto, st: Store, organization: string, handle: string)
    requires Inv(c, st)
    ensures Held(c, st, organization, handle).Some? <==> IndexOf(st.rows, organization, handle).Some?
    ensures Held(c, st, organization, handle).Some? ==>
      var k := IndexOf(st.rows, organization, handle).value;
      Held(c, st, organization, handle) == Some(Secret(st.rows[k].active, Unseal(c, st.ring.keys, st.rows[k].payload).value))
      && Opens(c, st.ring.keys, st.rows[k].payload)
  {
    hide Unseal, Sorted, ValidRing;
  }

  /** Re-sealing one handle changes what no handle stands for. */
  lemma ResealMeansNothing(c: Crypto, st: Store, o: string, h: string, nonce: Bytes, organization: string, handle: string)
    requires Ideal(c) && Inv(c, st) && |nonce| == NONCE_LENGTH
    ensures Held(c, Reseal(c, st, o, h, nonce).0, organization, handle) == Held(c, st, organization, handle)
  {
    hide Unseal, Rotate, Inv, Opens;
    assert ValidRing(st.ring) by {
      InvRing(c, st);
    }
    HeldIffStored(c, st, o, h);
    var plain := Resolve(c, st, o, h);
    if plain.Ok? {
      assert c.isUtf8(plain.value) by {
        OpensUtf8(c, st.ring.keys, st.rows[IndexOf(st.rows, o, h).value].payload);
      }
      RotateMeans(c, st, o, h, nonce, plain.value, organization, handle);
    }
  }

  lemma OpensUtf8(c: Crypto, keys: seq<DataKey>, payload: string)
    requires Opens(c, keys, payload)
    ensures Unseal(c, keys, payload).Ok? && c.isUtf8(Unseal(c, keys, payload).value)
  {
  }

  lemma {:induction false} ResealFromMeansNothing(
    c: Crypto, st: Store, o: string, handles: seq<string>, nonces: nat -> Bytes, i: nat, organization: string, handle: string)
    requires Ideal(c) && Inv(c, st) && i <= |handles| && forall n: nat :: |nonces(n)| == NONCE_LENGTH
    ensures Held(c, ResealFrom(c, st, o, handles, nonces, i).0, organization, handle) == Held(c, st, organization, handle)
    decreases |handles| - i
  {
    hide Held, Reseal, Inv;
    assert ValidRing(st.ring) by {
      InvRing(c, st);
    }
    if i < |handles| {
      ResealMeansNothing(c, st, o, handles[i], nonces(i), organization, handle);
      ResealKeepsInv(c, st, o, handles[i], nonces(i));
      var next := Reseal(c, st, o, handles[i], nonces(i)).0;
      ResealFromMeansNothing(c, next, o, handles, nonces, i + 1, organization, handle);
    }
  }

  lemma RingStepMeansNothing(c: Crypto, st: Store, op: RingOp, organization: string, handle: string)
    requires Ideal(c) && Inv(c, st)
    ensures Held(c, st.(ring := ApplyRing(c, st.ring, op)), organization, handle) == Held(c, st, organization, handle)
  {
    hide Unseal, ApplyRing, Sorted, ValidRing;
    ApplyRingKeeps(c, st.ring, op);
    var k := IndexOf(st.rows, organization, handle);
    if k.Some? {
      UnsealIsStable(c, st.ring.keys, ApplyRing(c, st.ring, op).keys, st.rows[k.value].payload);
    }
  }

  lemma ApplyMeans(c: Crypto, st: Store, op: Op, organization: string, handle: string)
    requires Ideal(c) && Inv(c, st) && WellTyped(c, op)
    ensures Held(c, Apply(c, st, op), organization, handle) == Meant(op, organization, handle, Held(c, st, organization, handle))
  {
    hide Held, Inv, Create, Rotate, Revoke, Reseal, ResealFrom, ApplyRing;
    assert ValidRing(st.ring) by {
      InvRing(c, st);
    }
    match op
    case CreateOp(o, h, nonce, raw) => CreateMeans(c, st, o, h, nonce, raw, organization, handle);
    case RotateOp(o, h, nonce, raw) => RotateMeans(c, st, o, h, nonce, raw, organization, handle);
    case RevokeOp(o, h) => RevokeMeans(c, st, o, h, organization, handle);
    case ResealOp(o, h, nonce) => ResealMeansNothing(c, st, o, h, nonce, organization, handle);
    case ResealAllOp(o, nonces) => ResealFromMeansNothing(c, st, o, ActiveHandles(st.rows, o), nonces, 0, organization, handle);
    case RingStep(op) => RingStepMeansNothing(c, st, op, organization, handle);
  }

  /** Refinement: after every run, every handle stands for what the map says. */
  lemma {:induction false} RunRefines(c: Crypto, st: Store, ops: seq<Op>, organization: string, handle: string)
    requires Ideal(c) && Inv(c, st) && forall k :: 0 <= k < |ops| ==> WellTyped(c, ops[k])
    ensures Held(c, Run(c, st, ops), organization, handle) == MeantAll(ops, organization, handle, Held(c, st, organization, handle))
    decreases |ops|
  {
    hide Held, Inv, Apply, Meant, WellTyped;
    assert ValidRing(st.ring) by {
      InvRing(c, st);
    }
    if ops != [] {
      ApplyMeans(c, st, ops[0], organization, handle);
      ApplyKeepsInv(c, st, ops[0]);
      RunRefines(c, Apply(c, st, ops[0]), ops[1..], organization, handle);
    }
  }

  /** After every run, resolving answers from the map alone. */
  lemma ResolveRefines(c: Crypto, st: Store, ops: seq<Op>, organization: string, handle: string)
    requires Ideal(c) && Inv(c, st) && forall k :: 0 <= k < |ops| ==> WellTyped(c, ops[k])
    ensures ValidRing(st.ring)
    ensures var s := MeantAll(ops, organization, handle, Held(c, st, organization, handle));
      Resolve(c, Run(c, st, ops), organization, handle) ==
        if s.None? then Err(NotFound) else if !s.value.active then Err(IsRevoked) else Ok(s.value.value)
  {
    hide Inv, Run, Unseal, WellTyped, MeantAll, Opens;
    InvRing(c, st);
    RunRefines(c, st, ops, organization, handle);
    RunKeepsInv(c, st, ops);
    HeldIffStored(c, Run(c, st, ops), organization, handle);
    StoredOpens(c, Run(c, st, ops), organization, handle);
  }

  lemma StoredOpens(c: Crypto, st: Store, organization: string, handle: string)
    requires Inv(c, st)
    ensures var k := IndexOf(st.rows, organization, handle);
      k.Some? ==> Unseal(c, st.ring.keys, st.rows[k.value].payload).Ok?
  {
    hide Unseal, Sorted, ValidRing;
  }

  /** Revoking is final: no run brings a revoked secret back. */
  lemma RevokedForGood(c: Crypto, st: Store, ops: seq<Op>, organization: string, handle: string)
    requires Ideal(c) && Inv(c, st) && forall k :: 0 <= k < |ops| ==> WellTyped(c, ops[k])
    requires Held(c, st, organization, handle).Some? && !Held(c, st, organization, handle).value.active
    ensures ValidRing(st.ring)
    ensures Resolve(c, Run(c, st, ops), organization, handle) == Err(IsRevoked)
  {
    hide Held, Inv, Run, Resolve, WellTyped, MeantAll;
    ResolveRefines(c, st, ops, organization, handle);
    RevokedStays(ops, organization, handle, Held(c, st, organization, handle).value);
  }

  lemma {:induction false} RevokedStays(ops: seq<Op>, organization: string, handle: string, s: Secret)
    requires !s.active
    ensures MeantAll(ops, organization, handle, Some(s)) == Some(s)
    decreases |ops|
  {
    if ops != [] {
      RevokedStays(ops[1..], organization, handle, s);
    }
  }

  // ---- Opening the store again ----

  /** The id of the key that a payload names. */
  function KeyIdOf(payload: string): string {
    var f := Fields(payload, 4);
    if f[0] == TAGGED && |f| > 1 then f[1] else LEGACY
  }

  lemma FirstField(payload: string)
    ensures Fields(payload, 4)[0] == payload[..DotIndex(payload)]
  {
    assert DotIndex(payload) == |payload| ==> payload[..|payload|] == payload;
  }

  /** A payload that opened opens again, to the same secret, exactly when its key is registered again. */
  lemma OpensAgainIff(c: Crypto, before: seq<DataKey>, after: seq<DataKey>, payload: string)
    requires Unseal(c, before, payload).Ok?
    requires var id := KeyIdOf(payload); KeyFor(after, id).Some? ==> KeyFor(after, id) == KeyFor(before, id)
    ensures Unseal(c, after, payload) ==
      if KeyFor(after, KeyIdOf(payload)).Some? then Unseal(c, before, payload) else Err(UnknownKey(KeyIdOf(payload)))
  {
    hide KeyFor, Fields, DotIndex, HexDecode;
    FirstField(payload);
    assert LEGACY != TAGGED;
  }

  /** The new ring gives no id that a stored payload names another key. */
  predicate SameKeys(st: Store, keys: seq<DataKey>) {
    forall k :: 0 <= k < |st.rows| ==>
      var id := KeyIdOf(st.rows[k].payload); KeyFor(keys, id).Some? ==> KeyFor(keys, id) == KeyFor(st.ring.keys, id)
  }

  predicate AllRegistered(st: Store, keys: seq<DataKey>) {
    forall k :: 0 <= k < |st.rows| ==> KeyFor(keys, KeyIdOf(st.rows[k].payload)).Some?
  }

  /**
   Restarting: the table is opened again under a new ring, built from the master key by registering keys.
   Every payload opens again exactly when every key id that a stored payload names is registered again, and
   then every handle stands for what it stood for.
   */
  lemma ReopenedIff(c: Crypto, st: Store, master: Bytes, ops: seq<RingOp>)
    requires Inv(c, st) && InitialRing(c, master).Ok?
    requires SameKeys(st, RunRing(c, InitialRing(c, master).value, ops).keys)
    ensures var again := Store(RunRing(c, InitialRing(c, master).value, ops), st.rows);
      && (Inv(c, again) <==> AllRegistered(st, again.ring.keys))
      && (Inv(c, again) ==> forall organization, handle ::
            Held(c, again, organization, handle) == Held(c, st, organization, handle))
  {
    hide Unseal, KeyFor, KeyIdOf, RunRing, Sorted, Held;
    var ring := InitialRing(c, master).value;
    FreshStoreInv(c, master);
    RunRingKeeps(c, ring, ops);
    var again := Store(RunRing(c, ring, ops), st.rows);
    hide ValidRing;
    forall k | 0 <= k < |st.rows|
      ensures Opens(c, again.ring.keys, st.rows[k].payload) <==> KeyFor(again.ring.keys, KeyIdOf(st.rows[k].payload)).Some?
      ensures Opens(c, again.ring.keys, st.rows[k].payload) ==>
        Unseal(c, again.ring.keys, st.rows[k].payload) == Unseal(c, st.ring.keys, st.rows[k].payload)
    {
      OpensAgainIff(c, st.ring.keys, again.ring.keys, st.rows[k].payload);
    }
    if Inv(c, again) {
      forall organization, handle
        ensures Held(c, again, organization, handle) == Held(c, st, organization, handle)
      {
        ReopenedMeans(c, st, again, organization, handle);
      }
    }
  }

  lemma ReopenedMeans(c: Crypto, st: Store, again: Store, organization: string, handle: string)
    requires again.rows == st.rows
    requires forall k :: 0 <= k < |st.rows| ==>
      Unseal(c, again.ring.keys, st.rows[k].payload) == Unseal(c, st.ring.keys, st.rows[k].payload)
    ensures Held(c, again, organization, handle) == Held(c, st, organization, handle)
  {
    hide Unseal;
  }
}
