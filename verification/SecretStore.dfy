/** The table of sealed secrets and its bulk re-sealing (`TrustedSecretStore`). */
module SecretStore {
  import opened ByteStrings
  import opened Text
  import opened SealedPayload

  datatype Row = Row(organization: string, handle: string, active: bool, version: nat, payload: string)

  /** What callers see of a row; the stored version is cut to 32 bits. */
  datatype Metadata = Metadata(handle: string, active: bool, version: nat)

  function MetadataOf(row: Row): Metadata {
    Metadata(row.handle, row.active, row.version % 0x1_0000_0000)
  }

  // ---- The table, kept in the order of its primary key ----

  predicate Before(r: Row, s: Row) {
    Less(r.organization, s.organization) || (r.organization == s.organization && Less(r.handle, s.handle))
  }

  predicate Sorted(rows: seq<Row>) {
    forall i, j :: 0 <= i < j < |rows| ==> Before(rows[i], rows[j])
  }

  predicate At(row: Row, organization: string, handle: string) {
    row.organization == organization && row.handle == handle
  }

  function IndexOf(rows: seq<Row>, organization: string, handle: string): (k: Option<nat>)
    ensures k.Some? ==> k.value < |rows| && At(rows[k.value], organization, handle)
    ensures k.None? ==> forall i :: 0 <= i < |rows| ==> !At(rows[i], organization, handle)
  {
    if rows == [] then None
    else if At(rows[0], organization, handle) then Some(0)
    else var k := IndexOf(rows[1..], organization, handle); if k.Some? then Some(k.value + 1) else None
  }

  function Insert(rows: seq<Row>, row: Row): seq<Row> {
    if rows == [] || Before(row, rows[0]) then [row] + rows else [rows[0]] + Insert(rows[1..], row)
  }

  lemma BeforeIsOrder(r: Row, s: Row, t: Row)
    ensures Before(r, s) && Before(s, t) ==> Before(r, t)
    ensures !Before(r, r) && (!At(r, s.organization, s.handle) ==> Before(r, s) || Before(s, r))
  {
    LessIsOrder(r.organization, s.organization, t.organization);
    LessIsOrder(r.handle, s.handle, t.handle);
  }

  lemma {:induction false} InsertKeepsSorted(rows: seq<Row>, row: Row)
    requires Sorted(rows) && forall k :: 0 <= k < |rows| ==> !At(rows[k], row.organization, row.handle)
    ensures Sorted(Insert(rows, row)) && multiset(Insert(rows, row)) == multiset(rows) + multiset{row}
  {
    hide Before;
    if rows == [] {
    } else if Before(row, rows[0]) {
      forall k | 0 < k < |rows|
        ensures Before(row, rows[k])
      {
        BeforeIsOrder(row, rows[0], rows[k]);
      }
    } else {
      BeforeIsOrder(row, rows[0], row);
      assert Before(rows[0], row);
      InsertKeepsSorted(rows[1..], row);
      var rest := Insert(rows[1..], row);
      assert rows == [rows[0]] + rows[1..];
      forall k | 0 <= k < |rest|
        ensures Before(rows[0], rest[k])
      {
        assert rest[k] in multiset(rest);
        assert rest[k] == row || rest[k] in rows[1..];
      }
    }
  }

  // ---- Operations ----

  datatype Store = Store(ring: Ring, rows: seq<Row>)

  function Create(c: Crypto, st: Store, organization: string, handle: string, nonce: Bytes, raw: Bytes): (Store, Result<Metadata, Error>)
    requires ValidRing(st.ring)
  {
    if raw == [] then (st, Err(EmptySecret))
    else if IndexOf(st.rows, organization, handle).Some? then (st, Err(DuplicateHandle))
    else
      var row := Row(organization, handle, true, 1, Seal(c, st.ring, nonce, raw));
      (st.(rows := Insert(st.rows, row)), Ok(MetadataOf(row)))
  }

  function Rotate(c: Crypto, st: Store, organization: string, handle: string, nonce: Bytes, raw: Bytes): (Store, Result<Metadata, Error>)
    requires ValidRing(st.ring)
  {
    var k := IndexOf(st.rows, organization, handle);
    if raw == [] then (st, Err(EmptySecret))
    else if k.None? then (st, Err(NotFound))
    else if !st.rows[k.value].active then (st, Err(IsRevoked))
    else
      var row := st.rows[k.value];
      var next := row.(payload := Seal(c, st.ring, nonce, raw), version := row.version + 1);
      (st.(rows := st.rows[k.value := next]), Ok(MetadataOf(next)))
  }

  function Revoke(st: Store, organization: string, handle: string): (Store, Result<Metadata, Error>) {
    var k := IndexOf(st.rows, organization, handle);
    if k.None? then (st, Err(NotFound))
    else
      var next := st.rows[k.value].(active := false);
      (st.(rows := st.rows[k.value := next]), Ok(MetadataOf(next)))
  }

  function Resolve(c: Crypto, st: Store, organization: string, handle: string): Result<Bytes, Error> {
    var k := IndexOf(st.rows, organization, handle);
    if k.None? then Err(NotFound)
    else if !st.rows[k.value].active then Err(IsRevoked)
    else Unseal(c, st.ring.keys, st.rows[k.value].payload)
  }

  function Reseal(c: Crypto, st: Store, organization: string, handle: string, nonce: Bytes): (Store, Result<Metadata, Error>)
    requires ValidRing(st.ring)
  {
    var plain := Resolve(c, st, organization, handle);
    if plain.Err? then (st, Err(plain.error)) else Rotate(c, st, organization, handle, nonce, plain.value)
  }

  /** The active handles of an organisation in the table's order, which is the order of the listing. */
  function ActiveHandles(rows: seq<Row>, organization: string): seq<string> {
    if rows == [] then []
    else
      var own := rows[0].organization == organization && rows[0].active;
      (if own then [rows[0].handle] else []) + ActiveHandles(rows[1..], organization)
  }

  /** Re-seal the handles from the `i`-th on; an error stops the pass and keeps what was done. */
  function ResealFrom(c: Crypto, st: Store, organization: string, handles: seq<string>, nonces: nat -> Bytes, i: nat): (r: (Store, Result<seq<string>, Error>))
    requires ValidRing(st.ring) && i <= |handles|
    ensures r.0.ring == st.ring
    decreases |handles| - i
  {
    if i == |handles| then (st, Ok(handles))
    else
      var step := Reseal(c, st, organization, handles[i], nonces(i));
      if step.1.Err? then (step.0, Err(step.1.error))
      else ResealFrom(c, step.0, organization, handles, nonces, i + 1)
  }

  function ResealAll(c: Crypto, st: Store, organization: string, nonces: nat -> Bytes): (Store, Result<seq<string>, Error>)
    requires ValidRing(st.ring)
  {
    ResealFrom(c, st, organization, ActiveHandles(st.rows, organization), nonces, 0)
  }

  class TrustedSecretStore {
    const crypto: Crypto
    var ring: Ring
    var rows: seq<Row>

    constructor (crypto: Crypto, ring: Ring, table: seq<Row>)
      ensures this.crypto == crypto && Now() == Store(ring, table)
    {
      this.crypto := crypto;
      this.ring := ring;
      rows := table;
    }

    /** Opening the database: the table is created if it is not there, and kept as it is if it is. */
    static method LocalDev(crypto: Crypto, master: Bytes, table: seq<Row>) returns (r: Result<TrustedSecretStore, Error>)
      ensures InitialRing(crypto, master).Err? ==> r == Err(InitialRing(crypto, master).error)
      ensures InitialRing(crypto, master).Ok? ==>
        r.Ok? && fresh(r.value) && r.value.crypto == crypto &&
        r.value.Now() == Store(InitialRing(crypto, master).value, table)
    {
      var ring := InitialRing(crypto, master);
      if ring.Err? {
        return Err(ring.error);
      }
      var store := new TrustedSecretStore(crypto, ring.value, table);
      r := Ok(store);
    }

    function Now(): Store
      reads this
    {
      Store(ring, rows)
    }

    method AddDataKey(id: string, master: Bytes, makeCurrent: bool) returns (r: Result<(), Error>)
      modifies this`ring
      ensures ring == ApplyRing(crypto, old(ring), Add(id, master, makeCurrent))
      ensures r == (if id == "" then Err(EmptyKeyId) else if '.' in id then Err(DottedKeyId)
                    else if master == [] then Err(EmptyMasterKey) else if id in Ids(old(ring).keys) then Err(DuplicateKeyId)
                    else Ok(()))
      ensures r.Err? ==> ring == old(ring)
      ensures r.Ok? ==> ring == Ring(old(ring).keys + [DataKey(id, crypto.derive(master))],
                                     if makeCurrent then id else old(ring).current)
    {
      KnownIff(ring.keys, id);
      var added := AddKey(crypto, ring, id, master, makeCurrent);
      if added.Err? {
        return Err(added.error);
      }
      ring := added.value;
      r := Ok(());
    }

    method SetCurrentKey(id: string) returns (r: Result<(), Error>)
      modifies this`ring
      ensures ring == ApplyRing(crypto, old(ring), Promote(id))
      ensures r == if id in Ids(old(ring).keys) then Ok(()) else Err(UnknownKey(id))
      ensures ring == if r.Ok? then Ring(old(ring).keys, id) else old(ring)
    {
      KnownIff(ring.keys, id);
      if KeyFor(ring.keys, id).None? {
        return Err(UnknownKey(id));
      }
      ring := ring.(current := id);
      r := Ok(());
    }

    method CreateSecret(organization: string, handle: string, nonce: Bytes, raw: Bytes) returns (r: Result<Metadata, Error>)
      requires ValidRing(ring)
      modifies this`rows
      ensures (Now(), r) == Create(crypto, old(Now()), organization, handle, nonce, raw)
    {
      if raw == [] {
        return Err(EmptySecret);
      }
      var payload := Seal(crypto, ring, nonce, raw);
      if IndexOf(rows, organization, handle).Some? {
        return Err(DuplicateHandle);
      }
      var row := Row(organization, handle, true, 1, payload);
      rows := Insert(rows, row);
      r := Ok(MetadataOf(row));
    }

    method RotateSecret(organization: string, handle: string, nonce: Bytes, raw: Bytes) returns (r: Result<Metadata, Error>)
      requires ValidRing(ring)
      modifies this`rows
      ensures (Now(), r) == Rotate(crypto, old(Now()), organization, handle, nonce, raw)
    {
      if raw == [] {
        return Err(EmptySecret);
      }
      var k := IndexOf(rows, organization, handle);
      if k.None? {
        return Err(NotFound);
      }
      var row := rows[k.value];
      if !row.active {
        return Err(IsRevoked);
      }
      row := row.(payload := Seal(crypto, ring, nonce, raw), version := row.version + 1);
      rows := rows[k.value := row];
      r := Ok(MetadataOf(row));
    }

    method RevokeSecret(organization: string, handle: string) returns (r: Result<Metadata, Error>)
      modifies this`rows
      ensures (Now(), r) == Revoke(old(Now()), organization, handle)
    {
      var k := IndexOf(rows, organization, handle);
      if k.None? {
        return Err(NotFound);
      }
      rows := rows[k.value := rows[k.value].(active := false)];
      r := Ok(MetadataOf(rows[k.value]));
    }

    method ResolveSecret(organization: string, handle: string) returns (r: Result<Bytes, Error>)
      ensures r == Resolve(crypto, Now(), organization, handle)
    {
      var k := IndexOf(rows, organization, handle);
      if k.None? {
        return Err(NotFound);
      }
      if !rows[k.value].active {
        return Err(IsRevoked);
      }
      r := Unseal(crypto, ring.keys, rows[k.value].payload);
    }

    method ResealSecret(organization: string, handle: string, nonce: Bytes) returns (r: Result<Metadata, Error>)
      requires ValidRing(ring)
      modifies this`rows
      ensures (Now(), r) == Reseal(crypto, old(Now()), organization, handle, nonce)
    {
      var plain := ResolveSecret(organization, handle);
      if plain.Err? {
        return Err(plain.error);
      }
      r := RotateSecret(organization, handle, nonce, plain.value);
    }

    method ResealAllSecrets(organization: string, nonces: nat -> Bytes) returns (r: Result<seq<string>, Error>)
      requires ValidRing(ring)
      modifies this`rows
      ensures (Now(), r) == ResealAll(crypto, old(Now()), organization, nonces)
    {
      hide Reseal, ValidRing;
      var handles := ActiveHandles(rows, organization);
      var resealed := [];
      for i := 0 to |handles|
        invariant ring == old(ring) && resealed == handles[..i]
        invariant ResealFrom(crypto, Now(), organization, handles, nonces, i) == ResealAll(crypto, old(Now()), organization, nonces)
      {
        var step := ResealSecret(organization, handles[i], nonces(i));
        if step.Err? {
          return Err(step.error);
        }
        resealed := resealed + [handles[i]];
      }
      assert resealed == handles;
      r := Ok(resealed);
    }
  }

  // ---- What reachable stores keep ----

  ghost predicate Opens(c: Crypto, keys: seq<DataKey>, payload: string) {
    Unseal(c, keys, payload).Ok? && Unseal(c, keys, payload).value != [] && c.isUtf8(Unseal(c, keys, payload).value)
  }

  /** The ring is usable, the table is in key order, and every stored payload opens to a non-empty secret. */
  ghost predicate Inv(c: Crypto, st: Store) {
    && ValidRing(st.ring) && Sorted(st.rows)
    && forall k :: 0 <= k < |st.rows| ==> Opens(c, st.ring.keys, st.rows[k].payload)
  }

  lemma SealOpens(c: Crypto, ring: Ring, nonce: Bytes, raw: Bytes)
    requires Ideal(c) && ValidRing(ring) && |nonce| == NONCE_LENGTH && c.isUtf8(raw) && raw != []
    ensures Opens(c, ring.keys, Seal(c, ring, nonce, raw))
    ensures Unseal(c, ring.keys, Seal(c, ring, nonce, raw)) == Ok(raw)
  {
    hide Unseal, Seal, ValidRing;
    SealedOpens(c, ring, nonce, raw, ring.keys);
  }

  lemma SortedIsUnique(rows: seq<Row>, i: nat, j: nat)
    requires Sorted(rows) && i < |rows| && j < |rows| && At(rows[j], rows[i].organization, rows[i].handle)
    ensures i == j
  {
    hide Before;
    BeforeSameKey(rows[i], rows[j]);
  }

  lemma BeforeSameKey(r: Row, s: Row)
    requires At(s, r.organization, r.handle)
    ensures !Before(r, s) && !Before(s, r)
  {
    BeforeIsOrder(r, s, r);
    BeforeIsOrder(s, r, s);
    LessIsOrder(r.organization, r.organization, r.organization);
    LessIsOrder(r.handle, r.handle, r.handle);
  }

  lemma UpdateKeepsSorted(rows: seq<Row>, k: nat, row: Row)
    requires Sorted(rows) && k < |rows| && At(row, rows[k].organization, rows[k].handle)
    ensures Sorted(rows[k := row])
  {
    hide Less;
    var after := rows[k := row];
    forall i, j | 0 <= i < j < |after|
      ensures Before(after[i], after[j])
    {
      assert Before(rows[i], rows[j]);
    }
  }

  lemma UpdateKeepsInv(c: Crypto, st: Store, k: nat, row: Row)
    requires Inv(c, st) && k < |st.rows| && At(row, st.rows[k].organization, st.rows[k].handle)
    requires Opens(c, st.ring.keys, row.payload)
    ensures Inv(c, st.(rows := st.rows[k := row]))
  {
    hide Opens, ValidRing, Sorted;
    UpdateKeepsSorted(st.rows, k, row);
  }

  datatype Op =
    | CreateOp(organization: string, handle: string, nonce: Bytes, raw: Bytes)
    | RotateOp(organization: string, handle: string, nonce: Bytes, raw: Bytes)
    | RevokeOp(organization: string, handle: string)
    | ResealOp(organization: string, handle: string, nonce: Bytes)
    | ResealAllOp(organization: string, nonces: nat -> Bytes)
    | RingStep(op: RingOp)

  /** Secrets are text and nonces have the AEAD's length. */
  ghost predicate WellTyped(c: Crypto, op: Op) {
    match op
    case CreateOp(_, _, nonce, raw) => |nonce| == NONCE_LENGTH && c.isUtf8(raw)
    case RotateOp(_, _, nonce, raw) => |nonce| == NONCE_LENGTH && c.isUtf8(raw)
    case RevokeOp(_, _) => true
    case ResealOp(_, _, nonce) => |nonce| == NONCE_LENGTH
    case ResealAllOp(_, nonces) => forall i: nat :: |nonces(i)| == NONCE_LENGTH
    case RingStep(_) => true
  }

  function Apply(c: Crypto, st: Store, op: Op): (r: Store)
    requires ValidRing(st.ring)
    ensures ValidRing(r.ring)
  {
    match op
    case CreateOp(organization, handle, nonce, raw) => Create(c, st, organization, handle, nonce, raw).0
    case RotateOp(organization, handle, nonce, raw) => Rotate(c, st, organization, handle, nonce, raw).0
    case RevokeOp(organization, handle) => Revoke(st, organization, handle).0
    case ResealOp(organization, handle, nonce) => Reseal(c, st, organization, handle, nonce).0
    case ResealAllOp(organization, nonces) => ResealAll(c, st, organization, nonces).0
    case RingStep(op) => ApplyRingKeeps(c, st.ring, op); st.(ring := ApplyRing(c, st.ring, op))
  }

  lemma CreateKeepsInv(c: Crypto, st: Store, organization: string, handle: string, nonce: Bytes, raw: Bytes)
    requires Ideal(c) && Inv(c, st) && |nonce| == NONCE_LENGTH && c.isUtf8(raw)
    ensures Inv(c, Create(c, st, organization, handle, nonce, raw).0)
  {
    hide Opens, ValidRing, Insert, Sorted;
    if raw != [] && IndexOf(st.rows, organization, handle).None? {
      var row := Row(organization, handle, true, 1, Seal(c, st.ring, nonce, raw));
      InsertKeepsSorted(st.rows, row);
      SealOpens(c, st.ring, nonce, raw);
      var rows := Insert(st.rows, row);
      forall k | 0 <= k < |rows|
        ensures Opens(c, st.ring.keys, rows[k].payload)
      {
        assert rows[k] in multiset(rows);
        assert rows[k] == row || rows[k] in st.rows;
      }
    }
  }

  lemma RotateKeepsInv(c: Crypto, st: Store, organization: string, handle: string, nonce: Bytes, raw: Bytes)
    requires Ideal(c) && Inv(c, st) && |nonce| == NONCE_LENGTH && c.isUtf8(raw)
    ensures Inv(c, Rotate(c, st, organization, handle, nonce, raw).0)
    ensures Rotate(c, st, organization, handle, nonce, raw).0.ring == st.ring
  {
    hide Opens, ValidRing, Sorted, Seal;
    var k := IndexOf(st.rows, organization, handle);
    if raw != [] && k.Some? && st.rows[k.value].active {
      SealOpens(c, st.ring, nonce, raw);
      var row := st.rows[k.value];
      UpdateKeepsInv(c, st, k.value, row.(payload := Seal(c, st.ring, nonce, raw), version := row.version + 1));
    }
  }

  lemma ResealKeepsInv(c: Crypto, st: Store, organization: string, handle: string, nonce: Bytes)
    requires Ideal(c) && Inv(c, st) && |nonce| == NONCE_LENGTH
    ensures Inv(c, Reseal(c, st, organization, handle, nonce).0)
    ensures Reseal(c, st, organization, handle, nonce).0.ring == st.ring
  {
    hide ValidRing, Sorted, Rotate, Unseal;
    var plain := Resolve(c, st, organization, handle);
    if plain.Ok? {
      RotateKeepsInv(c, st, organization, handle, nonce, plain.value);
    }
  }

  lemma {:induction false} ResealFromKeepsInv(c: Crypto, st: Store, organization: string, handles: seq<string>, nonces: nat -> Bytes, i: nat)
    requires Ideal(c) && Inv(c, st) && i <= |handles| && forall n: nat :: |nonces(n)| == NONCE_LENGTH
    ensures Inv(c, ResealFrom(c, st, organization, handles, nonces, i).0)
    decreases |handles| - i
  {
    hide Reseal, Opens, Sorted, ValidRing;
    if i < |handles| {
      ResealKeepsInv(c, st, organization, handles[i], nonces(i));
      ResealFromKeepsInv(c, Reseal(c, st, organization, handles[i], nonces(i)).0, organization, handles, nonces, i + 1);
    }
  }

  lemma RingStepKeepsInv(c: Crypto, st: Store, op: RingOp)
    requires Ideal(c) && Inv(c, st)
    ensures Inv(c, st.(ring := ApplyRing(c, st.ring, op)))
  {
    hide ValidRing, Sorted, ApplyRing, Unseal;
    ApplyRingKeeps(c, st.ring, op);
    forall k | 0 <= k < |st.rows|
      ensures Opens(c, ApplyRing(c, st.ring, op).keys, st.rows[k].payload)
    {
      UnsealIsStable(c, st.ring.keys, ApplyRing(c, st.ring, op).keys, st.rows[k].payload);
    }
  }

  /** What opened keeps opening to the same secret when keys are only added. */
  lemma UnsealIsStable(c: Crypto, keys: seq<DataKey>, more: seq<DataKey>, payload: string)
    requires Unseal(c, keys, payload).Ok?
    requires forall id :: KeyFor(keys, id).Some? ==> KeyFor(more, id) == KeyFor(keys, id)
    ensures Unseal(c, more, payload) == Unseal(c, keys, payload)
  {
    hide KeyFor, Fields, DotIndex, HexDecode;
  }

  lemma ApplyKeepsInv(c: Crypto, st: Store, op: Op)
    requires Ideal(c) && Inv(c, st) && WellTyped(c, op)
    ensures Inv(c, Apply(c, st, op))
  {
    hide Inv, Create, Rotate, Reseal, ResealFrom;
    assert ValidRing(st.ring) by {
      InvRing(c, st);
    }
    match op
    case CreateOp(organization, handle, nonce, raw) => CreateKeepsInv(c, st, organization, handle, nonce, raw);
    case RotateOp(organization, handle, nonce, raw) => RotateKeepsInv(c, st, organization, handle, nonce, raw);
    case RevokeOp(organization, handle) => RevokeKeepsInv(c, st, organization, handle);
    case ResealOp(organization, handle, nonce) => ResealKeepsInv(c, st, organization, handle, nonce);
    case ResealAllOp(organization, nonces) =>
      ResealFromKeepsInv(c, st, organization, ActiveHandles(st.rows, organization), nonces, 0);
    case RingStep(op) => RingStepKeepsInv(c, st, op);
  }

  lemma InvRing(c: Crypto, st: Store)
    requires Inv(c, st)
    ensures ValidRing(st.ring)
  {
  }

  lemma RevokeKeepsInv(c: Crypto, st: Store, organization: string, handle: string)
    requires Inv(c, st)
    ensures Inv(c, Revoke(st, organization, handle).0)
  {
    hide Inv;
    var k := IndexOf(st.rows, organization, handle);
    if k.Some? {
      InvOpens(c, st, k.value);
      UpdateKeepsInv(c, st, k.value, st.rows[k.value].(active := false));
    }
  }

  lemma InvOpens(c: Crypto, st: Store, k: nat)
    requires Inv(c, st) && k < |st.rows|
    ensures Opens(c, st.ring.keys, st.rows[k].payload)
  {
  }

  function Run(c: Crypto, st: Store, ops: seq<Op>): (r: Store)
    requires ValidRing(st.ring)
    ensures ValidRing(r.ring)
    decreases |ops|
  {
    if ops == [] then st else Run(c, Apply(c, st, ops[0]), ops[1..])
  }

  lemma {:induction false} RunKeepsInv(c: Crypto, st: Store, ops: seq<Op>)
    requires Ideal(c) && Inv(c, st) && forall k :: 0 <= k < |ops| ==> WellTyped(c, ops[k])
    ensures Inv(c, Run(c, st, ops))
    decreases |ops|
  {
    if ops != [] {
      ApplyKeepsInv(c, st, ops[0]);
      hide Inv, Apply, WellTyped, Ideal, ValidRing;
      RunKeepsInv(c, Apply(c, st, ops[0]), ops[1..]);
    }
  }

  /** A new store keeps what reachable stores keep. */
  lemma FreshStoreInv(c: Crypto, master: Bytes)
    requires InitialRing(c, master).Ok?
    ensures Inv(c, Store(InitialRing(c, master).value, []))
  {
    assert NoDot(LEGACY);
  }

  // ---- What a re-sealing pass does ----

  /** `s` is `r` sealed anew under the current key: one version on, and nothing else changed. */
  ghost predicate Moved(c: Crypto, ring: Ring, r: Row, s: Row)
    requires ValidRing(ring)
  {
    && s == r.(payload := s.payload, version := r.version + 1)
    && Unseal(c, ring.keys, r.payload).Ok?
    && Unseal(c, ring.keys, s.payload) == Unseal(c, ring.keys, r.payload)
    && exists nonce :: s.payload == Seal(c, ring, nonce, Unseal(c, ring.keys, r.payload).value)
  }

  predicate Due(row: Row, organization: string) {
    row.organization == organization && row.active
  }

  lemma {:induction false} ActiveHandlesAre(rows: seq<Row>, organization: string)
    requires Sorted(rows)
    ensures forall h :: h in ActiveHandles(rows, organization) <==>
      exists k :: 0 <= k < |rows| && Due(rows[k], organization) && rows[k].handle == h
  {
    if rows != [] {
      var rest := rows[1..];
      ActiveHandlesAre(rest, organization);
      forall h
        ensures h in ActiveHandles(rows, organization) <==> exists k :: 0 <= k < |rows| && Due(rows[k], organization) && rows[k].handle == h
      {
        if h in ActiveHandles(rest, organization) {
          var k :| 0 <= k < |rest| && Due(rest[k], organization) && rest[k].handle == h;
          assert Due(rows[k + 1], organization);
        }
        if k :| 0 <= k < |rows| && Due(rows[k], organization) && rows[k].handle == h {
          assert k > 0 ==> Due(rest[k - 1], organization);
        }
      }
    }
  }

  lemma AscendingCons(h: string, l: seq<string>)
    requires Ascending(l) && forall j :: 0 <= j < |l| ==> Less(h, l[j])
    ensures Ascending([h] + l)
  {
  }

  lemma {:induction false} ActiveHandlesSorted(rows: seq<Row>, organization: string)
    requires Sorted(rows)
    ensures Ascending(ActiveHandles(rows, organization))
  {
    if rows != [] {
      var rest, restHandles := rows[1..], ActiveHandles(rows[1..], organization);
      ActiveHandlesSorted(rest, organization);
      if Due(rows[0], organization) {
        forall j | 0 <= j < |restHandles|
          ensures Less(rows[0].handle, restHandles[j])
        {
          ActiveHandlesAre(rest, organization);
          assert restHandles[j] in restHandles;
          var k :| 0 <= k < |rest| && Due(rest[k], organization) && rest[k].handle == restHandles[j];
          assert Before(rows[0], rows[k + 1]);
          LessIsOrder(organization, organization, organization);
        }
        AscendingCons(rows[0].handle, restHandles);
        assert ActiveHandles(rows, organization) == [rows[0].handle] + restHandles;
      } else {
        assert ActiveHandles(rows, organization) == restHandles;
      }
    }
  }

  lemma ActiveHandlesDistinct(rows: seq<Row>, organization: string, i: nat)
    requires Sorted(rows) && i < |ActiveHandles(rows, organization)|
    ensures ActiveHandles(rows, organization)[i] !in ActiveHandles(rows, organization)[..i]
  {
    hide Less;
    var l := ActiveHandles(rows, organization);
    ActiveHandlesSorted(rows, organization);
    LessIsOrder(l[i], l[i], l[i]);
  }

  /** The rows after the first `i` handles have been re-sealed. */
  ghost predicate Migrated(c: Crypto, ring: Ring, before: seq<Row>, after: seq<Row>, organization: string, handles: seq<string>)
    requires ValidRing(ring)
  {
    && |after| == |before|
    && forall k :: 0 <= k < |before| ==>
      if Due(before[k], organization) && before[k].handle in handles then Moved(c, ring, before[k], after[k])
      else after[k] == before[k]
  }

  lemma ResealRow(c: Crypto, st: Store, k: nat, nonce: Bytes)
    requires Ideal(c) && |nonce| == NONCE_LENGTH && ValidRing(st.ring)
    requires k < |st.rows| && st.rows[k].active && Opens(c, st.ring.keys, st.rows[k].payload)
    requires IndexOf(st.rows, st.rows[k].organization, st.rows[k].handle) == Some(k)
    ensures var (next, r) := Reseal(c, st, st.rows[k].organization, st.rows[k].handle, nonce);
      r.Ok? && next.ring == st.ring && |next.rows| == |st.rows|
      && next.rows == st.rows[k := next.rows[k]] && Moved(c, st.ring, st.rows[k], next.rows[k])
  {
    hide ValidRing, Unseal, Seal, IndexOf;
    SealOpens(c, st.ring, nonce, Unseal(c, st.ring.keys, st.rows[k].payload).value);
  }

  /** The row a listed handle names: it is the only one of its key. */
  lemma ListedRow(rows: seq<Row>, organization: string, i: nat) returns (k: nat)
    requires Sorted(rows) && i < |ActiveHandles(rows, organization)|
    ensures k < |rows| && Due(rows[k], organization) && rows[k].handle == ActiveHandles(rows, organization)[i]
    ensures rows[k].handle !in ActiveHandles(rows, organization)[..i]
    ensures forall j :: 0 <= j < |rows| && At(rows[j], organization, rows[k].handle) ==> j == k
  {
    hide ActiveHandles, Sorted;
    ActiveHandlesAre(rows, organization);
    ActiveHandlesDistinct(rows, organization, i);
    var h := ActiveHandles(rows, organization)[i];
    assert h in ActiveHandles(rows, organization);
    k :| 0 <= k < |rows| && Due(rows[k], organization) && rows[k].handle == h;
    forall j | 0 <= j < |rows| && At(rows[j], organization, h)
      ensures j == k
    {
      SortedIsUnique(rows, k, j);
    }
  }

  lemma MoveOne(c: Crypto, ring: Ring, before: seq<Row>, st: Store, organization: string, handles: seq<string>, i: nat, nonce: Bytes)
    requires Ideal(c) && |nonce| == NONCE_LENGTH && ValidRing(ring) && st.ring == ring
    requires Inv(c, Store(ring, before)) && handles == ActiveHandles(before, organization) && i < |handles|
    requires Migrated(c, ring, before, st.rows, organization, handles[..i])
    ensures var (next, r) := Reseal(c, st, organization, handles[i], nonce);
      r.Ok? && next.ring == ring && Migrated(c, ring, before, next.rows, organization, handles[..i + 1])
  {
    hide ValidRing, Reseal, ActiveHandles, Opens, Sorted, Moved;
    var k := ListedRow(before, organization, i);
    assert st.rows[k] == before[k];
    SameKeys(c, ring, before, st.rows, organization, handles[..i]);
    var at := IndexOf(st.rows, organization, handles[i]);
    assert At(before[at.value], organization, handles[i]);
    ResealRow(c, st, k, nonce);
    assert handles[..i + 1] == handles[..i] + [handles[i]];
  }

  lemma SameKeys(c: Crypto, ring: Ring, before: seq<Row>, after: seq<Row>, organization: string, handles: seq<string>)
    requires ValidRing(ring) && Migrated(c, ring, before, after, organization, handles)
    ensures |after| == |before|
    ensures forall k :: 0 <= k < |before| ==> At(after[k], before[k].organization, before[k].handle)
  {
  }

  lemma {:induction false} MoveRest(c: Crypto, ring: Ring, before: seq<Row>, st: Store, organization: string, nonces: nat -> Bytes, i: nat)
    requires Ideal(c) && ValidRing(ring) && st.ring == ring && Inv(c, Store(ring, before))
    requires forall n: nat :: |nonces(n)| == NONCE_LENGTH
    requires i <= |ActiveHandles(before, organization)|
    requires Migrated(c, ring, before, st.rows, organization, ActiveHandles(before, organization)[..i])
    ensures var handles := ActiveHandles(before, organization);
      var (end, r) := ResealFrom(c, st, organization, handles, nonces, i);
      r == Ok(handles) && end.ring == ring && Migrated(c, ring, before, end.rows, organization, handles)
    decreases |ActiveHandles(before, organization)| - i
  {
    hide Migrated, Inv, ValidRing, Reseal, ActiveHandles;
    var handles := ActiveHandles(before, organization);
    if i < |handles| {
      MoveOne(c, ring, before, st, organization, handles, i, nonces(i));
      MoveRest(c, ring, before, Reseal(c, st, organization, handles[i], nonces(i)).0, organization, nonces, i + 1);
    } else {
      assert handles[..i] == handles;
    }
  }

  /**
   A re-sealing pass over a reachable store succeeds: every active secret of the organisation is sealed
   under the current key with the same value and one version on, every revoked or foreign row is
   untouched, and the handles returned are exactly the active ones in the order of the listing.
   */
  lemma ResealAllMigrates(c: Crypto, st: Store, organization: string, nonces: nat -> Bytes)
    requires Ideal(c) && Inv(c, st) && forall n: nat :: |nonces(n)| == NONCE_LENGTH
    ensures var (end, r) := ResealAll(c, st, organization, nonces);
      && r == Ok(ActiveHandles(st.rows, organization))
      && end.ring == st.ring && |end.rows| == |st.rows|
      && forall k :: 0 <= k < |st.rows| ==>
        if Due(st.rows[k], organization) then Moved(c, st.ring, st.rows[k], end.rows[k])
        else end.rows[k] == st.rows[k]
  {
    hide Moved, Before, Opens;
    var handles := ActiveHandles(st.rows, organization);
    assert handles[..0] == [];
    MoveRest(c, st.ring, st.rows, st, organization, nonces, 0);
    ActiveHandlesAre(st.rows, organization);
  }
}
