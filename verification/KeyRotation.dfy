/**
 What a history of key operations leaves behind, told from the operations alone: which ids are registered, under
 which keys, and which id new secrets are sealed under. And so what a rotation followed by a re-sealing pass achieves.
 */
module KeyRotation {
  import opened ByteStrings
  import opened Text
  import opened SealedPayload
  import opened SecretStore
  import opened SecretMeaning

  /** The ids registered after the first `n` operations, when `initial` were there before. */
  function IdsAfter(initial: set<string>, ops: seq<RingOp>, n: nat): set<string>
    requires n <= |ops|
    decreases n, 0
  {
    if n == 0 then initial
    else if Registers(initial, ops, n - 1) then IdsAfter(initial, ops, n - 1) + {ops[n - 1].id}
    else IdsAfter(initial, ops, n - 1)
  }

  /** Operation `k` registers a key: its id is not empty, holds no dot and is new, and there is a master key. */
  predicate Registers(initial: set<string>, ops: seq<RingOp>, k: nat)
    requires k < |ops|
    decreases k, 1
  {
    match ops[k]
    case Add(id, master, _) => id != "" && '.' !in id && master != [] && id !in IdsAfter(initial, ops, k)
    case Promote(_) => false
  }

  /** Operation `k` makes its id the current one: it registers a key and asks for that, or promotes a registered one. */
  predicate Promotes(initial: set<string>, ops: seq<RingOp>, k: nat)
    requires k < |ops|
  {
    match ops[k]
    case Add(_, _, makeCurrent) => makeCurrent && Registers(initial, ops, k)
    case Promote(id) => id in IdsAfter(initial, ops, k)
  }

  lemma {:induction false} RunRingPrefix(c: Crypto, ring: Ring, ops: seq<RingOp>, n: nat)
    requires n < |ops|
    ensures RunRing(c, ring, ops[..n + 1]) == ApplyRing(c, RunRing(c, ring, ops[..n]), ops[n])
    decreases n
  {
    hide ApplyRing;
    if n == 0 {
      assert ops[..1] == [ops[0]] && ops[..1][1..] == [] && ops[..0] == [];
      assert RunRing(c, ring, ops[..1]) == RunRing(c, ApplyRing(c, ring, ops[0]), ops[..1][1..]);
    } else {
      assert ops[..n + 1][1..] == ops[1..][..n] && ops[..n][1..] == ops[1..][..n - 1];
      RunRingPrefix(c, ApplyRing(c, ring, ops[0]), ops[1..], n - 1);
    }
  }

  lemma AppliedIds(c: Crypto, ring: Ring, op: RingOp)
    ensures var next := ApplyRing(c, ring, op);
      match op
      case Add(id, master, makeCurrent) =>
        if id != "" && '.' !in id && master != [] && id !in Ids(ring.keys)
        then next == Ring(ring.keys + [DataKey(id, c.derive(master))], if makeCurrent then id else ring.current)
        else next == ring
      case Promote(id) => next == if id in Ids(ring.keys) then Ring(ring.keys, id) else ring
  {
    hide KeyFor, Ids;
    KnownIff(ring.keys, op.id);
  }

  lemma IdsPushed(keys: seq<DataKey>, key: DataKey)
    ensures Ids(keys + [key]) == Ids(keys) + {key.id}
  {
    var all := keys + [key];
    forall id
      ensures id in Ids(all) <==> id in Ids(keys) || id == key.id
    {
      if id in Ids(keys) {
        var k :| 0 <= k < |keys| && keys[k].id == id;
        assert all[k].id == id;
      }
      assert all[|keys|].id == key.id;
    }
  }

  lemma {:induction false} RunRingIds(c: Crypto, ring: Ring, ops: seq<RingOp>, n: nat)
    requires n <= |ops|
    ensures Ids(RunRing(c, ring, ops[..n]).keys) == IdsAfter(Ids(ring.keys), ops, n)
  {
    hide ApplyRing, Ids;
    if n > 0 {
      RunRingIds(c, ring, ops, n - 1);
      RunRingPrefix(c, ring, ops, n - 1);
      var before := RunRing(c, ring, ops[..n - 1]);
      AppliedIds(c, before, ops[n - 1]);
      if ops[n - 1].Add? {
        IdsPushed(before.keys, DataKey(ops[n - 1].id, c.derive(ops[n - 1].master)));
      }
    } else {
      assert ops[..0] == [];
    }
  }

  /** One operation of a history: it registers and promotes exactly when the history before it says so. */
  lemma HistoryStep(c: Crypto, ring: Ring, ops: seq<RingOp>, k: nat)
    requires k < |ops|
    ensures var before, after := RunRing(c, ring, ops[..k]), RunRing(c, ring, ops[..k + 1]);
      && after.current == (if Promotes(Ids(ring.keys), ops, k) then ops[k].id else before.current)
      && (if Registers(Ids(ring.keys), ops, k) then after.keys == before.keys + [DataKey(ops[k].id, c.derive(ops[k].master))]
          else after.keys == before.keys)
  {
    hide ApplyRing, Ids, RunRing;
    RunRingPrefix(c, ring, ops, k);
    RunRingIds(c, ring, ops, k);
    AppliedIds(c, RunRing(c, ring, ops[..k]), ops[k]);
  }

  /** The current id is that of the last operation that makes its id current, or the first one if there is none. */
  lemma {:induction false} CurrentIsLastPromoted(c: Crypto, ring: Ring, ops: seq<RingOp>, n: nat)
    requires n <= |ops|
    ensures var initial, current := Ids(ring.keys), RunRing(c, ring, ops[..n]).current;
      && (forall k :: 0 <= k < n && Promotes(initial, ops, k) && (forall j :: k < j < n ==> !Promotes(initial, ops, j)) ==>
            current == ops[k].id)
      && ((forall k :: 0 <= k < n ==> !Promotes(initial, ops, k)) ==> current == ring.current)
  {
    hide Ids, Promotes, Registers;
    if n > 0 {
      CurrentIsLastPromoted(c, ring, ops, n - 1);
      HistoryStep(c, ring, ops, n - 1);
    } else {
      assert ops[..0] == [];
    }
  }

  /** A key that was registered stays under its id, derived from the master key it came with. */
  lemma {:induction false} RegisteredKeyIs(c: Crypto, ring: Ring, ops: seq<RingOp>, k: nat, n: nat)
    requires k < n <= |ops| && Registers(Ids(ring.keys), ops, k)
    ensures KeyFor(RunRing(c, ring, ops[..n]).keys, ops[k].id) == Some(c.derive(ops[k].master))
    decreases n
  {
    hide Ids, KeyFor, Promotes;
    HistoryStep(c, ring, ops, n - 1);
    var before := RunRing(c, ring, ops[..n - 1]);
    if n == k + 1 {
      var added := DataKey(ops[k].id, c.derive(ops[k].master));
      RunRingIds(c, ring, ops, k);
      KnownIff(before.keys, ops[k].id);
      KeyForAppend(before.keys, [added], ops[k].id);
      OnlyKey(added);
    } else {
      RegisteredKeyIs(c, ring, ops, k, n - 1);
      if ops[n - 1].Add? {
        KeyForAppend(before.keys, [DataKey(ops[n - 1].id, c.derive(ops[n - 1].master))], ops[k].id);
      }
    }
  }

  lemma OnlyKey(key: DataKey)
    ensures KeyFor([key], key.id) == Some(key.key)
  {
  }

  // ---- Rotation ----

  /**
   Rotating: after a new key has been added as the current one and everything re-sealed, every active payload of the
   organization names the new key and opens, to the same secret as before, under that key alone.
   */
  lemma RotationMigrates(
    c: Crypto, st: Store, id: string, master: Bytes, organization: string, nonces: nat -> Bytes, k: nat)
    requires Ideal(c) && Inv(c, st) && forall n: nat :: |nonces(n)| == NONCE_LENGTH
    requires id != "" && '.' !in id && master != [] && id !in Ids(st.ring.keys)
    requires k < |st.rows| && st.rows[k].organization == organization && st.rows[k].active
    ensures var rotated := st.(ring := ApplyRing(c, st.ring, Add(id, master, true)));
      && ValidRing(rotated.ring)
      && var (end, r) := ResealAll(c, rotated, organization, nonces);
      && r.Ok? && |end.rows| == |st.rows|
      && "v2." + id + "." <= end.rows[k].payload && KeyIdOf(end.rows[k].payload) == id
      && Unseal(c, [DataKey(id, c.derive(master))], end.rows[k].payload) == Unseal(c, st.ring.keys, st.rows[k].payload)
  {
    hide Opens, Seal, Unseal, KeyIdOf, ResealAll, Ids, ApplyRing, KeyFor, Sorted, ValidRing;
    var op := Add(id, master, true);
    var rotated := st.(ring := ApplyRing(c, st.ring, op));
    InvRing(c, st);
    AppliedIds(c, st.ring, op);
    ApplyRingKeeps(c, st.ring, op);
    RingStepKeepsInv(c, st, op);
    ResealAllMigrates(c, rotated, organization, nonces);
    var payload := ResealAll(c, rotated, organization, nonces).0.rows[k].payload;
    assert Due(st.rows[k], organization);
    var nonce :| payload == Seal(c, rotated.ring, nonce, Unseal(c, rotated.ring.keys, st.rows[k].payload).value);
    SealNames(c, rotated.ring, nonce, Unseal(c, rotated.ring.keys, st.rows[k].payload).value);
    assert id != LEGACY by {
      LegacyIsRegistered(st.ring);
    }
    AddedKeyOpens(c, st.ring.keys, id, master, payload);
    StoredStaysOpen(c, st, k, op);
  }

  lemma LegacyIsRegistered(ring: Ring)
    requires ValidRing(ring)
    ensures LEGACY in Ids(ring.keys)
  {
    KnownIff(ring.keys, LEGACY);
  }

  lemma StoredStaysOpen(c: Crypto, st: Store, k: nat, op: RingOp)
    requires Inv(c, st) && k < |st.rows|
    ensures Unseal(c, ApplyRing(c, st.ring, op).keys, st.rows[k].payload) == Unseal(c, st.ring.keys, st.rows[k].payload)
  {
    hide Unseal, ApplyRing, ValidRing, Sorted, KeyFor;
    ApplyRingKeeps(c, st.ring, op);
    InvOpens(c, st, k);
    UnsealIsStable(c, st.ring.keys, ApplyRing(c, st.ring, op).keys, st.rows[k].payload);
  }

  lemma AddedKeyOpens(c: Crypto, keys: seq<DataKey>, id: string, master: Bytes, payload: string)
    requires id !in Ids(keys) && KeyIdOf(payload) == id
    requires Unseal(c, keys + [DataKey(id, c.derive(master))], payload).Ok?
    ensures Unseal(c, [DataKey(id, c.derive(master))], payload) == Unseal(c, keys + [DataKey(id, c.derive(master))], payload)
  {
    hide Unseal, KeyIdOf, KeyFor, Ids;
    var added := [DataKey(id, c.derive(master))];
    KnownIff(keys, id);
    KeyForAppend(keys, added, id);
    OnlyKey(added[0]);
    OpensAgainIff(c, keys + added, added, payload);
  }

  /** A payload names the key that was current when it was sealed. */
  lemma SealNames(c: Crypto, ring: Ring, nonce: Bytes, raw: Bytes)
    requires ValidRing(ring)
    ensures KeyIdOf(Seal(c, ring, nonce, raw)) == ring.current
    ensures (if ring.current == LEGACY then "v1." else "v2." + ring.current + ".") <= Seal(c, ring, nonce, raw)
  {
    hide KeyFor, Fields, DotIndex, HexEncode;
    CurrentIdIsPlain(ring);
    var key := KeyFor(ring.keys, ring.current).value;
    var cipher := c.encrypt(key, nonce, AadFor(ring.current), raw);
    PayloadSplits(ring.current, nonce, cipher);
    FirstField(PayloadText(ring.current, nonce, cipher));
    assert LEGACY != TAGGED;
    var sealed := HexEncode(nonce) + ("." + HexEncode(cipher));
    assert "v2" + ("." + (ring.current + ("." + sealed))) == "v2." + ring.current + "." + sealed;
    assert "v1" + ("." + sealed) == "v1." + sealed;
  }
}
