/**
 What every call on the secret store answers and leaves in the table, row by row (`secrets.rs`), and how a secret is
 sealed and opened, field by field.
 */
module SecretCalls {
  import opened ByteStrings
  import opened Text
  import opened SealedPayload
  import opened SecretStore

  // ---- Calls ----

  predicate IsThere(rows: seq<Row>, organization: string, handle: string) {
    exists k :: 0 <= k < |rows| && rows[k].organization == organization && rows[k].handle == handle
  }

  lemma IndexIs(rows: seq<Row>, organization: string, handle: string)
    ensures IndexOf(rows, organization, handle).Some? <==> IsThere(rows, organization, handle)
    ensures Sorted(rows) ==> forall k :: 0 <= k < |rows| && rows[k].organization == organization && rows[k].handle == handle ==>
      IndexOf(rows, organization, handle) == Some(k)
  {
    hide Sorted;
    var found := IndexOf(rows, organization, handle);
    if found.Some? && Sorted(rows) {
      forall k | 0 <= k < |rows| && rows[k].organization == organization && rows[k].handle == handle
        ensures found.value == k
      {
        SortedIsUnique(rows, found.value, k);
      }
    }
  }

  /** A new handle gets an active row of version 1; a handle that is there, or an empty secret, is refused. */
  lemma CreateIs(c: Crypto, st: Store, organization: string, handle: string, nonce: Bytes, raw: Bytes)
    requires ValidRing(st.ring) && Sorted(st.rows)
    ensures var (next, r) := Create(c, st, organization, handle, nonce, raw);
      if raw == [] then next == st && r == Err(EmptySecret)
      else if IsThere(st.rows, organization, handle) then next == st && r == Err(DuplicateHandle)
      else
        && r == Ok(Metadata(handle, true, 1)) && next.ring == st.ring && Sorted(next.rows)
        && multiset(next.rows) == multiset(st.rows) + multiset{Row(organization, handle, true, 1, Seal(c, st.ring, nonce, raw))}
  {
    hide ValidRing, Sorted, Seal, Insert;
    IndexIs(st.rows, organization, handle);
    if IndexOf(st.rows, organization, handle).None? {
      InsertKeepsSorted(st.rows, Row(organization, handle, true, 1, Seal(c, st.ring, nonce, raw)));
    }
  }

  /** An active row is sealed anew under the next version; versions are reported in 32 bits. */
  lemma RotateIs(c: Crypto, st: Store, k: nat, nonce: Bytes, raw: Bytes)
    requires ValidRing(st.ring) && Sorted(st.rows) && k < |st.rows|
    ensures var row := st.rows[k]; var (next, r) := Rotate(c, st, row.organization, row.handle, nonce, raw);
      if raw == [] then next == st && r == Err(EmptySecret)
      else if !row.active then next == st && r == Err(IsRevoked)
      else
        && r == Ok(Metadata(row.handle, true, (row.version + 1) % 4294967296)) && next.ring == st.ring
        && next.rows == st.rows[k := Row(row.organization, row.handle, true, row.version + 1, Seal(c, st.ring, nonce, raw))]
  {
    hide ValidRing, Sorted, Seal, IndexOf;
    IndexIs(st.rows, st.rows[k].organization, st.rows[k].handle);
  }

  /** A row becomes revoked, whatever it was, and keeps everything else. */
  lemma RevokeIs(st: Store, k: nat)
    requires Sorted(st.rows) && k < |st.rows|
    ensures var row := st.rows[k]; var (next, r) := Revoke(st, row.organization, row.handle);
      && r == Ok(Metadata(row.handle, false, row.version % 4294967296)) && next.ring == st.ring
      && next.rows == st.rows[k := Row(row.organization, row.handle, false, row.version, row.payload)]
  {
    hide Sorted, IndexOf;
    IndexIs(st.rows, st.rows[k].organization, st.rows[k].handle);
  }

  /** Only an active row is opened, or opened and sealed anew. */
  lemma ResolveIs(c: Crypto, st: Store, k: nat, nonce: Bytes)
    requires ValidRing(st.ring) && Sorted(st.rows) && k < |st.rows|
    ensures var row := st.rows[k];
      var plain, (next, resealed) := Resolve(c, st, row.organization, row.handle), Reseal(c, st, row.organization, row.handle, nonce);
      && plain == (if row.active then Unseal(c, st.ring.keys, row.payload) else Err(IsRevoked))
      && (if plain.Err? then next == st && resealed == Err(plain.error)
          else (next, resealed) == Rotate(c, st, row.organization, row.handle, nonce, plain.value))
  {
    hide ValidRing, Sorted, IndexOf, Unseal;
    IndexIs(st.rows, st.rows[k].organization, st.rows[k].handle);
  }

  /** A handle without a row is not found by any call. */
  lemma MissingIsNotFound(c: Crypto, st: Store, organization: string, handle: string, nonce: Bytes, raw: Bytes)
    requires ValidRing(st.ring) && !IsThere(st.rows, organization, handle)
    ensures Rotate(c, st, organization, handle, nonce, raw) == (st, Err(if raw == [] then EmptySecret else NotFound))
    ensures Revoke(st, organization, handle) == (st, Err(NotFound))
    ensures Resolve(c, st, organization, handle) == Err(NotFound)
    ensures Reseal(c, st, organization, handle, nonce) == (st, Err(NotFound))
  {
    hide ValidRing, Seal, Unseal;
    IndexIs(st.rows, organization, handle);
  }

  // ---- Sealing and opening ----

  /** The key of an id, as a ring has it. */
  lemma {:induction false} KeyIsFirst(keys: seq<DataKey>, k: nat)
    requires k < |keys| && forall j :: 0 <= j < k ==> keys[j].id != keys[k].id
    ensures KeyFor(keys, keys[k].id) == Some(keys[k].key)
  {
    if k > 0 {
      assert keys[0].id != keys[k].id;
      KeyIsFirst(keys[1..], k - 1);
    }
  }

  /**
   Sealing encrypts under the current key and binds the ciphertext to the format, and in the newer format also to the
   key's id: both are associated data. The text holds the format, the id in the newer one, the nonce and the ciphertext.
   */
  lemma SealIs(c: Crypto, ring: Ring, nonce: Bytes, raw: Bytes, key: Bytes)
    requires ValidRing(ring) && KeyFor(ring.keys, ring.current) == Some(key)
    ensures ring.current == "v1" ==>
      Seal(c, ring, nonce, raw) == "v1." + HexEncode(nonce) + "." + HexEncode(c.encrypt(key, nonce, "v1", raw))
    ensures ring.current != "v1" ==>
      Seal(c, ring, nonce, raw) ==
        "v2." + ring.current + "." + HexEncode(nonce) + "." + HexEncode(c.encrypt(key, nonce, "v2." + ring.current, raw))
  {
    hide KeyFor, HexEncode, ValidRing;
    var id, n := ring.current, HexEncode(nonce);
    if id == "v1" {
      var x := HexEncode(c.encrypt(key, nonce, "v1", raw));
      assert "v1" + ("." + (n + ("." + x))) == "v1." + n + "." + x;
    } else {
      assert "v2" + ("." + id) == "v2." + id;
      var x := HexEncode(c.encrypt(key, nonce, "v2." + id, raw));
      assert "v2" + ("." + (id + ("." + (n + ("." + x))))) == "v2." + id + "." + n + "." + x;
    }
  }

  /** Opening the older format: nonce, then ciphertext, which may hold more dots. */
  lemma OldPayloadOpens(c: Crypto, keys: seq<DataKey>, nonceHex: string, cipherHex: string)
    requires NoDot(nonceHex)
    ensures Unseal(c, keys, "v1." + nonceHex + "." + cipherHex) == Opened(c, KeyFor(keys, "v1"), "v1", nonceHex, cipherHex, "v1")
  {
    hide Fields, KeyFor, HexDecode, DotIndex;
    var p := "v1." + nonceHex + "." + cipherHex;
    assert p == "v1" + ("." + (nonceHex + ("." + cipherHex)));
    assert NoDot("v1");
    DotAfter("v1", nonceHex + ("." + cipherHex));
    FieldAfter("v1", nonceHex + ("." + cipherHex), 3);
    FieldAfter(nonceHex, cipherHex, 2);
    LastField(cipherHex);
  }

  /** And the newer one, with the id of its key in front. */
  lemma NewPayloadOpens(c: Crypto, keys: seq<DataKey>, id: string, nonceHex: string, cipherHex: string)
    requires NoDot(id) && NoDot(nonceHex)
    ensures Unseal(c, keys, "v2." + id + "." + nonceHex + "." + cipherHex)
         == Opened(c, KeyFor(keys, id), id, nonceHex, cipherHex, "v2." + id)
  {
    hide Fields, KeyFor, HexDecode, DotIndex;
    var p := "v2." + id + "." + nonceHex + "." + cipherHex;
    var tail := nonceHex + ("." + cipherHex);
    assert p == "v2" + ("." + (id + ("." + tail))) && "v2" + ("." + id) == "v2." + id;
    assert NoDot("v2") && "v1" != "v2";
    DotAfter("v2", id + ("." + tail));
    FieldAfter("v2", id + ("." + tail), 4);
    FieldAfter(id, tail, 3);
    FieldAfter(nonceHex, cipherHex, 2);
    LastField(cipherHex);
  }

  /** What comes of the fields of a payload: the first thing that is wrong with them, or the plaintext. */
  function Opened(c: Crypto, key: Option<Bytes>, id: string, nonceHex: string, cipherHex: string, aad: string): Result<Bytes, Error> {
    var nonce, cipher := HexDecode(nonceHex), HexDecode(cipherHex);
    if key == None then Err(UnknownKey(id))
    else if nonce == None then Err(BadHex)
    else if |nonce.value| != 12 then Err(BadNonceLength)
    else if cipher == None then Err(BadHex)
    else
      var plain := c.decrypt(key.value, nonce.value, aad, cipher.value);
      if plain == None then Err(NotAuthentic) else if c.isUtf8(plain.value) then Ok(plain.value) else Err(NotUtf8)
  }

  /** Any other text is refused: without its fields, or for its format. */
  lemma OtherPayloadsAreRefused(c: Crypto, keys: seq<DataKey>, version: string, rest: string)
    requires NoDot(version)
    ensures version != "v1" && version != "v2" ==> Unseal(c, keys, version + "." + rest) == Err(UnsupportedFormat)
    ensures Unseal(c, keys, version) == Err(if version == "v1" || version == "v2" then MissingField else UnsupportedFormat)
    ensures version == "v1" && NoDot(rest) ==> Unseal(c, keys, version + "." + rest) == Err(MissingField)
    ensures version == "v2" && |Fields(rest, 3)| < 3 ==> Unseal(c, keys, version + "." + rest) == Err(MissingField)
  {
    hide KeyFor, HexDecode;
    assert version + "." + rest == version + ("." + rest);
    DotAfter(version, rest);
    FieldAfter(version, rest, 3);
    FieldAfter(version, rest, 4);
    WholeField(version, 3);
    WholeField(version, 4);
    if NoDot(rest) {
      WholeField(rest, 2);
    }
  }

  lemma WholeField(s: string, n: nat)
    requires NoDot(s) && n > 0
    ensures DotIndex(s) == |s| && Fields(s, n) == [s] && s[..DotIndex(s)] == s
  {
    assert forall i :: 0 <= i < |s| ==> s[i] != '.';
    assert s[..|s|] == s;
  }

  // ---- Hexadecimal ----

  /** Two digits are read as a number in base 16, upper or lower case alike. */
  lemma HexPairIs(high: nat, low: nat)
    requires high < 16 && low < 16
    ensures var small, capital := "0123456789abcdef", "0123456789ABCDEF";
      forall a, b :: a in {small[high], capital[high]} && b in {small[low], capital[low]} ==>
        FromHexPair(a, b) == Some(16 * high + low)
  {
    HexDigitIs(high);
    HexDigitIs(low);
  }

  lemma HexDigitIs(n: nat)
    requires n < 16
    ensures FromHexDigit("0123456789abcdef"[n]) == Some(n) && FromHexDigit("0123456789ABCDEF"[n]) == Some(n)
    ensures HexDigit(n) == "0123456789abcdef"[n]
    ensures "0123456789abcdef"[n] != '+' && "0123456789ABCDEF"[n] != '+'
  {
  }

  lemma HexDigitIff(c: char)
    ensures FromHexDigit(c).Some? <==> c in "0123456789" || c in "abcdef" || c in "ABCDEF"
  {
    if '0' <= c <= '9' {
      assert "0123456789"[c as int - '0' as int] == c;
    }
    if 'a' <= c <= 'f' {
      assert "abcdef"[c as int - 'a' as int] == c;
    }
    if 'A' <= c <= 'F' {
      assert "ABCDEF"[c as int - 'A' as int] == c;
    }
  }

  /** No other pairs are read, except a plus sign and a digit, which count as that digit. */
  lemma HexPairIff(a: char, b: char)
    ensures var digits := "0123456789abcdefABCDEF";
      && (FromHexPair(a, b).Some? <==> b in digits && (a in digits || a == '+'))
      && (a == '+' && FromHexPair(a, b).Some? ==> FromHexPair(a, b) == FromHexDigit(b))
  {
    hide FromHexDigit;
    HexDigitIff(a);
    HexDigitIff(b);
    assert "0123456789abcdefABCDEF" == "0123456789" + "abcdef" + "ABCDEF";
  }

  /** A store starts with one key, derived from its master key, for the older format; without a master key it does not. */
  lemma FirstRingIs(c: Crypto, master: Bytes)
    ensures InitialRing(c, master) ==
      if |master| == 0 then Err(EmptyMasterKey) else Ok(Ring([DataKey("v1", c.derive(master))], "v1"))
  {
  }

  // ---- A re-sealing pass ----

  /** The store after the first `n` handles have been re-sealed one by one. */
  function AfterReseals(c: Crypto, st: Store, organization: string, handles: seq<string>, nonces: nat -> Bytes, n: nat): (r: Store)
    requires ValidRing(st.ring) && n <= |handles|
    ensures ValidRing(r.ring)
  {
    if n == 0 then st
    else Reseal(c, AfterReseals(c, st, organization, handles, nonces, n - 1), organization, handles[n - 1], nonces(n - 1)).0
  }

  /** What re-sealing the `n`-th handle at its turn answers. */
  function AnswerAt(c: Crypto, st: Store, organization: string, handles: seq<string>, nonces: nat -> Bytes, n: nat): Result<Metadata, Error>
    requires ValidRing(st.ring) && n < |handles|
  {
    Reseal(c, AfterReseals(c, st, organization, handles, nonces, n), organization, handles[n], nonces(n)).1
  }

  lemma {:induction false} PassFrom(
    c: Crypto, st: Store, organization: string, handles: seq<string>, nonces: nat -> Bytes, i: nat, stop: nat)
    requires ValidRing(st.ring) && i <= stop <= |handles|
    requires forall n :: i <= n < stop ==> AnswerAt(c, st, organization, handles, nonces, n).Ok?
    requires stop < |handles| ==> AnswerAt(c, st, organization, handles, nonces, stop).Err?
    ensures ResealFrom(c, AfterReseals(c, st, organization, handles, nonces, i), organization, handles, nonces, i) ==
      if stop == |handles| then (AfterReseals(c, st, organization, handles, nonces, stop), Ok(handles))
      else (AfterReseals(c, st, organization, handles, nonces, stop + 1),
            Err(AnswerAt(c, st, organization, handles, nonces, stop).error))
    decreases stop - i
  {
    hide ValidRing, Reseal;
    if i < stop {
      assert AnswerAt(c, st, organization, handles, nonces, i).Ok?;
      PassFrom(c, st, organization, handles, nonces, i + 1, stop);
    }
  }

  /** From any store, a pass re-seals one active handle after the other and stops at the first one that is refused. */
  lemma PassStopsAtError(c: Crypto, st: Store, organization: string, nonces: nat -> Bytes, stop: nat)
    requires ValidRing(st.ring) && stop <= |ActiveHandles(st.rows, organization)|
    requires var handles := ActiveHandles(st.rows, organization);
      && (forall n :: 0 <= n < stop ==> AnswerAt(c, st, organization, handles, nonces, n).Ok?)
      && (stop < |handles| ==> AnswerAt(c, st, organization, handles, nonces, stop).Err?)
    ensures var handles := ActiveHandles(st.rows, organization);
      ResealAll(c, st, organization, nonces) ==
        if stop == |handles| then (AfterReseals(c, st, organization, handles, nonces, stop), Ok(handles))
        else (AfterReseals(c, st, organization, handles, nonces, stop + 1),
              Err(AnswerAt(c, st, organization, handles, nonces, stop).error))
  {
    hide ValidRing, Reseal, ActiveHandles;
    PassFrom(c, st, organization, ActiveHandles(st.rows, organization), nonces, 0, stop);
  }
}
