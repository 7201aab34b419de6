/**
 Sealed payloads and the key ring that opens them (`secrets.rs`): hexadecimal fields, two versioned
 formats, and keys that are only ever added. Encryption is an ideal AEAD, section 2 of RFC 5116.
 */
module SealedPayload {
  import opened ByteStrings
  import opened Text

  // ---- Hexadecimal ----

  function HexDigit(n: nat): char
    requires n < 16
  {
    if n < 10 then ('0' as int + n) as char else ('a' as int + n - 10) as char
  }

  function HexEncode(b: Bytes): string {
    if b == [] then "" else [HexDigit(b[0] / 16), HexDigit(b[0] % 16)] + HexEncode(b[1..])
  }

  method HexEncodeBytes(b: Bytes) returns (out: string)
    ensures out == HexEncode(b)
  {
    out := "";
    assert b[0..] == b;
    for i := 0 to |b|
      invariant out + HexEncode(b[i..]) == HexEncode(b)
    {
      assert b[i..][1..] == b[i + 1..];
      out := out + [HexDigit(b[i] / 16)] + [HexDigit(b[i] % 16)];
    }
  }

  function FromHexDigit(c: char): (d: Option<nat>)
    ensures d.Some? ==> d.value < 16
  {
    if '0' <= c <= '9' then Some(c as int - '0' as int)
    else if 'a' <= c <= 'f' then Some(c as int - 'a' as int + 10)
    else if 'A' <= c <= 'F' then Some(c as int - 'A' as int + 10)
    else None
  }

  /** Two characters read as a number in base 16; the reader also takes a plus sign and one digit. */
  function FromHexPair(a: char, b: char): Option<Byte> {
    var high, low := FromHexDigit(a), FromHexDigit(b);
    if low.None? then None
    else if a == '+' then Some(low.value)
    else if high.None? then None
    else Some(16 * high.value + low.value)
  }

  function HexDecode(s: string): Option<Bytes> {
    if s == "" then Some([])
    else if |s| == 1 then None
    else
      var first, rest := FromHexPair(s[0], s[1]), HexDecode(s[2..]);
      if first.Some? && rest.Some? then Some([first.value] + rest.value) else None
  }

  predicate NoDot(s: string) {
    '.' !in s
  }

  lemma {:induction false} HexRoundTrip(b: Bytes)
    ensures HexDecode(HexEncode(b)) == Some(b)
    ensures NoDot(HexEncode(b))
  {
    if b != [] {
      HexRoundTrip(b[1..]);
      DigitRoundTrip(b[0] / 16);
      DigitRoundTrip(b[0] % 16);
      assert HexEncode(b)[2..] == HexEncode(b[1..]);
      assert 16 * (b[0] / 16) + b[0] % 16 == b[0];
      assert b == [b[0]] + b[1..];
    }
  }

  lemma DigitRoundTrip(n: nat)
    requires n < 16
    ensures FromHexDigit(HexDigit(n)) == Some(n) && HexDigit(n) != '.' && HexDigit(n) != '+'
  {
  }

  predicate IsLowerHex(c: char) {
    '0' <= c <= '9' || 'a' <= c <= 'f'
  }

  predicate AllLowerHex(s: string) {
    forall i :: 0 <= i < |s| ==> IsLowerHex(s[i])
  }

  /** A text that decodes is the encoding of its bytes exactly when it holds lower-case digits only. */
  lemma {:induction false} ReprintsIff(s: string)
    requires HexDecode(s).Some?
    ensures HexEncode(HexDecode(s).value) == s <==> AllLowerHex(s)
  {
    if s != "" {
      var first, rest := FromHexPair(s[0], s[1]).value, HexDecode(s[2..]).value;
      ReprintsIff(s[2..]);
      PairReprintsIff(s[0], s[1]);
      assert s == [s[0], s[1]] + s[2..];
      assert HexDecode(s).value == [first] + rest && ([first] + rest)[1..] == rest;
      var pair := [HexDigit(first / 16), HexDigit(first % 16)];
      assert HexEncode([first] + rest) == pair + HexEncode(rest);
      assert (pair + HexEncode(rest))[..2] == pair && (pair + HexEncode(rest))[2..] == HexEncode(rest);
      assert AllLowerHex(s) <==> IsLowerHex(s[0]) && IsLowerHex(s[1]) && AllLowerHex(s[2..]);
      if HexEncode(HexDecode(s).value) == s {
        assert s[..2] == [s[0], s[1]];
      }
    }
  }

  lemma PairReprintsIff(a: char, b: char)
    requires FromHexPair(a, b).Some?
    ensures var n := FromHexPair(a, b).value;
      HexDigit(n / 16) == a && HexDigit(n % 16) == b <==> IsLowerHex(a) && IsLowerHex(b)
  {
  }

  /** Texts that decode although nothing prints them. */
  lemma OtherSpellings()
    ensures HexDecode("+a") == Some([10]) && HexEncode([10]) == "0a"
    ensures HexDecode("AB") == Some([171]) && HexEncode([171]) == "ab"
  {
    var plus, upper := "+a", "AB";
    assert HexDecode(plus[2..]) == Some([]) && FromHexPair(plus[0], plus[1]) == Some(10);
    assert HexDecode(upper[2..]) == Some([]) && FromHexPair(upper[0], upper[1]) == Some(171);
    assert [10 as Byte] + [] == [10] && [171 as Byte] + [] == [171];
    assert [10][1..] == [] && [171][1..] == [];
  }

  // ---- Fields ----

  /** The position of the first dot, or the length. */
  function DotIndex(s: string): (k: nat)
    ensures k <= |s| && NoDot(s[..k])
    ensures k < |s| ==> s[k] == '.'
  {
    if s == "" || s[0] == '.' then 0
    else
      var k := DotIndex(s[1..]);
      assert s[..k + 1] == [s[0]] + s[1..][..k];
      k + 1
  }

  /** At most `n` fields separated by dots; the last one keeps any further dots. */
  function Fields(s: string, n: nat): (f: seq<string>)
    requires n > 0
    ensures 1 <= |f| <= n
    decreases n
  {
    var k := DotIndex(s);
    if n == 1 || k == |s| then [s] else [s[..k]] + Fields(s[k + 1..], n - 1)
  }

  lemma DotAfter(field: string, rest: string)
    requires NoDot(field)
    ensures DotIndex(field + ("." + rest)) == |field|
  {
    var s := field + ("." + rest);
    assert s[|field|] == '.';
    assert forall i :: 0 <= i < |field| ==> s[i] == field[i];
  }

  lemma FieldAfter(field: string, rest: string, n: nat)
    requires NoDot(field) && n > 1
    ensures Fields(field + ("." + rest), n) == [field] + Fields(rest, n - 1)
  {
    hide DotIndex;
    DotAfter(field, rest);
    var s := field + ("." + rest);
    assert s[..|field|] == field && s[|field| + 1..] == rest;
  }

  // ---- Keys ----

  /** Encryption, decryption, key derivation and the UTF-8 check, as the store uses them. */
  datatype Crypto = Crypto(
    encrypt: (Bytes, Bytes, string, Bytes) -> Bytes,
    decrypt: (Bytes, Bytes, string, Bytes) -> Option<Bytes>,
    derive: Bytes -> Bytes,
    isUtf8: Bytes -> bool)

  /** Decryption under the same key, nonce and associated data inverts encryption. */
  ghost predicate Ideal(c: Crypto) {
    forall key, nonce, aad, m :: c.decrypt(key, nonce, aad, c.encrypt(key, nonce, aad, m)) == Some(m)
  }

  datatype DataKey = DataKey(id: string, key: Bytes)

  datatype Ring = Ring(keys: seq<DataKey>, current: string)

  datatype Error =
    | EmptyKeyId | DottedKeyId | EmptyMasterKey | DuplicateKeyId | UnknownKey(id: string)
    | MissingField | BadHex | BadNonceLength | NotAuthentic | NotUtf8 | UnsupportedFormat
    | EmptySecret | DuplicateHandle | NotFound | IsRevoked

  const LEGACY := "v1"
  const TAGGED := "v2"
  const NONCE_LENGTH := 12

  function KeyFor(keys: seq<DataKey>, id: string): Option<Bytes> {
    if keys == [] then None else if keys[0].id == id then Some(keys[0].key) else KeyFor(keys[1..], id)
  }

  function Ids(keys: seq<DataKey>): set<string> {
    set k | 0 <= k < |keys| :: keys[k].id
  }

  lemma {:induction false} KnownIff(keys: seq<DataKey>, id: string)
    ensures KeyFor(keys, id).Some? <==> id in Ids(keys)
  {
    if keys != [] {
      KnownIff(keys[1..], id);
      assert forall k :: 0 < k < |keys| ==> keys[k] == keys[1..][k - 1];
      assert id in Ids(keys[1..]) ==> id in Ids(keys) by {
        if id in Ids(keys[1..]) {
          var k :| 0 <= k < |keys[1..]| && keys[1..][k].id == id;
          assert keys[k + 1].id == id;
        }
      }
    }
  }

  function AddKey(c: Crypto, ring: Ring, id: string, master: Bytes, makeCurrent: bool): Result<Ring, Error> {
    if id == "" then Err(EmptyKeyId)
    else if !NoDot(id) then Err(DottedKeyId)
    else if master == [] then Err(EmptyMasterKey)
    else if KeyFor(ring.keys, id).Some? then Err(DuplicateKeyId)
    else Ok(Ring(ring.keys + [DataKey(id, c.derive(master))], if makeCurrent then id else ring.current))
  }

  function SetCurrent(ring: Ring, id: string): Result<Ring, Error> {
    if KeyFor(ring.keys, id).None? then Err(UnknownKey(id)) else Ok(ring.(current := id))
  }

  /** The legacy key is there, the current key is there, and every id can stand in a payload. */
  predicate ValidRing(ring: Ring) {
    && KeyFor(ring.keys, LEGACY).Some? && KeyFor(ring.keys, ring.current).Some?
    && forall k :: 0 <= k < |ring.keys| ==> ring.keys[k].id != "" && NoDot(ring.keys[k].id)
  }

  function InitialRing(c: Crypto, master: Bytes): Result<Ring, Error> {
    if master == [] then Err(EmptyMasterKey) else Ok(Ring([DataKey(LEGACY, c.derive(master))], LEGACY))
  }

  datatype RingOp = Add(id: string, master: Bytes, makeCurrent: bool) | Promote(id: string)

  /** A refused operation leaves the ring as it was. */
  function ApplyRing(c: Crypto, ring: Ring, op: RingOp): Ring {
    var r := match op
      case Add(id, master, makeCurrent) => AddKey(c, ring, id, master, makeCurrent)
      case Promote(id) => SetCurrent(ring, id);
    if r.Ok? then r.value else ring
  }

  function RunRing(c: Crypto, ring: Ring, ops: seq<RingOp>): Ring
    decreases |ops|
  {
    if ops == [] then ring else RunRing(c, ApplyRing(c, ring, ops[0]), ops[1..])
  }

  // ---- Sealing ----

  function TaggedAad(id: string): string {
    TAGGED + ("." + id)
  }

  /** The payload text: tag, then (for rotated keys) key id, then nonce and ciphertext in hexadecimal. */
  function PayloadText(id: string, nonce: Bytes, cipher: Bytes): string {
    var sealed := HexEncode(nonce) + ("." + HexEncode(cipher));
    if id == LEGACY then LEGACY + ("." + sealed) else TAGGED + ("." + (id + ("." + sealed)))
  }

  function AadFor(id: string): string {
    if id == LEGACY then LEGACY else TaggedAad(id)
  }

  function Seal(c: Crypto, ring: Ring, nonce: Bytes, raw: Bytes): string
    requires ValidRing(ring)
  {
    var key := KeyFor(ring.keys, ring.current).value;
    PayloadText(ring.current, nonce, c.encrypt(key, nonce, AadFor(ring.current), raw))
  }

  function OpenAead(c: Crypto, key: Option<Bytes>, id: string, nonceHex: string, cipherHex: string, aad: string): Result<Bytes, Error> {
    if key.None? then Err(UnknownKey(id))
    else
      var nonce := HexDecode(nonceHex);
      if nonce.None? then Err(BadHex)
      else if |nonce.value| != NONCE_LENGTH then Err(BadNonceLength)
      else
        var cipher := HexDecode(cipherHex);
        if cipher.None? then Err(BadHex)
        else
          var plain := c.decrypt(key.value, nonce.value, aad, cipher.value);
          if plain.None? then Err(NotAuthentic)
          else if !c.isUtf8(plain.value) then Err(NotUtf8)
          else Ok(plain.value)
  }

  function Unseal(c: Crypto, keys: seq<DataKey>, payload: string): Result<Bytes, Error> {
    var version := payload[..DotIndex(payload)];
    if version == LEGACY then
      var f := Fields(payload, 3);
      if |f| < 3 then Err(MissingField)
      else OpenAead(c, KeyFor(keys, LEGACY), LEGACY, f[1], f[2], LEGACY)
    else if version == TAGGED then
      var f := Fields(payload, 4);
      if |f| < 4 then Err(MissingField)
      else OpenAead(c, KeyFor(keys, f[1]), f[1], f[2], f[3], TaggedAad(f[1]))
    else Err(UnsupportedFormat)
  }

  lemma {:induction false} KeyForAppend(keys: seq<DataKey>, more: seq<DataKey>, id: string)
    ensures KeyFor(keys, id).Some? ==> KeyFor(keys + more, id) == KeyFor(keys, id)
    ensures KeyFor(keys, id).None? ==> KeyFor(keys + more, id) == KeyFor(more, id)
  {
    if keys == [] {
      assert keys + more == more;
    } else {
      assert (keys + more)[1..] == keys[1..] + more;
      KeyForAppend(keys[1..], more, id);
    }
  }

  lemma {:induction false} FoundIdIsRegistered(keys: seq<DataKey>, id: string)
    requires KeyFor(keys, id).Some?
    ensures exists k :: 0 <= k < |keys| && keys[k].id == id
  {
    if keys[0].id != id {
      FoundIdIsRegistered(keys[1..], id);
      var k :| 0 <= k < |keys[1..]| && keys[1..][k].id == id;
      assert keys[k + 1].id == id;
    } else {
      assert keys[0].id == id;
    }
  }

  lemma CurrentIdIsPlain(ring: Ring)
    requires ValidRing(ring)
    ensures ring.current != "" && NoDot(ring.current)
  {
    FoundIdIsRegistered(ring.keys, ring.current);
  }

  /** Both formats split back into the fields that were printed. */
  lemma PayloadSplits(id: string, nonce: Bytes, cipher: Bytes)
    requires NoDot(id)
    ensures var p := PayloadText(id, nonce, cipher);
      && p[..DotIndex(p)] == (if id == LEGACY then LEGACY else TAGGED)
      && (id == LEGACY ==> Fields(p, 3) == [LEGACY, HexEncode(nonce), HexEncode(cipher)])
      && (id != LEGACY ==> Fields(p, 4) == [TAGGED, id, HexEncode(nonce), HexEncode(cipher)])
  {
    hide Fields, DotIndex, HexEncode;
    HexRoundTrip(nonce);
    HexRoundTrip(cipher);
    var n, x := HexEncode(nonce), HexEncode(cipher);
    var sealed := n + ("." + x);
    LastField(x);
    assert NoDot(LEGACY) && NoDot(TAGGED);
    if id == LEGACY {
      FieldAfter(LEGACY, sealed, 3);
      FieldAfter(n, x, 2);
      DotAfter(LEGACY, sealed);
    } else {
      var tail := id + ("." + sealed);
      FieldAfter(TAGGED, tail, 4);
      FieldAfter(id, sealed, 3);
      FieldAfter(n, x, 2);
      DotAfter(TAGGED, tail);
    }
  }

  lemma LastField(s: string)
    ensures Fields(s, 1) == [s]
  {
  }

  /** A payload opens under any ring in which the key it was sealed with is still registered under its id. */
  lemma SealedOpens(c: Crypto, ring: Ring, nonce: Bytes, raw: Bytes, keys: seq<DataKey>)
    requires Ideal(c) && ValidRing(ring) && |nonce| == NONCE_LENGTH && c.isUtf8(raw)
    requires KeyFor(keys, ring.current) == KeyFor(ring.keys, ring.current)
    ensures Unseal(c, keys, Seal(c, ring, nonce, raw)) == Ok(raw)
  {
    hide KeyFor, HexEncode, HexDecode, Fields, DotIndex, PayloadText;
    CurrentIdIsPlain(ring);
    var key := KeyFor(ring.keys, ring.current).value;
    var cipher := c.encrypt(key, nonce, AadFor(ring.current), raw);
    PayloadSplits(ring.current, nonce, cipher);
    HexRoundTrip(nonce);
    HexRoundTrip(cipher);
    assert LEGACY != TAGGED;
  }

  lemma ApplyRingKeeps(c: Crypto, ring: Ring, op: RingOp)
    requires ValidRing(ring)
    ensures ValidRing(ApplyRing(c, ring, op))
    ensures forall id :: KeyFor(ring.keys, id).Some? ==> KeyFor(ApplyRing(c, ring, op).keys, id) == KeyFor(ring.keys, id)
  {
    hide KeyFor;
    var next := ApplyRing(c, ring, op);
    if next.keys != ring.keys {
      var added := [DataKey(op.id, c.derive(op.master))];
      forall id {
        KeyForAppend(ring.keys, added, id);
      }
      KeyForAppend(ring.keys, added, op.id);
      OneKey(added);
    }
  }

  lemma OneKey(keys: seq<DataKey>)
    requires |keys| == 1
    ensures KeyFor(keys, keys[0].id).Some?
  {
  }

  lemma {:induction false} RunRingKeeps(c: Crypto, ring: Ring, ops: seq<RingOp>)
    requires ValidRing(ring)
    ensures ValidRing(RunRing(c, ring, ops))
    ensures forall id :: KeyFor(ring.keys, id).Some? ==> KeyFor(RunRing(c, ring, ops).keys, id) == KeyFor(ring.keys, id)
    decreases |ops|
  {
    hide KeyFor, ApplyRing, ValidRing;
    if ops != [] {
      ApplyRingKeeps(c, ring, ops[0]);
      RunRingKeeps(c, ApplyRing(c, ring, ops[0]), ops[1..]);
    }
  }

  /** A payload sealed at any point opens to its plaintext in every later state of the key ring. */
  lemma SealedStaysReadable(c: Crypto, ring: Ring, nonce: Bytes, raw: Bytes, ops: seq<RingOp>)
    requires Ideal(c) && ValidRing(ring) && |nonce| == NONCE_LENGTH && c.isUtf8(raw)
    ensures Unseal(c, RunRing(c, ring, ops).keys, Seal(c, ring, nonce, raw)) == Ok(raw)
  {
    hide KeyFor, RunRing, Seal, Unseal;
    RunRingKeeps(c, ring, ops);
    SealedOpens(c, ring, nonce, raw, RunRing(c, ring, ops).keys);
  }
}
