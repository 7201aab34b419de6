/**
 The bytes an audit row is hashed over (`compute_audit_entry_hash`, `feed_field`): a domain tag, then
 length-prefixed fields. A decoder that inverts the encoding shows that no two rows share their bytes.
 */
module AuditEncoding {
  import opened ByteStrings
  import opened Text

  /** What a row's hash covers. */
  datatype Entry = Entry(prev: Bytes, account: Bytes, organization: Option<Bytes>, event: Bytes) {
    /** Every length fits the 64-bit prefix. */
    predicate Fits() {
      && FieldFits(prev) && FieldFits(account) && FieldFits(event)
      && (organization.Some? ==> FieldFits(organization.value))
    }
  }

  const LENGTH_LIMIT := 0x1_0000_0000_0000_0000

  predicate FieldFits(b: Bytes) {
    |b| < LENGTH_LIMIT
  }

  /** "opensnow-audit-chain/v1" */
  const TAG: Bytes := [111, 112, 101, 110, 115, 110, 111, 119, 45, 97, 117, 100, 105, 116, 45, 99, 104, 97, 105, 110, 47, 118, 49]

  /** The `k` low bytes of `n`, least significant first. */
  function LittleEndian(n: nat, k: nat): (b: Bytes)
    ensures |b| == k
  {
    if k == 0 then [] else [n % 256] + LittleEndian(n / 256, k - 1)
  }

  function FromLittleEndian(b: Bytes): nat {
    if b == [] then 0 else b[0] + 256 * FromLittleEndian(b[1..])
  }

  function Field(b: Bytes): Bytes {
    LittleEndian(|b|, 8) + b
  }

  function OptionalField(b: Option<Bytes>): Bytes {
    if b.Some? then [1] + Field(b.value) else [0]
  }

  function Encode(e: Entry): Bytes {
    TAG + (Field(e.prev) + (Field(e.account) + (OptionalField(e.organization) + Field(e.event))))
  }

  /** The hasher: bytes are fed to it step by step, and the digest is a function of all of them. */
  class Hasher {
    const digest: Bytes -> Bytes
    var buffer: Bytes

    constructor (digest: Bytes -> Bytes)
      ensures this.digest == digest && buffer == []
    {
      this.digest := digest;
      buffer := [];
    }

    method Update(b: Bytes)
      modifies this
      ensures buffer == old(buffer) + b
    {
      buffer := buffer + b;
    }

    /** `feed_field` */
    method FeedField(b: Bytes)
      modifies this
      ensures buffer == old(buffer) + Field(b)
    {
      Update(LittleEndian(|b|, 8));
      Update(b);
    }

    method Finalize() returns (r: Bytes)
      ensures r == digest(buffer)
    {
      r := digest(buffer);
    }
  }

  lemma EncodeInOrder(e: Entry)
    ensures Encode(e) == TAG + Field(e.prev) + Field(e.account) + OptionalField(e.organization) + Field(e.event)
  {
    hide Field, OptionalField;
    var a, b, c, d, f := TAG, Field(e.prev), Field(e.account), OptionalField(e.organization), Field(e.event);
    assert a + (b + (c + (d + f))) == a + b + c + d + f;
  }

  method ComputeAuditEntryHash(digest: Bytes -> Bytes, e: Entry) returns (r: Bytes)
    ensures r == digest(Encode(e))
  {
    hide Field, Encode;
    EncodeInOrder(e);
    var hasher := new Hasher(digest);
    assert [] + TAG == TAG;
    hasher.Update(TAG);
    hasher.FeedField(e.prev);
    hasher.FeedField(e.account);
    match e.organization {
      case Some(organization) =>
        ghost var before := hasher.buffer;
        hasher.Update([1]);
        hasher.FeedField(organization);
        assert hasher.buffer == before + ([1] + Field(organization));
      case None =>
        hasher.Update([0]);
    }
    hasher.FeedField(e.event);
    r := hasher.Finalize();
  }

  // ---- The decoder ----

  function DecodeField(b: Bytes): Option<(Bytes, Bytes)> {
    if |b| < 8 then None
    else
      var n := FromLittleEndian(b[..8]);
      if |b| - 8 < n then None else Some((b[8..8 + n], b[8 + n..]))
  }

  function DecodeOptionalField(b: Bytes): Option<(Option<Bytes>, Bytes)> {
    if b == [] then None
    else if b[0] == 0 then Some((None, b[1..]))
    else if b[0] == 1 then
      var field := DecodeField(b[1..]);
      if field.None? then None else Some((Some(field.value.0), field.value.1))
    else None
  }

  function Decode(b: Bytes): Option<Entry> {
    if !(TAG <= b) then None
    else
      var prev := DecodeField(b[|TAG|..]);
      if prev.None? then None
      else
        var account := DecodeField(prev.value.1);
        if account.None? then None
        else
          var organization := DecodeOptionalField(account.value.1);
          if organization.None? then None
          else
            var event := DecodeField(organization.value.1);
            if event.None? || event.value.1 != [] then None
            else Some(Entry(prev.value.0, account.value.0, organization.value.0, event.value.0))
  }

  function Pow256(k: nat): nat {
    if k == 0 then 1 else 256 * Pow256(k - 1)
  }

  lemma {:induction false} LittleEndianRoundTrip(n: nat, k: nat)
    requires n < Pow256(k)
    ensures FromLittleEndian(LittleEndian(n, k)) == n
  {
    if k > 0 {
      LittleEndianRoundTrip(n / 256, k - 1);
      assert LittleEndian(n, k)[1..] == LittleEndian(n / 256, k - 1);
    }
  }

  lemma {:induction false} FromLittleEndianRoundTrip(b: Bytes)
    ensures LittleEndian(FromLittleEndian(b), |b|) == b
    ensures FromLittleEndian(b) < Pow256(|b|)
  {
    if b != [] {
      FromLittleEndianRoundTrip(b[1..]);
      LowByte(b[0], FromLittleEndian(b[1..]));
      assert b == [b[0]] + b[1..];
    }
  }

  lemma LowByte(low: Byte, high: nat)
    ensures (low + 256 * high) % 256 == low && (low + 256 * high) / 256 == high
  {
  }

  lemma LimitIsPow()
    ensures Pow256(8) == LENGTH_LIMIT
  {
    assert Pow256(4) == 0x1_0000_0000;
    assert Pow256(8) == 256 * (256 * (256 * (256 * Pow256(4))));
  }

  lemma DecodesField(b: Bytes, rest: Bytes)
    requires FieldFits(b)
    ensures DecodeField(Field(b) + rest) == Some((b, rest))
  {
    hide LittleEndian, FromLittleEndian;
    LimitIsPow();
    LittleEndianRoundTrip(|b|, 8);
    var s := Field(b) + rest;
    assert s[..8] == LittleEndian(|b|, 8) && s[8..8 + |b|] == b && s[8 + |b|..] == rest;
  }

  lemma DecodedField(b: Bytes)
    requires DecodeField(b).Some?
    ensures var (field, rest) := DecodeField(b).value; b == Field(field) + rest && FieldFits(field)
  {
    hide LittleEndian, FromLittleEndian;
    LimitIsPow();
    FromLittleEndianRoundTrip(b[..8]);
  }

  lemma DecodesOptionalField(o: Option<Bytes>, rest: Bytes)
    requires o.Some? ==> FieldFits(o.value)
    ensures DecodeOptionalField(OptionalField(o) + rest) == Some((o, rest))
  {
    hide DecodeField, Field;
    var s := OptionalField(o) + rest;
    if o.Some? {
      assert s[1..] == Field(o.value) + rest;
      DecodesField(o.value, rest);
    } else {
      assert s[1..] == rest;
    }
  }

  lemma DecodedOptionalField(b: Bytes)
    requires DecodeOptionalField(b).Some?
    ensures var (o, rest) := DecodeOptionalField(b).value;
      b == OptionalField(o) + rest && (o.Some? ==> FieldFits(o.value))
  {
    hide DecodeField, Field;
    if b[0] == 1 {
      DecodedField(b[1..]);
      var (field, rest) := DecodeField(b[1..]).value;
      assert b == [b[0]] + (Field(field) + rest);
      assert [b[0]] + (Field(field) + rest) == [b[0]] + Field(field) + rest;
    }
  }

  /** Decoding inverts encoding, in both directions: the bytes and the entry determine each other. */
  lemma EncodingRoundTrip(e: Entry, b: Bytes)
    requires e.Fits()
    ensures Decode(Encode(e)) == Some(e)
    ensures Decode(b) == Some(e) <==> b == Encode(e)
  {
    hide Field, DecodeField, OptionalField, DecodeOptionalField;
    var rest3 := Field(e.event);
    var rest2 := OptionalField(e.organization) + rest3;
    var rest1 := Field(e.account) + rest2;
    var body := Field(e.prev) + rest1;
    assert Encode(e)[|TAG|..] == body && TAG <= Encode(e);
    DecodesField(e.prev, rest1);
    DecodesField(e.account, rest2);
    DecodesOptionalField(e.organization, rest3);
    DecodesField(e.event, []);
    assert rest3 + [] == rest3;
    if Decode(b) == Some(e) {
      DecodedBytes(b);
    }
  }

  lemma DecodedBytes(b: Bytes)
    requires Decode(b).Some?
    ensures Encode(Decode(b).value) == b
  {
    hide Field, DecodeField, OptionalField, DecodeOptionalField;
    var prev := DecodeField(b[|TAG|..]).value;
    DecodedField(b[|TAG|..]);
    var account := DecodeField(prev.1).value;
    DecodedField(prev.1);
    var organization := DecodeOptionalField(account.1).value;
    DecodedOptionalField(account.1);
    DecodedField(organization.1);
    var event := DecodeField(organization.1).value;
    assert Field(event.0) + [] == Field(event.0);
    assert b == TAG + b[|TAG|..];
  }

  /** Rows whose fields differ are hashed over different bytes. */
  lemma EncodingIsInjective(e: Entry, f: Entry)
    requires e.Fits() && f.Fits() && Encode(e) == Encode(f)
    ensures e == f
  {
    hide Encode, Decode;
    EncodingRoundTrip(e, []);
    EncodingRoundTrip(f, []);
  }

  // ---- The layout ----

  /** Eight bytes as a number, the lowest first. */
  function Number(b: seq<int>): int
    requires |b| == 8
  {
    b[0] + 0x100 * b[1] + 0x1_0000 * b[2] + 0x100_0000 * b[3] + 0x1_0000_0000 * b[4] + 0x100_0000_0000 * b[5]
    + 0x1_0000_0000_0000 * b[6] + 0x100_0000_0000_0000 * b[7]
  }

  /** A field is its length in eight bytes, and then its bytes. */
  lemma FieldIs(b: Bytes)
    requires FieldFits(b)
    ensures var f := Field(b); |f| == 8 + |b| && Number(f[..8]) == |b| && f[8..] == b
  {
    hide LittleEndian, Number;
    var n := LittleEndian(|b|, 8);
    LimitIsPow();
    LittleEndianRoundTrip(|b|, 8);
    assert Field(b)[8..] == b && Field(b)[..8] == n;
    EightBytes(n);
  }

  lemma EightBytes(b: Bytes)
    requires |b| == 8
    ensures FromLittleEndian(b) == Number(b)
  {
    FourBytes(b);
    FourBytes(b[4..]);
    assert b[4..][4..] == [];
  }

  lemma FourBytes(b: seq<Byte>)
    requires |b| >= 4
    ensures FromLittleEndian(b) ==
      (b[0] as int) + 0x100 * (b[1] as int) + 0x1_0000 * (b[2] as int) + 0x100_0000 * (b[3] as int)
      + 0x1_0000_0000 * FromLittleEndian(b[4..])
  {
    assert b[1..][1..] == b[2..] && b[2..][1..] == b[3..] && b[3..][1..] == b[4..];
    assert FromLittleEndian(b[1..]) == b[1] + 0x100 * FromLittleEndian(b[2..]);
    assert FromLittleEndian(b[2..]) == b[2] + 0x100 * FromLittleEndian(b[3..]);
    assert FromLittleEndian(b[3..]) == b[3] + 0x100 * FromLittleEndian(b[4..]);
  }

  /** The bytes are the domain's name and version, then previous hash, account, organization behind its flag, and event. */
  lemma LayoutIs(e: Entry)
    ensures |TAG| == 23 && TAG <= Encode(e)
    ensures forall i :: 0 <= i < 23 ==> Encode(e)[i] as int == "opensnow-audit-chain/v1"[i] as int
    ensures Encode(e)[23..] ==
      Field(e.prev) + Field(e.account) + (if e.organization.Some? then [1] + Field(e.organization.value) else [0]) + Field(e.event)
  {
    hide Field;
    TagIs();
    var organization := OptionalField(e.organization);
    assert Encode(e)[23..] == Field(e.prev) + (Field(e.account) + (organization + Field(e.event)));
    assert Field(e.prev) + (Field(e.account) + (organization + Field(e.event)))
        == Field(e.prev) + Field(e.account) + organization + Field(e.event);
  }

  lemma TagIs()
    ensures |TAG| == 23 && forall i :: 0 <= i < 23 ==> TAG[i] as int == "opensnow-audit-chain/v1"[i] as int
  {
  }
}
