/** The catalog's audit table and the enterprise warehouse gate that writes to it. */
module AuditCatalog {
  import opened ByteStrings
  import opened Text
  import opened AuditEncoding
  import opened AuditChain

  // ---- Entitlements ----

  datatype EntitlementState = Active | Trialing | Expired | Suspended | Cancelled

  datatype Identity = Identity(provider: string, externalCustomer: string, productCode: string, entitlementId: string)

  datatype Entitlement = Entitlement(
    organization: Bytes, identity: Identity, state: EntitlementState, features: seq<string>, warehouseLimit: Option<nat>)
  {
    predicate IsActive() {
      state == Active || state == Trialing
    }

    predicate HasFeature(feature: string) {
      feature in features
    }
  }

  /** The feature an entitlement needs, and the action its events name. */
  const ACTIVATE := "warehouse.activate"

  /** `WarehouseActivation::is_allowed` */
  predicate IsAllowed(e: Entitlement, organization: Bytes, requestedCount: nat) {
    && e.IsActive() && e.HasFeature(ACTIVATE) && e.organization == organization
    && (e.warehouseLimit.Some? ==> requestedCount <= e.warehouseLimit.value)
  }

  function DenialReason(e: Option<Entitlement>, organization: Bytes): string {
    if e.None? then "missing_entitlement"
    else if !e.value.IsActive() then "inactive_entitlement"
    else if !e.value.HasFeature(ACTIVATE) then "missing_feature"
    else if e.value.organization != organization then "identity_mismatch"
    else "denied"
  }

  // ---- The catalog ----

  datatype Resources = Resources(size: string, minNodes: int, maxNodes: int, autoSuspend: int)

  datatype Warehouse = Warehouse(name: Bytes, resources: Resources, account: Option<Bytes>, organization: Option<Bytes>)

  datatype Decision = Allowed | Denied | Succeeded | Failed

  datatype Metadata = Metadata(reason: Option<string>, identity: Option<Identity>)

  datatype Event = Event(
    time: int, organization: Bytes, tenant: Option<Bytes>,
    actorType: string, actorId: string, actorDisplay: Option<string>, actorAuthMethod: Option<string>,
    action: string, resourceType: string, resourceId: Bytes, resourceName: Option<string>,
    result: Decision, traceId: Option<string>, secretHandleRefs: seq<string>, metadata: Metadata)

  /** The event of a decision on a warehouse; of the entitlement it holds no more than the ids. */
  function Activation(time: int, account: Bytes, organization: Bytes, warehouse: Bytes, result: Decision,
                      reason: Option<string>, e: Option<Entitlement>): Event {
    Event(time, organization, Some(account),
          "marketplace", "entitlement-gate", None, Some("marketplace_entitlement"),
          ACTIVATE, "warehouse", warehouse, None,
          result, None, [], Metadata(reason, if e.Some? then Some(e.value.identity) else None))
  }

  datatype State = State(rows: seq<Row>, nextId: nat, warehouses: seq<Warehouse>)

  datatype Outcome = Created | NotEntitled(reason: string) | DuplicateName

  /** "org_" and the account id. */
  function OrganizationOf(account: Bytes): Bytes {
    [111, 114, 103, 95] + account
  }

  predicate NameTaken(warehouses: seq<Warehouse>, name: Bytes) {
    exists k :: 0 <= k < |warehouses| && warehouses[k].name == name
  }

  function CountFor(warehouses: seq<Warehouse>, account: Bytes): nat {
    if warehouses == [] then 0
    else
      var last := warehouses[|warehouses| - 1];
      CountFor(warehouses[..|warehouses| - 1], account)
      + if last.account == Some(account) && last.organization == Some(OrganizationOf(account)) then 1 else 0
  }

  /** How events are hashed and how they are serialised. */
  datatype Codec = Codec(digest: Digest, json: Event -> Bytes)

  function Audited(c: Codec, st: State, account: Bytes, organization: Option<Bytes>, event: Bytes): State {
    st.(rows := Append(c.digest, st.rows, st.nextId, account, organization, event), nextId := st.nextId + 1)
  }

  function CreateEnterprise(c: Codec, st: State, account: Bytes, name: Bytes, resources: Resources, e: Option<Entitlement>, time: int)
    : (State, Outcome)
  {
    var organization := OrganizationOf(account);
    var count := CountFor(st.warehouses, account);
    if e.None? || !IsAllowed(e.value, organization, count + 1) then
      var reason := DenialReason(e, organization);
      var event := Activation(time, account, organization, name, Denied, Some(reason), e);
      (Audited(c, st, account, Some(organization), c.json(event)), NotEntitled(reason))
    else if NameTaken(st.warehouses, name) then (st, DuplicateName)
    else
      var created := st.(warehouses := st.warehouses + [Warehouse(name, resources, Some(account), Some(organization))]);
      var event := Activation(time, account, organization, name, Allowed, None, e);
      (Audited(c, created, account, Some(organization), c.json(event)), Created)
  }

  class Catalog {
    const codec: Codec
    var rows: seq<Row>
    var nextId: nat
    var warehouses: seq<Warehouse>

    constructor (codec: Codec)
      ensures this.codec == codec && Now() == State([], 1, [])
    {
      this.codec := codec;
      rows, nextId, warehouses := [], 1, [];
    }

    function Now(): State
      reads this
    {
      State(rows, nextId, warehouses)
    }

    method AppendAuditEvent(account: Bytes, organization: Option<Bytes>, event: Bytes) returns (id: nat)
      modifies this
      ensures id == old(nextId) && Now() == Audited(codec, old(Now()), account, organization, event)
    {
      var own := OfAccount(rows, account);
      var prev := Tail(own);
      var hash := ComputeAuditEntryHash(codec.digest, Entry(prev, account, organization, event));
      id := nextId;
      rows := rows + [Row(id, account, organization, event, prev, hash)];
      nextId := nextId + 1;
    }

    method VerifyAuditChain(account: Bytes) returns (s: Status)
      ensures s == Verdict(codec.digest, OfAccount(rows, account))
    {
      s := VerifyRows(codec.digest, OfAccount(rows, account));
    }

    method CreateEnterpriseWarehouse(account: Bytes, name: Bytes, resources: Resources, e: Option<Entitlement>, time: int)
      returns (outcome: Outcome)
      modifies this
      ensures (Now(), outcome) == CreateEnterprise(codec, old(Now()), account, name, resources, e, time)
    {
      var organization := OrganizationOf(account);
      var count := CountFor(warehouses, account);
      var allowed := e.Some? && IsAllowed(e.value, organization, count + 1);
      if !allowed {
        var reason := DenialReason(e, organization);
        var id := AppendAuditEvent(account, Some(organization),
                                   codec.json(Activation(time, account, organization, name, Denied, Some(reason), e)));
        return NotEntitled(reason);
      }
      if NameTaken(warehouses, name) {
        return DuplicateName;
      }
      warehouses := warehouses + [Warehouse(name, resources, Some(account), Some(organization))];
      var id := AppendAuditEvent(account, Some(organization),
                                 codec.json(Activation(time, account, organization, name, Allowed, None, e)));
      outcome := Created;
    }
  }

  // ---- Runs ----

  datatype Op =
    | Enterprise(account: Bytes, name: Bytes, resources: Resources, entitlement: Option<Entitlement>, time: int)
    | PlainWarehouse(name: Bytes, resources: Resources)
    | AuditEvent(account: Bytes, organization: Option<Bytes>, event: Bytes)

  function Apply(c: Codec, st: State, op: Op): State {
    match op
    case Enterprise(account, name, resources, e, time) => CreateEnterprise(c, st, account, name, resources, e, time).0
    case PlainWarehouse(name, resources) =>
      if NameTaken(st.warehouses, name) then st
      else st.(warehouses := st.warehouses + [Warehouse(name, resources, None, None)])
    case AuditEvent(account, organization, event) => Audited(c, st, account, organization, event)
  }

  function Run(c: Codec, st: State, ops: seq<Op>): State {
    if ops == [] then st else Apply(c, Run(c, st, ops[..|ops| - 1]), ops[|ops| - 1])
  }

  /** What one step does to an account: warehouses gained and audit rows written. */
  function Gain(c: Codec, st: State, op: Op, account: Bytes): (nat, nat) {
    match op
    case Enterprise(a, name, resources, e, time) =>
      if a != account then (0, 0)
      else
        var outcome := CreateEnterprise(c, st, a, name, resources, e, time).1;
        if outcome.Created? then (1, 1) else if outcome.NotEntitled? then (0, 1) else (0, 0)
    case PlainWarehouse(_, _) => (0, 0)
    case AuditEvent(a, _, _) => (0, if a == account then 1 else 0)
  }

  function Gains(c: Codec, st: State, ops: seq<Op>, account: Bytes): (nat, nat) {
    if ops == [] then (0, 0)
    else
      var before := Gains(c, st, ops[..|ops| - 1], account);
      var step := Gain(c, Run(c, st, ops[..|ops| - 1]), ops[|ops| - 1], account);
      (before.0 + step.0, before.1 + step.1)
  }

  predicate OpLimitedTo(op: Op, account: Bytes, limit: nat) {
    op.Enterprise? && op.account == account && op.entitlement.Some? ==>
      op.entitlement.value.warehouseLimit.Some? && op.entitlement.value.warehouseLimit.value <= limit
  }

  /** Every entitlement presented for the account is limited to at most `limit` warehouses. */
  predicate LimitedTo(ops: seq<Op>, account: Bytes, limit: nat) {
    forall k :: 0 <= k < |ops| ==> OpLimitedTo(ops[k], account, limit)
  }

  lemma CountGrows(warehouses: seq<Warehouse>, w: Warehouse, account: Bytes)
    ensures CountFor(warehouses + [w], account) == CountFor(warehouses, account)
      + if w.account == Some(account) && w.organization == Some(OrganizationOf(account)) then 1 else 0
  {
    assert (warehouses + [w])[..|warehouses|] == warehouses;
  }

  lemma StepCounts(c: Codec, st: State, op: Op, account: Bytes)
    ensures CountFor(Apply(c, st, op).warehouses, account) == CountFor(st.warehouses, account) + Gain(c, st, op, account).0
    ensures forall limit :: OpLimitedTo(op, account, limit) && Gain(c, st, op, account).0 > 0 ==>
      CountFor(st.warehouses, account) + 1 <= limit
  {
    hide CountFor, OrganizationOf, DenialReason, Append;
    match op
    case Enterprise(a, name, resources, _, _) =>
      CountGrows(st.warehouses, Warehouse(name, resources, Some(a), Some(OrganizationOf(a))), account);
    case PlainWarehouse(name, resources) => CountGrows(st.warehouses, Warehouse(name, resources, None, None), account);
    case AuditEvent(_, _, _) =>
  }

  lemma StepGrows(c: Codec, st: State, op: Op, account: Bytes, count: nat, legacy: nat)
    requires NonEmpty(c.digest) && Grown(c.digest, OfAccount(st.rows, account), count, legacy)
    ensures Grown(c.digest, OfAccount(Apply(c, st, op).rows, account), count + Gain(c, st, op, account).1, legacy)
  {
    hide Grown, OfAccount, OrganizationOf, IsAllowed, DenialReason, CountFor, Append, NewRow;
    match op
    case Enterprise(a, name, resources, e, time) =>
      var organization := OrganizationOf(a);
      var denied := Activation(time, a, organization, name, Denied, Some(DenialReason(e, organization)), e);
      var allowed := Activation(time, a, organization, name, Allowed, None, e);
      AuditGrows(c, st, a, Some(organization), c.json(denied), account, count, legacy);
      AuditGrows(c, st, a, Some(organization), c.json(allowed), account, count, legacy);
    case PlainWarehouse(_, _) =>
    case AuditEvent(a, organization, event) =>
      AuditGrows(c, st, a, organization, event, account, count, legacy);
  }

  lemma AuditGrows(c: Codec, st: State, a: Bytes, organization: Option<Bytes>, event: Bytes, account: Bytes, count: nat, legacy: nat)
    requires NonEmpty(c.digest) && Grown(c.digest, OfAccount(st.rows, account), count, legacy)
    ensures Grown(c.digest, OfAccount(Append(c.digest, st.rows, st.nextId, a, organization, event), account),
                  count + (if a == account then 1 else 0), legacy)
  {
    hide Grown, OfAccount, Append, NewRow;
    AppendToAccount(c.digest, st.rows, st.nextId, a, organization, event, account);
    if a == account {
      GrowsByOne(c.digest, st.rows, st.nextId, account, organization, event, count, legacy);
    } else {
      assert OfAccount(st.rows, account) + [] == OfAccount(st.rows, account);
    }
  }

  /**
   Quota and audit over every run: an account never holds more warehouses than the larger of what it
   started with and the limit, each warehouse gained was allowed and audited, each denial only audited,
   and its audit chain stays valid with one verified entry per audit row written.
   */
  lemma {:induction false} RunKeepsQuotaAndChain(
    c: Codec, st: State, ops: seq<Op>, account: Bytes, limit: nat, count: nat, legacy: nat)
    requires LimitedTo(ops, account, limit)
    requires NonEmpty(c.digest) && Grown(c.digest, OfAccount(st.rows, account), count, legacy)
    ensures var end, gains := Run(c, st, ops), Gains(c, st, ops, account);
      && CountFor(end.warehouses, account) == CountFor(st.warehouses, account) + gains.0
      && CountFor(end.warehouses, account) <= Max(CountFor(st.warehouses, account), limit)
      && Grown(c.digest, OfAccount(end.rows, account), count + gains.1, legacy)
      && gains.0 <= gains.1
      && Verdict(c.digest, OfAccount(end.rows, account)) == Status(true, count + gains.1, legacy, None)
  {
    hide CountFor, OfAccount, Apply, Gain, Grown, OpLimitedTo, Verdict;
    if ops != [] {
      var before, op := ops[..|ops| - 1], ops[|ops| - 1];
      RunKeepsQuotaAndChain(c, st, before, account, limit, count, legacy);
      var mid := Run(c, st, before);
      StepCounts(c, mid, op, account);
      StepGrows(c, mid, op, account, count + Gains(c, st, before, account).1, legacy);
      GainIsAudited(c, mid, op, account);
    }
    GrownVerifies(c.digest, OfAccount(Run(c, st, ops).rows, account), count + Gains(c, st, ops, account).1, legacy);
  }

  // ---- What the log says about the warehouses ----

  /** The text reads as an event of the warehouse gate with this result. */
  predicate ReadsAs(parse: Bytes -> Option<Event>, event: Bytes, result: Decision) {
    var e := parse(event);
    e.Some? && e.value.action == ACTIVATE && e.value.result == result
  }

  /** The action and the result of an event can be read from its text; of the rest nothing is asked. */
  ghost predicate ReadsBack(c: Codec, parse: Bytes -> Option<Event>) {
    forall e :: parse(c.json(e)).Some?
      && parse(c.json(e)).value.action == e.action && parse(c.json(e)).value.result == e.result
  }

  /** How many of the rows are events of the warehouse gate with this result. */
  function Decided(parse: Bytes -> Option<Event>, rows: seq<Row>, result: Decision): nat {
    if rows == [] then 0
    else
      Decided(parse, rows[..|rows| - 1], result) + if ReadsAs(parse, rows[|rows| - 1].event, result) then 1 else 0
  }

  /** Refused requests of the account in a run. */
  function Refusals(c: Codec, st: State, ops: seq<Op>, account: Bytes): nat {
    if ops == [] then 0
    else
      var op := ops[|ops| - 1];
      Refusals(c, st, ops[..|ops| - 1], account) + if Refused(c, Run(c, st, ops[..|ops| - 1]), op, account) then 1 else 0
  }

  predicate Refused(c: Codec, st: State, op: Op, account: Bytes) {
    op.Enterprise? && op.account == account
    && CreateEnterprise(c, st, account, op.name, op.resources, op.entitlement, op.time).1.NotEntitled?
  }

  /** The other events of the account are none of the warehouse gate. */
  ghost predicate NoActivation(parse: Bytes -> Option<Event>, op: Op, account: Bytes) {
    op.AuditEvent? && op.account == account ==> forall result :: !ReadsAs(parse, op.event, result)
  }

  lemma DecidedPushed(parse: Bytes -> Option<Event>, rows: seq<Row>, r: Row, result: Decision)
    ensures Decided(parse, rows + [r], result) ==
      Decided(parse, rows, result) + if ReadsAs(parse, r.event, result) then 1 else 0
  {
    assert (rows + [r])[..|rows|] == rows;
  }

  lemma AuditDecides(c: Codec, parse: Bytes -> Option<Event>, st: State, a: Bytes, organization: Option<Bytes>,
                     event: Bytes, account: Bytes, result: Decision)
    ensures Decided(parse, OfAccount(Audited(c, st, a, organization, event).rows, account), result) ==
      Decided(parse, OfAccount(st.rows, account), result)
      + if a == account && ReadsAs(parse, event, result) then 1 else 0
  {
    hide Decided, OfAccount, Append;
    AppendToAccount(c.digest, st.rows, st.nextId, a, organization, event, account);
    if a == account {
      DecidedPushed(parse, OfAccount(st.rows, account), NewRow(c.digest, st.rows, st.nextId, a, organization, event), result);
    } else {
      assert OfAccount(st.rows, account) + [] == OfAccount(st.rows, account);
    }
  }

  lemma StepDecides(c: Codec, parse: Bytes -> Option<Event>, st: State, op: Op, account: Bytes, result: Decision)
    requires ReadsBack(c, parse) && NoActivation(parse, op, account) && result in {Allowed, Denied}
    ensures Decided(parse, OfAccount(Apply(c, st, op).rows, account), result) ==
      Decided(parse, OfAccount(st.rows, account), result)
      + if result == Allowed then Gain(c, st, op, account).0 else if Refused(c, st, op, account) then 1 else 0
  {
    hide Decided, OfAccount, OrganizationOf, IsAllowed, DenialReason, CountFor, Audited;
    match op
    case Enterprise(a, name, resources, e, time) =>
      var organization := OrganizationOf(a);
      var denied := Activation(time, a, organization, name, Denied, Some(DenialReason(e, organization)), e);
      var allowed := Activation(time, a, organization, name, Allowed, None, e);
      var created := st.(warehouses := st.warehouses + [Warehouse(name, resources, Some(a), Some(organization))]);
      AuditDecides(c, parse, st, a, Some(organization), c.json(denied), account, result);
      AuditDecides(c, parse, created, a, Some(organization), c.json(allowed), account, result);
    case PlainWarehouse(_, _) =>
    case AuditEvent(a, organization, event) => AuditDecides(c, parse, st, a, organization, event, account, result);
  }

  /**
   The log accounts for the warehouses: over every run, the account's Allowed events grow by exactly the
   warehouses it gained and its Denied events by exactly the requests it was refused; a duplicate name
   writes neither.
   */
  lemma {:induction false} LogAccountsForWarehouses(
    c: Codec, parse: Bytes -> Option<Event>, st: State, ops: seq<Op>, account: Bytes)
    requires ReadsBack(c, parse)
    requires forall k :: 0 <= k < |ops| ==> NoActivation(parse, ops[k], account)
    ensures var before, after := OfAccount(st.rows, account), OfAccount(Run(c, st, ops).rows, account);
      && Decided(parse, after, Allowed) - Decided(parse, before, Allowed)
           == CountFor(Run(c, st, ops).warehouses, account) - CountFor(st.warehouses, account)
      && Decided(parse, after, Denied) - Decided(parse, before, Denied) == Refusals(c, st, ops, account)
  {
    hide Decided, OfAccount, Apply, Gain, Refused, NoActivation, CountFor;
    if ops != [] {
      var mid, op := Run(c, st, ops[..|ops| - 1]), ops[|ops| - 1];
      LogAccountsForWarehouses(c, parse, st, ops[..|ops| - 1], account);
      StepDecides(c, parse, mid, op, account, Allowed);
      StepDecides(c, parse, mid, op, account, Denied);
      StepCounts(c, mid, op, account);
    }
  }

  lemma GrownVerifies(d: Digest, rows: seq<Row>, count: nat, legacy: nat)
    requires Grown(d, rows, count, legacy)
    ensures Verdict(d, rows) == Status(true, count, legacy, None)
  {
  }

  lemma GainIsAudited(c: Codec, st: State, op: Op, account: Bytes)
    ensures Gain(c, st, op, account).0 <= Gain(c, st, op, account).1 <= 1
  {
  }

  function Max(a: nat, b: nat): nat {
    if a < b then b else a
  }
}
