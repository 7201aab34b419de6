/**
 What the enterprise warehouse gate decides, told on the fields of the entitlement presented to it: who gets a
 warehouse, why a request is denied, what is written to the audit log, and where an account's warehouses come from.
 */
module WarehouseGate {
  import opened AuditCatalog
  import opened AuditChain
  import opened ByteStrings
  import opened Text

  /** The organization of an account: the text "org_" and the account's id. */
  predicate IsOrganizationOf(organization: Bytes, account: Bytes) {
    && |organization| == 4 + |account|
    && organization[0] as int == 'o' as int && organization[1] as int == 'r' as int
    && organization[2] as int == 'g' as int && organization[3] as int == '_' as int
    && organization[4..] == account
  }

  lemma OrganizationIs(account: Bytes, organization: Bytes)
    ensures IsOrganizationOf(organization, account) <==> organization == OrganizationOf(account)
  {
    if IsOrganizationOf(organization, account) {
      assert organization == organization[..4] + organization[4..];
      assert organization[..4] == [111, 114, 103, 95];
    }
    assert OrganizationOf(account)[4..] == account;
  }

  /** An entitlement for one more warehouse of an account that has `count`. */
  predicate Entitles(e: Option<Entitlement>, account: Bytes, count: nat) {
    && e.Some? && e.value.state in {Active, Trialing} && "warehouse.activate" in e.value.features
    && IsOrganizationOf(e.value.organization, account)
    && (e.value.warehouseLimit.None? || count < e.value.warehouseLimit.value)
  }

  predicate IsFree(warehouses: seq<Warehouse>, name: Bytes) {
    forall k :: 0 <= k < |warehouses| ==> warehouses[k].name != name
  }

  /** The warehouse is one of the account and of its organization. */
  predicate Belongs(w: Warehouse, account: Bytes) {
    w.account == Some(account) && w.organization.Some? && IsOrganizationOf(w.organization.value, account)
  }

  /** The gate counts the account's own warehouses. */
  lemma {:induction false} CountIsOwn(warehouses: seq<Warehouse>, account: Bytes)
    ensures CountFor(warehouses, account) == |set k | 0 <= k < |warehouses| && Belongs(warehouses[k], account)|
  {
    hide OrganizationOf, IsOrganizationOf;
    if warehouses != [] {
      var n := |warehouses| - 1;
      CountIsOwn(warehouses[..n], account);
      var before := set k | 0 <= k < n && Belongs(warehouses[..n][k], account);
      var after := set k | 0 <= k < |warehouses| && Belongs(warehouses[k], account);
      if warehouses[n].organization.Some? {
        OrganizationIs(account, warehouses[n].organization.value);
      }
      assert after == if Belongs(warehouses[n], account) then before + {n} else before;
    }
  }

  /**
   The gate creates a warehouse exactly for an entitled request with a free name. A request that is not entitled is
   denied for the first condition that fails; a taken name changes nothing.
   */
  lemma GateIs(c: Codec, st: State, account: Bytes, name: Bytes, resources: Resources, e: Option<Entitlement>, time: int)
    ensures var (next, outcome) := CreateEnterprise(c, st, account, name, resources, e, time);
      var entitled := Entitles(e, account, CountFor(st.warehouses, account));
      && (outcome.Created? <==> entitled && IsFree(st.warehouses, name))
      && (outcome.DuplicateName? <==> entitled && !IsFree(st.warehouses, name))
      && (outcome.DuplicateName? ==> next == st)
      && (outcome.NotEntitled? ==> next.warehouses == st.warehouses)
      && (outcome.Created? ==>
            |next.warehouses| == |st.warehouses| + 1 && next.warehouses[..|st.warehouses|] == st.warehouses
            && var w := next.warehouses[|st.warehouses|];
               w.name == name && w.resources == resources && Belongs(w, account))
      && (outcome.NotEntitled? ==> IsReason(outcome.reason, e, account))
  {
    hide CountFor, OrganizationOf, IsOrganizationOf, Append;
    if e.Some? {
      OrganizationIs(account, e.value.organization);
    }
    OrganizationIs(account, OrganizationOf(account));
  }

  /** The first condition that the entitlement fails; the limit comes last. */
  predicate IsReason(reason: string, e: Option<Entitlement>, account: Bytes) {
    if e.None? then reason == "missing_entitlement"
    else if e.value.state !in {Active, Trialing} then reason == "inactive_entitlement"
    else if "warehouse.activate" !in e.value.features then reason == "missing_feature"
    else if !IsOrganizationOf(e.value.organization, account) then reason == "identity_mismatch"
    else reason == "denied"
  }

  /** What the log says of a decision: the account's newest row holds this event. */
  lemma DecisionIsLogged(
    c: Codec, st: State, account: Bytes, name: Bytes, resources: Resources, e: Option<Entitlement>, time: int,
    organization: Bytes)
    requires IsOrganizationOf(organization, account)
    ensures var (next, outcome) := CreateEnterprise(c, st, account, name, resources, e, time);
      var own := OfAccount(next.rows, account);
      && (outcome.DuplicateName? ==> own == OfAccount(st.rows, account))
      && (!outcome.DuplicateName? ==>
            |own| == |OfAccount(st.rows, account)| + 1 && own[..|own| - 1] == OfAccount(st.rows, account)
            && own[|own| - 1].organization == Some(organization)
            && own[|own| - 1].event == c.json(
                 Event(time, organization, Some(account),
                       "marketplace", "entitlement-gate", None, Some("marketplace_entitlement"),
                       "warehouse.activate", "warehouse", name, None,
                       if outcome.Created? then Allowed else Denied, None, [],
                       Metadata(if outcome.Created? then None else Some(outcome.reason),
                                if e.Some? then Some(e.value.identity) else None))))
  {
    hide CountFor, OrganizationOf, IsOrganizationOf, IsAllowed, DenialReason, Append, OfAccount, NewRow;
    OrganizationIs(account, organization);
    var (next, outcome) := CreateEnterprise(c, st, account, name, resources, e, time);
    var result, reason := if outcome.Created? then Allowed else Denied, if outcome.NotEntitled? then Some(outcome.reason) else None;
    var event := Activation(time, account, organization, name, result, reason, e);
    LoggedRow(c, st, account, organization, c.json(event));
  }

  lemma LoggedRow(c: Codec, st: State, account: Bytes, organization: Bytes, event: Bytes)
    ensures var before, own := OfAccount(st.rows, account),
        OfAccount(Append(c.digest, st.rows, st.nextId, account, Some(organization), event), account);
      && |own| == |before| + 1 && own[..|own| - 1] == before
      && own[|own| - 1].organization == Some(organization) && own[|own| - 1].event == event
  {
    hide OfAccount, Append;
    AppendToAccount(c.digest, st.rows, st.nextId, account, Some(organization), event, account);
  }

  // ---- Over runs ----

  /** Operation `k` is an entitled request for the account under a name that is free at its turn. */
  predicate GrantedAt(c: Codec, st: State, ops: seq<Op>, k: nat, account: Bytes)
    requires k < |ops|
  {
    var before := Run(c, st, ops[..k]).warehouses;
    && ops[k].Enterprise? && ops[k].account == account
    && Entitles(ops[k].entitlement, account, CountFor(before, account)) && IsFree(before, ops[k].name)
  }

  /** Every warehouse that an account gains in a run comes from an entitled request, and every such request gives one. */
  lemma {:induction false} GainsAreGranted(c: Codec, st: State, ops: seq<Op>, account: Bytes)
    ensures CountFor(Run(c, st, ops).warehouses, account)
         == CountFor(st.warehouses, account) + |set k | 0 <= k < |ops| && GrantedAt(c, st, ops, k, account)|
  {
    hide CountFor, Entitles, IsFree, Apply, Gain, GrantedAt;
    if ops != [] {
      var n := |ops| - 1;
      GainsAreGranted(c, st, ops[..n], account);
      StepCounts(c, Run(c, st, ops[..n]), ops[n], account);
      LastGain(c, st, ops, account);
      GrantsPushed(c, st, ops, account);
    }
  }

  lemma LastGain(c: Codec, st: State, ops: seq<Op>, account: Bytes)
    requires ops != []
    ensures var n := |ops| - 1;
      Gain(c, Run(c, st, ops[..n]), ops[n], account).0 == if GrantedAt(c, st, ops, n, account) then 1 else 0
  {
    hide Run, Gain, Entitles, IsFree, CountFor;
    GainIffGranted(c, Run(c, st, ops[..|ops| - 1]), ops[|ops| - 1], account);
  }

  lemma GrantsPushed(c: Codec, st: State, ops: seq<Op>, account: Bytes)
    requires ops != []
    ensures var n := |ops| - 1;
      |set k | 0 <= k < |ops| && GrantedAt(c, st, ops, k, account)|
        == |set k | 0 <= k < n && GrantedAt(c, st, ops[..n], k, account)| + if GrantedAt(c, st, ops, n, account) then 1 else 0
  {
    hide GrantedAt;
    var n := |ops| - 1;
    var before := set k | 0 <= k < n && GrantedAt(c, st, ops[..n], k, account);
    var after := set k | 0 <= k < |ops| && GrantedAt(c, st, ops, k, account);
    forall k | 0 <= k < n
      ensures GrantedAt(c, st, ops[..n], k, account) == GrantedAt(c, st, ops, k, account)
    {
      GrantedInFront(c, st, ops, k, account);
    }
    assert after == if GrantedAt(c, st, ops, n, account) then before + {n} else before;
  }

  lemma GrantedInFront(c: Codec, st: State, ops: seq<Op>, k: nat, account: Bytes)
    requires k < |ops| - 1
    ensures GrantedAt(c, st, ops[..|ops| - 1], k, account) == GrantedAt(c, st, ops, k, account)
  {
    hide Run, Entitles, IsFree, CountFor;
    assert ops[..|ops| - 1][..k] == ops[..k];
  }

  lemma GainIffGranted(c: Codec, st: State, op: Op, account: Bytes)
    ensures Gain(c, st, op, account).0 ==
      if op.Enterprise? && op.account == account
         && Entitles(op.entitlement, account, CountFor(st.warehouses, account)) && IsFree(st.warehouses, op.name)
      then 1 else 0
  {
    hide CountFor, Entitles, IsFree, CreateEnterprise;
    if op.Enterprise? {
      GateIs(c, st, op.account, op.name, op.resources, op.entitlement, op.time);
    }
  }

  // ---- Row numbers ----

  /** Rows are numbered upwards, and the next number is new. */
  ghost predicate IsNumbered(st: State) {
    && (forall i, j :: 0 <= i < j < |st.rows| ==> st.rows[i].id < st.rows[j].id)
    && (forall i :: 0 <= i < |st.rows| ==> st.rows[i].id < st.nextId)
  }

  lemma AuditNumbers(c: Codec, st: State, account: Bytes, organization: Option<Bytes>, event: Bytes)
    requires IsNumbered(st)
    ensures var next := Audited(c, st, account, organization, event);
      IsNumbered(next) && |next.rows| == |st.rows| + 1 && next.nextId == st.nextId + 1
      && next.rows[|st.rows|].id == st.nextId && next.rows[|st.rows|].account == account
      && next.rows[|st.rows|].organization == organization && next.rows[|st.rows|].event == event
  {
    hide OfAccount, Tail, EntryHash;
  }

  /** Over every run the rows keep ascending numbers, and as many numbers are used as rows are written. */
  lemma {:induction false} RunNumbers(c: Codec, st: State, ops: seq<Op>)
    requires IsNumbered(st)
    ensures var end := Run(c, st, ops);
      IsNumbered(end) && |st.rows| <= |end.rows| && end.nextId - st.nextId == |end.rows| - |st.rows|
  {
    hide IsNumbered, Apply;
    if ops != [] {
      RunNumbers(c, st, ops[..|ops| - 1]);
      StepNumbers(c, Run(c, st, ops[..|ops| - 1]), ops[|ops| - 1]);
    }
  }

  lemma StepNumbers(c: Codec, st: State, op: Op)
    requires IsNumbered(st)
    ensures var next := Apply(c, st, op);
      IsNumbered(next) && |st.rows| <= |next.rows| && next.nextId - st.nextId == |next.rows| - |st.rows|
  {
    hide IsAllowed, DenialReason, CountFor, OrganizationOf, Audited, Activation;
    match op
    case Enterprise(account, name, resources, e, time) =>
      var organization := OrganizationOf(account);
      var denied := Activation(time, account, organization, name, Denied, Some(DenialReason(e, organization)), e);
      var allowed := Activation(time, account, organization, name, Allowed, None, e);
      var created := st.(warehouses := st.warehouses + [Warehouse(name, resources, Some(account), Some(organization))]);
      AuditNumbers(c, st, account, Some(organization), c.json(denied));
      AuditNumbers(c, created, account, Some(organization), c.json(allowed));
    case PlainWarehouse(_, _) =>
    case AuditEvent(account, organization, event) => AuditNumbers(c, st, account, organization, event);
  }

  /** The other operations: a warehouse of no account needs a free name, and an event is only logged. */
  lemma OtherOperationsAre(c: Codec, st: State, name: Bytes, resources: Resources, account: Bytes, organization: Option<Bytes>, event: Bytes)
    ensures Apply(c, st, PlainWarehouse(name, resources)) ==
      if IsFree(st.warehouses, name)
      then State(st.rows, st.nextId, st.warehouses + [Warehouse(name, resources, None, None)]) else st
    ensures var next := Apply(c, st, AuditEvent(account, organization, event));
      && next.warehouses == st.warehouses && next.nextId == st.nextId + 1
      && next.rows == Append(c.digest, st.rows, st.nextId, account, organization, event)
  {
    hide Append;
  }
}
