/**
 OIDC login transactions (`sso.rs`): a login is started, and completed at most once with claims that match
 what was started and the connection as it then is. Calls are atomic; tokens are parameters.
 */
module OidcLogin {
  import opened Text

  datatype Protocol = Oidc | Saml

  datatype Connection = Connection(
    protocol: Protocol, enabled: bool, issuer: string, clientId: string, allowedDomains: seq<string>)

  type ConnectionKey = (string, string)

  datatype Transaction = Transaction(
    connection: ConnectionKey, nonce: string, verifier: string, redirect: string, consumed: bool)

  datatype Mapping = Mapping(connection: ConnectionKey, claim: string, expected: string, role: string)

  /** A claim: text, a list whose members may or may not be text, or something else. */
  datatype Claim = Text(text: string) | List(items: seq<Option<string>>) | Other

  datatype Claims = Claims(
    issuer: string, audience: string, subject: string, email: string, emailVerified: bool, nonce: string,
    extra: map<string, Claim>)

  datatype Session = Session(connection: ConnectionKey, subject: string, email: string, roles: seq<string>)

  datatype LoginError =
    | NoConnection | Disabled | NotOidc | StateTaken
    | InvalidState | BadVerifier | BadNonce | EmailNotVerified
    | IssuerMismatch | AudienceMismatch | InvalidEmail | DomainNotAllowed

  datatype Store = Store(
    connections: map<ConnectionKey, Connection>, transactions: map<string, Transaction>, mappings: seq<Mapping>)

  // ---- Operations ----

  function Start(st: Store, key: ConnectionKey, state: string, nonce: string, verifier: string, redirect: string)
    : Result<Store, LoginError>
  {
    if key !in st.connections then Err(NoConnection)
    else if !st.connections[key].enabled then Err(Disabled)
    else if st.connections[key].protocol != Oidc then Err(NotOidc)
    else if state in st.transactions then Err(StateTaken)
    else Ok(st.(transactions := st.transactions[state := Transaction(key, nonce, verifier, redirect, false)]))
  }

  /** The text after the last at-sign. */
  function DomainOf(email: string): Option<string> {
    if email == "" then None
    else if email[|email| - 1] == '@' then Some("")
    else
      var front := DomainOf(email[..|email| - 1]);
      if front.None? then None else Some(front.value + [email[|email| - 1]])
  }

  predicate DomainAllowed(domains: seq<string>, domain: string) {
    exists k :: 0 <= k < |domains| && EqualsIgnoreCase(domains[k], domain)
  }

  /** The email is some local part, an at-sign, and the domain. */
  predicate Splits(email: string, local: string, domain: string) {
    email == local + "@" + domain && '@' !in domain
  }

  /** The email's domain is one of those allowed, up to case. */
  ghost predicate EmailIsAllowed(email: string, domains: seq<string>) {
    exists local, domain, allowed :: Splits(email, local, domain) && allowed in domains && SameText(allowed, domain)
  }

  lemma {:induction false} DomainIsLastPart(email: string) returns (local: string)
    ensures DomainOf(email).None? ==> '@' !in email
    ensures DomainOf(email).Some? ==> Splits(email, local, DomainOf(email).value)
  {
    local := "";
    if email != "" {
      var front := email[..|email| - 1];
      assert email == front + [email[|email| - 1]];
      if email[|email| - 1] == '@' {
        local := front;
        assert email == local + "@" + "";
      } else {
        local := DomainIsLastPart(front);
        if DomainOf(front).Some? {
          assert email == local + "@" + (DomainOf(front).value + [email[|email| - 1]]);
        }
      }
    }
  }

  lemma LastAt(email: string, local: string, domain: string)
    requires Splits(email, local, domain)
    ensures |local| < |email| && email[|local|] == '@' && domain == email[|local| + 1..]
    ensures forall i :: |local| < i < |email| ==> email[i] != '@'
  {
    assert forall i :: |local| < i < |email| ==> email[i] == domain[i - |local| - 1];
  }

  lemma SplitIsUnique(email: string, local: string, domain: string, other: string, otherDomain: string)
    requires Splits(email, local, domain) && Splits(email, other, otherDomain)
    ensures domain == otherDomain
  {
    LastAt(email, local, domain);
    LastAt(email, other, otherDomain);
  }

  /** The check on the domain lets exactly the allowed emails through, and finds no domain in a text without an at-sign. */
  lemma DomainCheckIff(email: string, domains: seq<string>)
    ensures DomainOf(email).None? <==> '@' !in email
    ensures EmailIsAllowed(email, domains) <==>
      DomainOf(email).Some? && DomainAllowed(domains, Lower(DomainOf(email).value))
  {
    hide EqualsIgnoreCase, SameText, DomainOf, Splits, Lower;
    var local := DomainIsLastPart(email);
    if DomainOf(email).None? {
      forall l, d
        ensures !Splits(email, l, d)
      {
        NoAtNoSplit(email, l, d);
      }
    } else {
      var domain := DomainOf(email).value;
      NoAtNoSplit(email, local, domain);
      forall k | 0 <= k < |domains|
        ensures EqualsIgnoreCase(domains[k], Lower(domain)) <==> SameText(domains[k], domain)
      {
        EqualsIgnoreCaseIff(domains[k], Lower(domain));
        EqualsIgnoreCaseIff(domains[k], domain);
      }
      if EmailIsAllowed(email, domains) {
        var l, d, allowed :| Splits(email, l, d) && allowed in domains && SameText(allowed, d);
        SplitIsUnique(email, l, d, local, domain);
        var k :| 0 <= k < |domains| && domains[k] == allowed;
        assert EqualsIgnoreCase(domains[k], Lower(domain));
      }
      if k :| 0 <= k < |domains| && EqualsIgnoreCase(domains[k], Lower(domain)) {
        assert domains[k] in domains && SameText(domains[k], domain);
      }
    }
  }

  lemma NoAtNoSplit(email: string, local: string, domain: string)
    ensures Splits(email, local, domain) ==> '@' in email
  {
    if Splits(email, local, domain) {
      assert email[|local|] == '@';
    }
  }

  predicate ClaimMatches(claim: Claim, expected: string) {
    match claim
    case Text(text) => EqualsIgnoreCase(text, expected)
    case List(items) => exists k :: 0 <= k < |items| && items[k].Some? && EqualsIgnoreCase(items[k].value, expected)
    case Other => false
  }

  predicate Applies(m: Mapping, key: ConnectionKey, extra: map<string, Claim>) {
    m.connection == key && m.claim in extra && ClaimMatches(extra[m.claim], m.expected)
  }

  /** The claim is this text, or a list with it. */
  predicate Says(claim: Claim, text: string) {
    claim == Text(text) || (claim.List? && Some(text) in claim.items)
  }

  /** The mapping is the connection's, and its claim is there and says the expected text, up to case. */
  ghost predicate IsMet(m: Mapping, key: ConnectionKey, extra: map<string, Claim>) {
    m.connection == key && m.claim in extra && exists text :: Says(extra[m.claim], text) && SameText(text, m.expected)
  }

  lemma AppliesIff(m: Mapping, key: ConnectionKey, extra: map<string, Claim>)
    ensures Applies(m, key, extra) <==> IsMet(m, key, extra)
  {
    hide EqualsIgnoreCase, SameText;
    if m.claim in extra {
      var claim := extra[m.claim];
      forall text
        ensures EqualsIgnoreCase(text, m.expected) <==> SameText(text, m.expected)
      {
        EqualsIgnoreCaseIff(text, m.expected);
      }
      assert claim.Text? ==> Says(claim, claim.text);
      assert claim.List? ==> forall k :: 0 <= k < |claim.items| && claim.items[k].Some? ==> Says(claim, claim.items[k].value);
    }
  }

  /** The roles of the mappings that apply, each once, in the order of the mappings. */
  function MappedRoles(mappings: seq<Mapping>, key: ConnectionKey, extra: map<string, Claim>): seq<string> {
    if mappings == [] then []
    else
      var before := MappedRoles(mappings[..|mappings| - 1], key, extra);
      var m := mappings[|mappings| - 1];
      if Applies(m, key, extra) && m.role !in before then before + [m.role] else before
  }

  method ApplyIdpRoleMappings(mappings: seq<Mapping>, key: ConnectionKey, extra: map<string, Claim>) returns (roles: seq<string>)
    ensures roles == MappedRoles(mappings, key, extra)
  {
    roles := [];
    for i := 0 to |mappings|
      invariant roles == MappedRoles(mappings[..i], key, extra)
    {
      assert mappings[..i + 1][..i] == mappings[..i];
      var m := mappings[i];
      if m.connection == key && m.claim in extra {
        if ClaimMatches(extra[m.claim], m.expected) && m.role !in roles {
          roles := roles + [m.role];
        }
      }
    }
    assert mappings[..|mappings|] == mappings;
  }

  /** Some mapping that is met gives the role. */
  ghost predicate Gives(mappings: seq<Mapping>, key: ConnectionKey, extra: map<string, Claim>, role: string) {
    exists k :: 0 <= k < |mappings| && IsMet(mappings[k], key, extra) && mappings[k].role == role
  }

  /** Exactly the roles some mapping gives are found. */
  lemma {:induction false} MappedRolesAre(mappings: seq<Mapping>, key: ConnectionKey, extra: map<string, Claim>, role: string)
    ensures role in MappedRoles(mappings, key, extra) <==> Gives(mappings, key, extra, role)
  {
    hide Applies, IsMet;
    if mappings != [] {
      var front, m := mappings[..|mappings| - 1], mappings[|mappings| - 1];
      AppliesIff(m, key, extra);
      MappedRolesAre(front, key, extra, role);
      GivesAppend(front, m, key, extra, role);
      assert mappings == front + [m];
    }
  }

  lemma GivesAppend(front: seq<Mapping>, m: Mapping, key: ConnectionKey, extra: map<string, Claim>, role: string)
    ensures Gives(front + [m], key, extra, role) <==>
      Gives(front, key, extra, role) || (IsMet(m, key, extra) && m.role == role)
  {
    hide IsMet;
    var all := front + [m];
    assert all[|front|] == m;
    if k :| 0 <= k < |front| && IsMet(front[k], key, extra) && front[k].role == role {
      assert all[k] == front[k];
    }
    if k :| 0 <= k < |all| && IsMet(all[k], key, extra) && all[k].role == role {
      assert k < |front| ==> front[k] == all[k];
    }
  }

  function RolesOrPublic(roles: seq<string>): seq<string> {
    if roles == [] then ["PUBLIC"] else roles
  }

  /** The checks of a completion on the transaction it has read, in the program's order, up to the session it would give. */
  function Judge(st: Store, tx: Transaction, verifier: string, claims: Claims): Result<Session, LoginError> {
    if tx.verifier != verifier then Err(BadVerifier)
    else if tx.nonce != claims.nonce then Err(BadNonce)
    else if !claims.emailVerified then Err(EmailNotVerified)
    else if tx.connection !in st.connections then Err(NoConnection)
    else
      var conn := st.connections[tx.connection];
      if claims.issuer != conn.issuer then Err(IssuerMismatch)
      else if claims.audience != conn.clientId then Err(AudienceMismatch)
      else
        var domain := DomainOf(claims.email);
        if domain.None? then Err(InvalidEmail)
        else if !DomainAllowed(conn.allowedDomains, Lower(domain.value)) then Err(DomainNotAllowed)
        else
          var roles := RolesOrPublic(MappedRoles(st.mappings, tx.connection, claims.extra));
          Ok(Session(tx.connection, claims.subject, claims.email, roles))
  }

  predicate Pending(st: Store, state: string) {
    state in st.transactions && !st.transactions[state].consumed
  }

  function Admit(st: Store, state: string, verifier: string, claims: Claims): Result<Session, LoginError> {
    if !Pending(st, state) then Err(InvalidState) else Judge(st, st.transactions[state], verifier, claims)
  }

  function Consume(st: Store, state: string): Store
    requires state in st.transactions
  {
    st.(transactions := st.transactions[state := st.transactions[state].(consumed := true)])
  }

  function Complete(st: Store, state: string, verifier: string, claims: Claims): (Store, Result<Session, LoginError>) {
    var session := Admit(st, state, verifier, claims);
    if session.Err? then (st, session) else (Consume(st, state), session)
  }

  /** An upsert keeps the transactions that name the connection. */
  function Upsert(st: Store, key: ConnectionKey, conn: Connection): Store {
    st.(connections := st.connections[key := conn])
  }

  /** Deleting a connection deletes the transactions and mappings that name it. */
  function Delete(st: Store, key: ConnectionKey): Store {
    Store(
      st.connections - {key},
      map s | s in st.transactions && st.transactions[s].connection != key :: st.transactions[s],
      KeepOthers(st.mappings, key))
  }

  function KeepOthers(mappings: seq<Mapping>, key: ConnectionKey): seq<Mapping> {
    if mappings == [] then []
    else (if mappings[0].connection == key then [] else [mappings[0]]) + KeepOthers(mappings[1..], key)
  }

  /** The mappings are kept in role order, the order in which a login reads them. */
  function InsertMapping(mappings: seq<Mapping>, m: Mapping): seq<Mapping> {
    if mappings == [] || Less(m.role, mappings[0].role) then [m] + mappings
    else [mappings[0]] + InsertMapping(mappings[1..], m)
  }

  /** The primary key of a mapping; colons inside its fields can make two mappings share it. */
  function MappingId(m: Mapping): string {
    m.connection.0 + ":" + m.connection.1 + ":" + m.claim + ":" + m.expected + ":" + m.role
  }

  /** A mapping is refused without its connection, or when a different one has its primary key. */
  predicate Accepted(st: Store, m: Mapping) {
    && m.connection in st.connections
    && (m in st.mappings || forall k :: 0 <= k < |st.mappings| ==> MappingId(st.mappings[k]) != MappingId(m))
  }

  /** A mapping that is there already is not added again. */
  function UpsertMapping(st: Store, m: Mapping): Store {
    if !Accepted(st, m) || m in st.mappings then st else st.(mappings := InsertMapping(st.mappings, m))
  }

  class SsoStore {
    var connections: map<ConnectionKey, Connection>
    var transactions: map<string, Transaction>
    var mappings: seq<Mapping>

    constructor ()
      ensures Now() == Store(map[], map[], [])
    {
      connections, transactions, mappings := map[], map[], [];
    }

    function Now(): Store
      reads this
    {
      Store(connections, transactions, mappings)
    }

    method StartOidcLogin(key: ConnectionKey, state: string, nonce: string, verifier: string, redirect: string)
      returns (r: Result<(), LoginError>)
      modifies this`transactions
      ensures var started := Start(old(Now()), key, state, nonce, verifier, redirect);
        if started.Ok? then r == Ok(()) && Now() == started.value else r == Err(started.error) && Now() == old(Now())
      ensures r.Ok? <==> key in connections && connections[key].enabled && connections[key].protocol == Oidc
                         && state !in old(transactions)
      ensures r.Ok? ==> transactions == old(transactions)[state := Transaction(key, nonce, verifier, redirect, false)]
      ensures key !in connections ==> r == Err(NoConnection)
      ensures key in connections && !connections[key].enabled ==> r == Err(Disabled)
      ensures key in connections && connections[key].enabled && connections[key].protocol == Saml ==> r == Err(NotOidc)
    {
      if key !in connections {
        return Err(NoConnection);
      }
      var conn := connections[key];
      if !conn.enabled {
        return Err(Disabled);
      }
      if conn.protocol != Oidc {
        return Err(NotOidc);
      }
      if state in transactions {
        return Err(StateTaken);
      }
      transactions := transactions[state := Transaction(key, nonce, verifier, redirect, false)];
      r := Ok(());
    }

    method CompleteOidcLogin(state: string, verifier: string, claims: Claims) returns (r: Result<Session, LoginError>)
      modifies this`transactions
      ensures (Now(), r) == Complete(old(Now()), state, verifier, claims)
      ensures r.Ok? ==> state in old(transactions)
      ensures r.Ok? ==> transactions == old(transactions)[state := old(transactions)[state].(consumed := true)]
      ensures r.Err? ==> transactions == old(transactions)
    {
      if !Pending(Now(), state) {
        return Err(InvalidState);
      }
      var tx := transactions[state];
      if tx.verifier != verifier {
        return Err(BadVerifier);
      }
      if tx.nonce != claims.nonce {
        return Err(BadNonce);
      }
      if !claims.emailVerified {
        return Err(EmailNotVerified);
      }
      if tx.connection !in connections {
        return Err(NoConnection);
      }
      var conn := connections[tx.connection];
      if claims.issuer != conn.issuer {
        return Err(IssuerMismatch);
      }
      if claims.audience != conn.clientId {
        return Err(AudienceMismatch);
      }
      var domain := DomainOf(claims.email);
      if domain.None? {
        return Err(InvalidEmail);
      }
      if !DomainAllowed(conn.allowedDomains, Lower(domain.value)) {
        return Err(DomainNotAllowed);
      }
      var roles := ApplyIdpRoleMappings(mappings, tx.connection, claims.extra);
      if roles == [] {
        roles := ["PUBLIC"];
      }
      transactions := transactions[state := tx.(consumed := true)];
      r := Ok(Session(tx.connection, claims.subject, claims.email, roles));
    }

    method UpsertIdpConnection(key: ConnectionKey, conn: Connection)
      modifies this`connections
      ensures Now() == Upsert(old(Now()), key, conn)
      ensures connections == old(connections)[key := conn]
    {
      connections := connections[key := conn];
    }

    method UpsertIdpRoleMapping(m: Mapping) returns (ok: bool)
      modifies this`mappings
      ensures ok <==> Accepted(old(Now()), m)
      ensures Now() == UpsertMapping(old(Now()), m)
    {
      ok := Accepted(Now(), m);
      if ok && m !in mappings {
        mappings := InsertMapping(mappings, m);
      }
    }

    method DeleteIdpConnection(key: ConnectionKey)
      modifies this
      ensures Now() == Delete(old(Now()), key)
    {
      connections := connections - {key};
      transactions := map s | s in transactions && transactions[s].connection != key :: transactions[s];
      mappings := KeepOthers(mappings, key);
    }
  }

  // ---- Role order ----

  predicate RoleOrdered(mappings: seq<Mapping>) {
    forall i, j :: 0 <= i < j < |mappings| ==> !Less(mappings[j].role, mappings[i].role)
  }

  lemma NotLessIsTransitive(a: string, b: string, c: string)
    requires !Less(b, a) && !Less(c, b)
    ensures !Less(c, a)
  {
    LessIsOrder(c, a, b);
    LessIsOrder(a, b, c);
    LessIsOrder(b, c, a);
  }

  lemma {:induction false} InsertKeepsOrder(mappings: seq<Mapping>, m: Mapping)
    requires RoleOrdered(mappings)
    ensures RoleOrdered(InsertMapping(mappings, m))
    ensures forall x :: x in InsertMapping(mappings, m) <==> x == m || x in mappings
  {
    if mappings == [] || Less(m.role, mappings[0].role) {
      var out := [m] + mappings;
      forall j | 0 < j < |out|
        ensures !Less(out[j].role, m.role)
      {
        assert out[j] == mappings[j - 1];
        LessIsOrder(m.role, mappings[0].role, m.role);
        LessIsOrder(out[j].role, out[j].role, out[j].role);
        NotLessIsTransitive(m.role, mappings[0].role, out[j].role);
      }
    } else {
      var rest := InsertMapping(mappings[1..], m);
      InsertKeepsOrder(mappings[1..], m);
      assert mappings == [mappings[0]] + mappings[1..];
      forall j | 0 <= j < |rest|
        ensures !Less(rest[j].role, mappings[0].role)
      {
        assert rest[j] in rest;
        LessIsOrder(mappings[0].role, mappings[0].role, mappings[0].role);
      }
    }
  }

  lemma {:induction false} KeepOthersKeepsOrder(mappings: seq<Mapping>, key: ConnectionKey)
    requires RoleOrdered(mappings)
    ensures RoleOrdered(KeepOthers(mappings, key))
    ensures forall x :: x in KeepOthers(mappings, key) ==> x in mappings
  {
    hide Less;
    if mappings != [] {
      var rest := KeepOthers(mappings[1..], key);
      KeepOthersKeepsOrder(mappings[1..], key);
      assert forall j :: 0 <= j < |rest| ==> rest[j] in rest;
    }
  }

  /** Mappings in role order give their roles in strictly ascending order. */
  lemma {:induction false} MappedRolesAscend(mappings: seq<Mapping>, key: ConnectionKey, extra: map<string, Claim>)
    requires RoleOrdered(mappings)
    ensures Ascending(MappedRoles(mappings, key, extra))
  {
    hide Applies, IsMet;
    if mappings != [] {
      var front, m := mappings[..|mappings| - 1], mappings[|mappings| - 1];
      MappedRolesAscend(front, key, extra);
      var before := MappedRoles(front, key, extra);
      forall i | 0 <= i < |before| && m.role !in before
        ensures Less(before[i], m.role)
      {
        assert before[i] in before;
        MappedRolesAre(front, key, extra, before[i]);
        var k :| 0 <= k < |front| && IsMet(front[k], key, extra) && front[k].role == before[i];
        assert front[k] == mappings[k];
        LessIsOrder(before[i], m.role, m.role);
      }
    }
  }

  // ---- Runs ----

  datatype Op =
    | StartOp(key: ConnectionKey, state: string, nonce: string, verifier: string, redirect: string)
    | CompleteOp(state: string, verifier: string, claims: Claims)
    | UpsertOp(key: ConnectionKey, conn: Connection)
    | DeleteOp(key: ConnectionKey)
    | MapOp(mapping: Mapping)

  function Apply(st: Store, op: Op): Store {
    match op
    case StartOp(key, state, nonce, verifier, redirect) =>
      var r := Start(st, key, state, nonce, verifier, redirect);
      if r.Ok? then r.value else st
    case CompleteOp(state, verifier, claims) => Complete(st, state, verifier, claims).0
    case UpsertOp(key, conn) => Upsert(st, key, conn)
    case DeleteOp(key) => Delete(st, key)
    case MapOp(mapping) => UpsertMapping(st, mapping)
  }

  /** The store before the `k`-th operation. */
  function At(init: Store, ops: seq<Op>, k: nat): Store
    requires k <= |ops|
  {
    if k == 0 then init else Apply(At(init, ops, k - 1), ops[k - 1])
  }

  lemma {:induction false} MappingsStayOrdered(init: Store, ops: seq<Op>, k: nat)
    requires RoleOrdered(init.mappings) && k <= |ops|
    ensures RoleOrdered(At(init, ops, k).mappings)
  {
    hide RoleOrdered, Admit, InsertMapping, KeepOthers;
    if k > 0 {
      MappingsStayOrdered(init, ops, k - 1);
      var st := At(init, ops, k - 1);
      match ops[k - 1]
      case DeleteOp(key) => KeepOthersKeepsOrder(st.mappings, key);
      case MapOp(m) => InsertKeepsOrder(st.mappings, m);
      case _ =>
    }
  }

  /** Operation `k` completes the login of `state`. */
  predicate CompletesAt(init: Store, ops: seq<Op>, k: nat, state: string)
    requires k < |ops|
  {
    ops[k].CompleteOp? && ops[k].state == state && Complete(At(init, ops, k), state, ops[k].verifier, ops[k].claims).1.Ok?
  }

  /** Operation `k` starts a login under `state`. */
  predicate StartsAt(init: Store, ops: seq<Op>, k: nat, state: string)
    requires k < |ops|
  {
    ops[k].StartOp? && ops[k].state == state
    && Start(At(init, ops, k), ops[k].key, state, ops[k].nonce, ops[k].verifier, ops[k].redirect).Ok?
  }

  /** Random tokens do not repeat: no two starts use the same state. */
  predicate FreshTokens(ops: seq<Op>) {
    forall i, j :: 0 <= i < j < |ops| && ops[i].StartOp? && ops[j].StartOp? ==> ops[i].state != ops[j].state
  }

  /** A transaction in the store is the one its start put there. */
  lemma {:induction false} TransactionHasStart(init: Store, ops: seq<Op>, k: nat, state: string) returns (s: nat)
    requires init.transactions == map[] && k <= |ops| && state in At(init, ops, k).transactions
    ensures s < k && StartsAt(init, ops, s, state)
    ensures var tx := At(init, ops, k).transactions[state];
      tx.connection == ops[s].key && tx.nonce == ops[s].nonce && tx.verifier == ops[s].verifier
  {
    hide DomainAllowed, DomainOf, MappedRoles, KeepOthers, InsertMapping;
    var before := At(init, ops, k - 1);
    if state in before.transactions {
      s := TransactionHasStart(init, ops, k - 1, state);
    } else {
      s := k - 1;
    }
  }

  /** Once its login has completed, a state never is pending again. */
  lemma {:induction false} ConsumedStays(init: Store, ops: seq<Op>, i: nat, j: nat, state: string)
    requires init.transactions == map[] && FreshTokens(ops) && i < j <= |ops|
    requires CompletesAt(init, ops, i, state)
    ensures state in At(init, ops, j).transactions ==> At(init, ops, j).transactions[state].consumed
  {
    hide Admit, KeepOthers;
    if j > i + 1 {
      ConsumedStays(init, ops, i, j - 1, state);
      if ops[j - 1].StartOp? && ops[j - 1].state == state {
        CompletedWasPending(init, ops, i, state);
        var s := TransactionHasStart(init, ops, i, state);
        assert false;
      }
    }
  }

  lemma CompletedWasPending(init: Store, ops: seq<Op>, i: nat, state: string)
    requires i < |ops| && CompletesAt(init, ops, i, state)
    ensures Pending(At(init, ops, i), state)
  {
  }

  /** Each state completes at most once. */
  lemma CompletesAtMostOnce(init: Store, ops: seq<Op>, i: nat, j: nat, state: string)
    requires init.transactions == map[] && FreshTokens(ops) && i < j < |ops|
    requires CompletesAt(init, ops, i, state)
    ensures !CompletesAt(init, ops, j, state)
  {
    hide Admit, At, Complete;
    ConsumedStays(init, ops, i, j, state);
    if CompletesAt(init, ops, j, state) {
      CompletedWasPending(init, ops, j, state);
    }
  }

  /**
   Failed attempts leave a login pending: from its start on, until it completes or its connection is
   deleted, its transaction is there as started, whatever else is attempted.
   */
  lemma {:induction false} PendingUntilCompleted(init: Store, ops: seq<Op>, s: nat, k: nat, state: string)
    requires s < k <= |ops| && StartsAt(init, ops, s, state)
    requires forall j :: s < j < k ==> !CompletesAt(init, ops, j, state)
    requires forall j :: s < j < k && ops[j].DeleteOp? ==> ops[j].key != ops[s].key
    ensures var st := At(init, ops, k);
      state in st.transactions && st.transactions[state] == Transaction(ops[s].key, ops[s].nonce, ops[s].verifier, ops[s].redirect, false)
  {
    hide Admit, KeepOthers, InsertMapping;
    if k > s + 1 {
      PendingUntilCompleted(init, ops, s, k - 1, state);
      assert !CompletesAt(init, ops, k - 1, state);
    }
  }

  /**
   A completed login belongs to the one start of its state: the session carries that start's account and
   connection; nonce and verifier are that start's; issuer, audience and domain are those of the
   connection as it is now; and the roles are, without repetition, those the mappings give, or PUBLIC.
   */
  lemma SessionMatchesStart(init: Store, ops: seq<Op>, k: nat, state: string) returns (s: nat)
    requires init.transactions == map[] && RoleOrdered(init.mappings)
    requires FreshTokens(ops) && k < |ops| && CompletesAt(init, ops, k, state)
    ensures s < k && StartsAt(init, ops, s, state)
    ensures forall t :: 0 <= t < |ops| && ops[t].StartOp? && ops[t].state == state ==> t == s
    ensures var (st, op) := (At(init, ops, k), ops[k]);
      var session := Complete(st, state, op.verifier, op.claims).1.value;
      && session.connection == ops[s].key && session.connection in st.connections
      && op.verifier == ops[s].verifier && op.claims.nonce == ops[s].nonce
      && op.claims.issuer == st.connections[session.connection].issuer
      && op.claims.audience == st.connections[session.connection].clientId
      && op.claims.emailVerified && session.email == op.claims.email && session.subject == op.claims.subject
      && EmailIsAllowed(session.email, st.connections[session.connection].allowedDomains)
      && HasExactly(session.roles, st.mappings, session.connection, op.claims.extra)
  {
    hide At, DomainOf, DomainAllowed, MappedRoles, RoleOrdered, EmailIsAllowed;
    MappingsStayOrdered(init, ops, k);
    CompletedWasPending(init, ops, k, state);
    s := TransactionHasStart(init, ops, k, state);
    var st := At(init, ops, k);
    var key := st.transactions[state].connection;
    DomainCheckIff(ops[k].claims.email, st.connections[key].allowedDomains);
    RolesAreExact(st.mappings, key, ops[k].claims.extra);
  }

  /** A connection that was disabled after the start still completes its logins: only the start looks at the flag. */
  lemma EnabledIsNotRechecked(st: Store, key: ConnectionKey, enabled: bool, state: string, verifier: string, claims: Claims)
    requires key in st.connections
    ensures var switched := Upsert(st, key, st.connections[key].(enabled := enabled));
      && Complete(switched, state, verifier, claims).1 == Complete(st, state, verifier, claims).1
      && (Start(switched, key, "", "", "", "").Ok? ==> enabled)
  {
    hide DomainOf, DomainAllowed, MappedRoles;
  }

  /** The roles a session holds: in ascending order (so none twice), and exactly those some applicable mapping gives, or PUBLIC alone. */
  ghost predicate HasExactly(roles: seq<string>, mappings: seq<Mapping>, key: ConnectionKey, extra: map<string, Claim>) {
    && Ascending(roles)
    && ((exists r :: Gives(mappings, key, extra, r)) ==> forall r :: r in roles <==> Gives(mappings, key, extra, r))
    && ((forall r :: !Gives(mappings, key, extra, r)) ==> roles == ["PUBLIC"])
  }

  lemma RolesAreExact(mappings: seq<Mapping>, key: ConnectionKey, extra: map<string, Claim>)
    requires RoleOrdered(mappings)
    ensures HasExactly(RolesOrPublic(MappedRoles(mappings, key, extra)), mappings, key, extra)
  {
    hide Gives, MappedRoles;
    MappedRolesAscend(mappings, key, extra);
    forall r
      ensures r in MappedRoles(mappings, key, extra) <==> Gives(mappings, key, extra, r)
    {
      MappedRolesAre(mappings, key, extra, r);
    }
    var roles := MappedRoles(mappings, key, extra);
    if roles == [] {
      forall r
        ensures !Gives(mappings, key, extra, r)
      {
        assert r !in roles;
      }
    } else {
      assert roles[0] in roles;
      assert Gives(mappings, key, extra, roles[0]);
    }
  }

  // ---- What the operations decide ----

  /**
   A completion, told on the fields: its answer is the first check that fails, or else the session of the transaction's
   connection with the subject, the email and exactly the roles that the claims are given.
   */
  lemma CompletionIs(st: Store, state: string, verifier: string, claims: Claims)
    requires RoleOrdered(st.mappings)
    ensures var (next, r) := Complete(st, state, verifier, claims);
      if state !in st.transactions || st.transactions[state].consumed then r == Err(InvalidState)
      else
        var tx := st.transactions[state];
        if verifier != tx.verifier then r == Err(BadVerifier)
        else if claims.nonce != tx.nonce then r == Err(BadNonce)
        else if !claims.emailVerified then r == Err(EmailNotVerified)
        else if tx.connection !in st.connections then r == Err(NoConnection)
        else
          var conn := st.connections[tx.connection];
          if claims.issuer != conn.issuer then r == Err(IssuerMismatch)
          else if claims.audience != conn.clientId then r == Err(AudienceMismatch)
          else if '@' !in claims.email then r == Err(InvalidEmail)
          else if !EmailIsAllowed(claims.email, conn.allowedDomains) then r == Err(DomainNotAllowed)
          else
            && r.Ok? && r.value == Session(tx.connection, claims.subject, claims.email, r.value.roles)
            && HasExactly(r.value.roles, st.mappings, tx.connection, claims.extra)
            && next == st.(transactions := st.transactions[state := tx.(consumed := true)])
  {
    hide MappedRoles, EmailIsAllowed, DomainOf, DomainAllowed, HasExactly, RoleOrdered;
    if state in st.transactions && st.transactions[state].connection in st.connections {
      var key := st.transactions[state].connection;
      DomainCheckIff(claims.email, st.connections[key].allowedDomains);
      RolesAreExact(st.mappings, key, claims.extra);
    }
  }

  lemma {:induction false} KeptOthers(mappings: seq<Mapping>, key: ConnectionKey, m: Mapping)
    ensures multiset(KeepOthers(mappings, key))[m] == if m.connection == key then 0 else multiset(mappings)[m]
  {
    if mappings != [] {
      assert mappings == [mappings[0]] + mappings[1..];
      KeptOthers(mappings[1..], key, m);
    }
  }

  /** Deleting a connection takes away exactly what names it. */
  lemma DeleteIs(st: Store, key: ConnectionKey)
    ensures var next := Delete(st, key);
      && (forall k :: k in next.connections <==> k in st.connections && k != key)
      && (forall k :: k in next.connections ==> next.connections[k] == st.connections[k])
      && (forall s :: s in next.transactions <==> s in st.transactions && st.transactions[s].connection != key)
      && (forall s :: s in next.transactions ==> next.transactions[s] == st.transactions[s])
      && (forall m :: multiset(next.mappings)[m] == if m.connection == key then 0 else multiset(st.mappings)[m])
  {
    forall m
      ensures multiset(KeepOthers(st.mappings, key))[m] == if m.connection == key then 0 else multiset(st.mappings)[m]
    {
      KeptOthers(st.mappings, key, m);
    }
  }

  lemma {:induction false} InsertAdds(mappings: seq<Mapping>, m: Mapping)
    ensures multiset(InsertMapping(mappings, m)) == multiset(mappings) + multiset{m}
  {
    if mappings != [] && !Less(m.role, mappings[0].role) {
      InsertAdds(mappings[1..], m);
      assert mappings == [mappings[0]] + mappings[1..];
    }
  }

  /**
   A mapping is added once. It is refused exactly when its connection is not there, or when it is new and its fields,
   joined by colons, read like those of another.
   */
  lemma MappingIsAddedOnce(st: Store, m: Mapping)
    requires RoleOrdered(st.mappings)
    ensures var next := UpsertMapping(st, m);
      var taken := exists k :: 0 <= k < |st.mappings| && MappingId(st.mappings[k]) == MappingId(m);
      && next == st.(mappings := next.mappings) && RoleOrdered(next.mappings)
      && (m in st.mappings || m.connection !in st.connections || taken ==> next == st)
      && (m !in st.mappings && m.connection in st.connections && !taken ==>
            multiset(next.mappings) == multiset(st.mappings) + multiset{m})
      && (Accepted(st, m) <==> m.connection in st.connections && (m in st.mappings || !taken))
  {
    hide RoleOrdered, InsertMapping, MappingId;
    InsertKeepsOrder(st.mappings, m);
    InsertAdds(st.mappings, m);
  }

  /** Two mappings whose fields differ can read alike when joined by colons. */
  lemma MappingIdsCollide(key: ConnectionKey)
    ensures MappingId(Mapping(key, "a:b", "c", "r")) == MappingId(Mapping(key, "a", "b:c", "r"))
  {
  }

  /** A start, told on the fields: its answer is the first check that fails, or else the transaction that is now pending. */
  lemma StartIs(st: Store, key: ConnectionKey, state: string, nonce: string, verifier: string, redirect: string)
    ensures var r := Start(st, key, state, nonce, verifier, redirect);
      if key !in st.connections then r == Err(NoConnection)
      else if st.connections[key].enabled == false then r == Err(Disabled)
      else if st.connections[key].protocol == Saml then r == Err(NotOidc)
      else if state in st.transactions then r == Err(StateTaken)
      else r == Ok(Store(
        st.connections, st.transactions[state := Transaction(key, nonce, verifier, redirect, false)], st.mappings))
  {
  }

  function Joined(fields: seq<string>): string {
    if fields == [] then "" else if |fields| == 1 then fields[0] else fields[0] + ":" + Joined(fields[1..])
  }

  /** The primary key of a mapping is its account, connection, claim, expected value and role, joined by colons. */
  lemma MappingIdIs(account: string, connection: string, claim: string, expected: string, role: string)
    ensures MappingId(Mapping((account, connection), claim, expected, role)) == Joined([account, connection, claim, expected, role])
  {
    var four, three, two := [connection, claim, expected, role], [claim, expected, role], [expected, role];
    assert [account, connection, claim, expected, role][1..] == four && four[1..] == three && three[1..] == two && two[1..] == [role];
    assert Joined([role]) == role && Joined(two) == expected + ":" + role;
    assert Joined(three) == claim + ":" + (expected + ":" + role);
    assert Joined(four) == connection + ":" + (claim + ":" + (expected + ":" + role));
    assert account + ":" + (connection + ":" + (claim + ":" + (expected + ":" + role)))
        == account + ":" + connection + ":" + claim + ":" + expected + ":" + role;
  }

  /** What the operations of a run do to the store. */
  lemma ApplyIs(st: Store, op: Op)
    ensures match op
      case StartOp(key, state, nonce, verifier, redirect) =>
        var r := Start(st, key, state, nonce, verifier, redirect);
        Apply(st, op) == if r.Ok? then r.value else st
      case CompleteOp(state, verifier, claims) => Apply(st, op) == Complete(st, state, verifier, claims).0
      case UpsertOp(key, conn) => Apply(st, op) == Store(st.connections[key := conn], st.transactions, st.mappings)
      case DeleteOp(key) => Apply(st, op) == Delete(st, key)
      case MapOp(mapping) => Apply(st, op) == UpsertMapping(st, mapping)
  {
    hide Start, Complete, Delete, UpsertMapping;
  }
}
