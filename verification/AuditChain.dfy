/**
 The per-account hash chains of the audit table, and what verifying one says about its history.

 The digest is any function of the bytes. Where a law needs that hashing does not collide, it asks so
 only of the byte strings hashed in the rows at hand.
 */
module AuditChain {
  import opened ByteStrings
  import opened Text
  import opened AuditEncoding

  type Digest = Bytes -> Bytes

  datatype Row = Row(
    id: nat, account: Bytes, organization: Option<Bytes>, event: Bytes, prev: Bytes, hash: Bytes)
  {
    function Hashable(): Entry {
      Entry(prev, account, organization, event)
    }

    /** Everything but the row's number. */
    function Content(): (Entry, Bytes) {
      (Hashable(), hash)
    }

    /** Rows written before the chain existed carry no hash. */
    predicate Legacy() {
      hash == []
    }
  }

  function EntryHash(d: Digest, r: Row): Bytes {
    d(Encode(r.Hashable()))
  }

  function OfAccount(table: seq<Row>, account: Bytes): seq<Row> {
    if table == [] then []
    else
      var last := table[|table| - 1];
      OfAccount(table[..|table| - 1], account) + if last.account == account then [last] else []
  }

  function Hashed(rows: seq<Row>): seq<Row> {
    if rows == [] then []
    else
      var last := rows[|rows| - 1];
      Hashed(rows[..|rows| - 1]) + if last.Legacy() then [] else [last]
  }

  // ---- Verification ----

  datatype Reason = PrevMismatch | EntryMismatch

  datatype Status = Status(valid: bool, verified: nat, preChain: nat, brokenAt: Option<(nat, Reason)>)

  /** The verdict on a list of rows, one row at a time; a broken chain stays broken where it was. */
  function Verdict(d: Digest, rows: seq<Row>): Status {
    if rows == [] then Status(true, 0, 0, None)
    else
      var row := rows[|rows| - 1];
      var before := rows[..|rows| - 1];
      var s := Verdict(d, before);
      if !s.valid then s
      else if row.Legacy() then s.(preChain := s.preChain + 1)
      else
        var chain := Hashed(before);
        if chain != [] && row.prev != chain[|chain| - 1].hash then s.(valid := false, brokenAt := Some((row.id, PrevMismatch)))
        else if row.hash != EntryHash(d, row) then s.(valid := false, brokenAt := Some((row.id, EntryMismatch)))
        else s.(verified := s.verified + 1)
  }

  predicate Linked(chain: seq<Row>, k: nat)
    requires k < |chain|
  {
    k > 0 ==> chain[k].prev == chain[k - 1].hash
  }

  predicate RowOk(d: Digest, chain: seq<Row>, k: nat)
    requires k < |chain|
  {
    Linked(chain, k) && chain[k].hash == EntryHash(d, chain[k])
  }

  /** Every row of the chain is linked to the one before it and carries its own hash. */
  predicate ChainOk(d: Digest, chain: seq<Row>) {
    forall k :: 0 <= k < |chain| ==> RowOk(d, chain, k)
  }

  /** The first `k` rows of the chain are in order and row `k`, if there is one, is not. */
  predicate BreaksAt(d: Digest, chain: seq<Row>, k: nat) {
    && k <= |chain|
    && (forall i :: 0 <= i < k ==> RowOk(d, chain, i))
    && (k < |chain| ==> !RowOk(d, chain, k))
  }

  function ReasonAt(chain: seq<Row>, k: nat): Reason
    requires k < |chain|
  {
    if Linked(chain, k) then EntryMismatch else PrevMismatch
  }

  lemma BreaksAtEndIff(d: Digest, chain: seq<Row>, k: nat)
    requires BreaksAt(d, chain, k)
    ensures k == |chain| <==> ChainOk(d, chain)
  {
  }

  lemma BreaksAtGrown(d: Digest, chain: seq<Row>, row: Row, k: nat)
    requires BreaksAt(d, chain, k)
    ensures BreaksAt(d, chain + [row], if k == |chain| && RowOk(d, chain + [row], k) then k + 1 else k)
    ensures k < |chain| ==> ReasonAt(chain + [row], k) == ReasonAt(chain, k)
  {
    hide EntryHash;
    var grown := chain + [row];
    forall i | 0 <= i < |chain|
      ensures RowOk(d, grown, i) <==> RowOk(d, chain, i)
      ensures Linked(grown, i) <==> Linked(chain, i)
    {
      assert grown[i] == chain[i];
      assert i > 0 ==> grown[i - 1] == chain[i - 1];
    }
  }

  /** The verdict counts the hashed rows before the first bad one and reports that one. */
  lemma {:induction false} VerdictIs(d: Digest, rows: seq<Row>)
    ensures var s, chain := Verdict(d, rows), Hashed(rows);
      && BreaksAt(d, chain, s.verified)
      && |chain| <= |rows|
      && (s.valid <==> ChainOk(d, chain))
      && (s.valid <==> s.verified == |chain|)
      && (s.valid ==> s.preChain == |rows| - |chain| && s.brokenAt == None)
      && (!s.valid ==> s.brokenAt == Some((chain[s.verified].id, ReasonAt(chain, s.verified))))
  {
    hide EntryHash, ChainOk;
    if rows != [] {
      var row, before := rows[|rows| - 1], rows[..|rows| - 1];
      VerdictIs(d, before);
      var s, chain := Verdict(d, before), Hashed(before);
      BreaksAtGrown(d, chain, row, s.verified);
      BreaksAtEndIff(d, chain, s.verified);
      assert Hashed(rows) == if row.Legacy() then chain else chain + [row];
    }
    BreaksAtEndIff(d, Hashed(rows), Verdict(d, rows).verified);
  }

  method VerifyRows(d: Digest, rows: seq<Row>) returns (s: Status)
    ensures s == Verdict(d, rows)
  {
    hide EntryHash;
    var verified, preChain := 0, 0;
    var expected: Option<Bytes> := None;
    for i := 0 to |rows|
      invariant Verdict(d, rows[..i]) == Status(true, verified, preChain, None)
      invariant expected == if Hashed(rows[..i]) == [] then None else Some(Hashed(rows[..i])[|Hashed(rows[..i])| - 1].hash)
    {
      var row := rows[i];
      assert rows[..i + 1][..i] == rows[..i];
      if row.Legacy() {
        preChain := preChain + 1;
      } else {
        if expected.Some? && row.prev != expected.value {
          BrokenStays(d, rows, i + 1);
          return Status(false, verified, preChain, Some((row.id, PrevMismatch)));
        }
        if row.hash != EntryHash(d, row) {
          BrokenStays(d, rows, i + 1);
          return Status(false, verified, preChain, Some((row.id, EntryMismatch)));
        }
        verified := verified + 1;
        expected := Some(row.hash);
      }
    }
    assert rows[..|rows|] == rows;
    s := Status(true, verified, preChain, None);
  }

  lemma {:induction false} BrokenStays(d: Digest, rows: seq<Row>, i: nat)
    requires i <= |rows| && !Verdict(d, rows[..i]).valid
    ensures Verdict(d, rows) == Verdict(d, rows[..i])
    decreases |rows| - i
  {
    if i < |rows| {
      assert rows[..i + 1][..i] == rows[..i];
      BrokenStays(d, rows, i + 1);
    } else {
      assert rows[..i] == rows;
    }
  }

  // ---- Appending ----

  function Tail(rows: seq<Row>): Bytes {
    if rows == [] then [] else rows[|rows| - 1].hash
  }

  function NewRow(d: Digest, table: seq<Row>, id: nat, account: Bytes, organization: Option<Bytes>, event: Bytes): Row {
    var prev := Tail(OfAccount(table, account));
    Row(id, account, organization, event, prev, d(Encode(Entry(prev, account, organization, event))))
  }

  function Append(d: Digest, table: seq<Row>, id: nat, account: Bytes, organization: Option<Bytes>, event: Bytes): seq<Row> {
    table + [NewRow(d, table, id, account, organization, event)]
  }

  /** The digest is printed in hexadecimal and never empty. */
  ghost predicate NonEmpty(d: Digest) {
    forall b :: d(b) != []
  }

  lemma AppendToAccount(d: Digest, table: seq<Row>, id: nat, account: Bytes, organization: Option<Bytes>, event: Bytes, other: Bytes)
    ensures var r := NewRow(d, table, id, account, organization, event);
      OfAccount(Append(d, table, id, account, organization, event), other) ==
        OfAccount(table, other) + if other == account then [r] else []
  {
    var after := Append(d, table, id, account, organization, event);
    assert after[..|after| - 1] == table;
  }

  lemma HashedAppend(rows: seq<Row>, r: Row)
    ensures Hashed(rows + [r]) == Hashed(rows) + if r.Legacy() then [] else [r]
  {
    assert (rows + [r])[..|rows|] == rows;
  }

  /** An append for one account never changes what verifying another says. */
  lemma AppendLeavesOthers(d: Digest, table: seq<Row>, id: nat, account: Bytes, organization: Option<Bytes>, event: Bytes, other: Bytes)
    requires other != account
    ensures Verdict(d, OfAccount(Append(d, table, id, account, organization, event), other)) == Verdict(d, OfAccount(table, other))
  {
    AppendToAccount(d, table, id, account, organization, event, other);
    assert OfAccount(table, other) + [] == OfAccount(table, other);
  }

  /**
   An append keeps its account's chain valid exactly when it was valid and the row it links to is
   hashed, or nothing was hashed yet: behind a legacy row that follows hashed rows it would start anew.
   */
  lemma AppendKeepsValidIff(d: Digest, table: seq<Row>, id: nat, account: Bytes, organization: Option<Bytes>, event: Bytes)
    requires NonEmpty(d)
    ensures var rows := OfAccount(table, account);
      Verdict(d, OfAccount(Append(d, table, id, account, organization, event), account)).valid <==>
        Verdict(d, rows).valid && (Hashed(rows) == [] || Tail(rows) != [])
  {
    hide EntryHash, Encode, OfAccount;
    var rows := OfAccount(table, account);
    var r := NewRow(d, table, id, account, organization, event);
    AppendToAccount(d, table, id, account, organization, event, account);
    assert r.hash == EntryHash(d, r) by {
      NewRowIsHashed(d, table, id, account, organization, event);
    }
    assert (rows + [r])[..|rows|] == rows;
    TailIsLastHash(rows);
    if Verdict(d, rows).valid && Hashed(rows) != [] {
      VerdictIs(d, rows);
      ChainHashesNonEmpty(rows);
    }
  }

  /** A table that verifies and is broken by the next append: a legacy row stands behind a hashed one. */
  lemma LegacyBehindHashed(d: Digest, account: Bytes, event: Bytes)
    requires NonEmpty(d)
    ensures var hashed := NewRow(d, [], 1, account, None, event);
      var table := [hashed, Row(2, account, None, event, [], [])];
      && Verdict(d, OfAccount(table, account)) == Status(true, 1, 1, None)
      && !Verdict(d, OfAccount(Append(d, table, 3, account, None, event), account)).valid
  {
    var hashed, legacy := NewRow(d, [], 1, account, None, event), Row(2, account, None, event, [], []);
    NewRowIsHashed(d, [], 1, account, None, event);
    assert OfAccount([], account) == [] && Hashed([]) == [] && Verdict(d, []) == Status(true, 0, 0, None);
    assert hashed.account == account && !hashed.Legacy() && hashed.hash == EntryHash(d, hashed);
    hide Encode, EntryHash, NewRow, OfAccount, Hashed, Verdict;
    assert [] + [hashed] == [hashed] && [hashed] + [legacy] == [hashed, legacy];
    OfAccountPushed([], hashed, account);
    OfAccountPushed([hashed], legacy, account);
    HashedAppend([], hashed);
    HashedAppend([hashed], legacy);
    VerdictExtends(d, [], hashed);
    LegacyPushed(d, [hashed], legacy);
    AppendKeepsValidIff(d, [hashed, legacy], 3, account, None, event);
  }

  lemma OfAccountPushed(table: seq<Row>, r: Row, account: Bytes)
    ensures OfAccount(table + [r], account) == OfAccount(table, account) + if r.account == account then [r] else []
  {
    assert (table + [r])[..|table|] == table;
  }

  lemma LegacyPushed(d: Digest, rows: seq<Row>, r: Row)
    requires Verdict(d, rows).valid && r.Legacy()
    ensures Verdict(d, rows + [r]) == Verdict(d, rows).(preChain := Verdict(d, rows).preChain + 1)
  {
    assert (rows + [r])[..|rows|] == rows;
  }

  lemma NewRowIsHashed(d: Digest, table: seq<Row>, id: nat, account: Bytes, organization: Option<Bytes>, event: Bytes)
    ensures var r := NewRow(d, table, id, account, organization, event); r.hash == EntryHash(d, r)
  {
  }

  lemma TailIsLastHash(rows: seq<Row>)
    ensures Tail(rows) != [] ==> Hashed(rows) != [] && Hashed(rows)[|Hashed(rows)| - 1].hash == Tail(rows)
  {
  }

  lemma {:induction false} ChainHashesNonEmpty(rows: seq<Row>)
    ensures forall k :: 0 <= k < |Hashed(rows)| ==> Hashed(rows)[k].hash != []
  {
    if rows != [] {
      ChainHashesNonEmpty(rows[..|rows| - 1]);
    }
  }

  // ---- What the head commits to ----

  /** No two of these byte strings collide. */
  ghost predicate CollisionFree(d: Digest, inputs: set<Bytes>) {
    forall x, y :: x in inputs && y in inputs && d(x) == d(y) ==> x == y
  }

  ghost function Preimages(chain: seq<Row>): set<Bytes> {
    set r | r in chain :: Encode(r.Hashable())
  }

  predicate AllFit(chain: seq<Row>) {
    forall k :: 0 <= k < |chain| ==> chain[k].Hashable().Fits()
  }

  lemma SameHashSameEntry(d: Digest, r: Row, s: Row, inputs: set<Bytes>)
    requires CollisionFree(d, inputs) && Encode(r.Hashable()) in inputs && Encode(s.Hashable()) in inputs
    requires r.Hashable().Fits() && s.Hashable().Fits()
    requires EntryHash(d, r) == EntryHash(d, s)
    ensures r.Hashable() == s.Hashable()
  {
    hide Encode;
    EncodingIsInjective(r.Hashable(), s.Hashable());
  }

  /**
   Head commitment: two chains in order whose last rows carry the same hash agree, counted from the
   end, in every field of every row, as far as the shorter one goes.
   */
  lemma {:induction false} HeadCommits(d: Digest, a: seq<Row>, b: seq<Row>, inputs: set<Bytes>, k: nat)
    requires ChainOk(d, a) && ChainOk(d, b) && AllFit(a) && AllFit(b)
    requires a != [] && b != [] && a[|a| - 1].hash == b[|b| - 1].hash
    requires CollisionFree(d, inputs) && Preimages(a) <= inputs && Preimages(b) <= inputs
    requires k < |a| && k < |b|
    ensures a[|a| - 1 - k].Content() == b[|b| - 1 - k].Content()
  {
    hide Encode, EntryHash;
    var i, j := |a| - 1 - k, |b| - 1 - k;
    assert RowOk(d, a, i) && RowOk(d, b, j);
    if k > 0 {
      HeadCommits(d, a, b, inputs, k - 1);
      assert Linked(a, i + 1) && Linked(b, j + 1) by {
        assert RowOk(d, a, i + 1) && RowOk(d, b, j + 1);
      }
    }
    assert Encode(a[i].Hashable()) in Preimages(a) && Encode(b[j].Hashable()) in Preimages(b);
    SameHashSameEntry(d, a[i], b[j], inputs);
  }

  /** The same for two tables: valid verdicts and equal head hashes make the shorter history a suffix of the longer. */
  lemma HeadCommitment(d: Digest, rowsA: seq<Row>, rowsB: seq<Row>)
    requires Verdict(d, rowsA).valid && Verdict(d, rowsB).valid
    requires AllFit(Hashed(rowsA)) && AllFit(Hashed(rowsB))
    requires CollisionFree(d, Preimages(Hashed(rowsA)) + Preimages(Hashed(rowsB)))
    requires 0 < |Hashed(rowsA)| <= |Hashed(rowsB)|
    requires Hashed(rowsA)[|Hashed(rowsA)| - 1].hash == Hashed(rowsB)[|Hashed(rowsB)| - 1].hash
    ensures var a, b := Hashed(rowsA), Hashed(rowsB);
      forall k :: 0 <= k < |a| ==> a[k].Content() == b[|b| - |a| + k].Content()
  {
    hide *;
    VerdictIs(d, rowsA);
    VerdictIs(d, rowsB);
    var a, b := Hashed(rowsA), Hashed(rowsB);
    var inputs := Preimages(a) + Preimages(b);
    forall k | 0 <= k < |a|
      ensures a[k].Content() == b[|b| - |a| + k].Content()
    {
      HeadCommits(d, a, b, inputs, |a| - 1 - k);
    }
  }

  // ---- Where tampering shows ----

  /** A chain as appends build it: in order, starting from the empty hash, with no empty hash in it. */
  ghost predicate Built(d: Digest, chain: seq<Row>) {
    && ChainOk(d, chain)
    && (chain != [] ==> chain[0].prev == [])
    && (forall k :: 0 <= k < |chain| ==> !chain[k].Legacy())
  }

  /** A built chain holds no hash twice: equal hashes would descend to the empty hash before the first row. */
  lemma {:induction false} HashesAreDistinct(d: Digest, chain: seq<Row>, i: nat, j: nat)
    requires Built(d, chain) && AllFit(chain) && CollisionFree(d, Preimages(chain))
    requires i < j < |chain|
    ensures chain[i].hash != chain[j].hash
  {
    hide Encode, EntryHash;
    if chain[i].hash == chain[j].hash {
      assert RowOk(d, chain, i) && RowOk(d, chain, j);
      assert Encode(chain[i].Hashable()) in Preimages(chain) && Encode(chain[j].Hashable()) in Preimages(chain);
      SameHashSameEntry(d, chain[i], chain[j], Preimages(chain));
      if i > 0 {
        HashesAreDistinct(d, chain, i - 1, j - 1);
      }
      assert false;
    }
  }

  /**
   Changing the organisation or the event of one row, and nothing else, is reported at that row with
   exactly the rows before it verified.
   */
  lemma EditIsLocated(d: Digest, chain: seq<Row>, k: nat, edited: Row, rows: seq<Row>)
    requires Built(d, chain) && k < |chain|
    requires edited == chain[k].(organization := edited.organization, event := edited.event)
    requires edited != chain[k]
    requires chain[k].Hashable().Fits() && edited.Hashable().Fits()
    requires CollisionFree(d, {Encode(chain[k].Hashable()), Encode(edited.Hashable())})
    requires Hashed(rows) == chain[k := edited]
    ensures var s := Verdict(d, rows);
      !s.valid && s.verified == k && s.brokenAt == Some((chain[k].id, EntryMismatch))
  {
    hide Encode, EntryHash;
    VerdictIs(d, rows);
    var s, tampered := Verdict(d, rows), chain[k := edited];
    forall i | 0 <= i < k
      ensures RowOk(d, tampered, i)
    {
      assert RowOk(d, chain, i);
    }
    assert RowOk(d, chain, k);
    if EntryHash(d, edited) == edited.hash {
      SameHashSameEntry(d, chain[k], edited, {Encode(chain[k].Hashable()), Encode(edited.Hashable())});
      assert false;
    }
    assert !RowOk(d, tampered, k);
  }

  /**
   Replacing one row by any hashed row goes unnoticed exactly when nothing but the number changed, or
   the row is the newest one and the replacement is itself linked and hashed: only the head hash,
   kept elsewhere, tells then.
   */
  lemma ReplacementIsNoticedIff(d: Digest, chain: seq<Row>, k: nat, edited: Row, rows: seq<Row>)
    requires Built(d, chain) && k < |chain|
    requires AllFit(chain) && edited.Hashable().Fits()
    requires CollisionFree(d, Preimages(chain) + {Encode(edited.Hashable())})
    requires Hashed(rows) == chain[k := edited]
    ensures Verdict(d, rows).valid <==>
      || edited.Content() == chain[k].Content()
      || (k == |chain| - 1 && RowOk(d, chain[k := edited], k))
  {
    hide Encode, EntryHash, AllFit;
    VerdictIs(d, rows);
    var tampered := chain[k := edited];
    assert RowOk(d, chain, k);
    forall i | 0 <= i < |chain| && i != k && i != k + 1
      ensures RowOk(d, tampered, i)
    {
      assert RowOk(d, chain, i);
    }
    if k + 1 < |chain| {
      assert RowOk(d, chain, k + 1);
      assert RowOk(d, tampered, k + 1) <==> edited.hash == chain[k].hash;
      if RowOk(d, tampered, k) && RowOk(d, tampered, k + 1) {
        RowFits(chain, k);
        assert Encode(chain[k].Hashable()) in Preimages(chain);
        SameHashSameEntry(d, chain[k], edited, Preimages(chain) + {Encode(edited.Hashable())});
      }
    }
    assert edited.Content() == chain[k].Content() ==> RowOk(d, tampered, k) by {
      assert edited.Content() == chain[k].Content() ==> EntryHash(d, edited) == EntryHash(d, chain[k]) by {
        SameContentSameHash(d, edited, chain[k]);
      }
    }
  }

  lemma SameContentSameHash(d: Digest, r: Row, s: Row)
    ensures r.Content() == s.Content() ==> EntryHash(d, r) == EntryHash(d, s)
  {
  }

  lemma RowFits(chain: seq<Row>, k: nat)
    requires AllFit(chain) && k < |chain|
    ensures chain[k].Hashable().Fits()
  {
  }

  /**
   Deleting the rows from `i` to `j` (or blanking their hashes, which makes them legacy rows) is
   noticed exactly when rows remain on both sides; it is then reported at the first row after the gap,
   with exactly the rows before the gap verified.
   */
  lemma DeletionIsNoticedIff(d: Digest, chain: seq<Row>, i: nat, j: nat, rows: seq<Row>)
    requires Built(d, chain) && AllFit(chain) && CollisionFree(d, Preimages(chain))
    requires i < j <= |chain|
    requires Hashed(rows) == chain[..i] + chain[j..]
    ensures var s := Verdict(d, rows);
      && (s.valid <==> i == 0 || j == |chain|)
      && (!s.valid ==> s.verified == i && s.brokenAt == Some((chain[j].id, PrevMismatch)))
  {
    hide Encode, EntryHash, AllFit, CollisionFree;
    VerdictIs(d, rows);
    hide Verdict, Hashed;
    var left := chain[..i] + chain[j..];
    forall k | 0 <= k < |left| && (k != i || i == 0)
      ensures RowOk(d, left, k)
    {
      if k < i {
        assert RowOk(d, chain, k);
      } else {
        assert left[k] == chain[k - i + j] && RowOk(d, chain, k - i + j);
        assert k > i ==> left[k - 1] == chain[k - 1 - i + j];
      }
    }
    if i > 0 && j < |chain| {
      assert left[i] == chain[j] && left[i - 1] == chain[i - 1];
      assert RowOk(d, chain, j);
      HashesAreDistinct(d, chain, i - 1, j - 1);
      assert !Linked(left, i) && !RowOk(d, left, i);
    } else {
      assert ChainOk(d, left);
    }
  }

  /** The rows of `left` are those of the chain at the positions `at`, in whatever order and number. */
  ghost predicate Picks(chain: seq<Row>, at: seq<nat>, left: seq<Row>) {
    |left| == |at| && forall k :: 0 <= k < |at| ==> at[k] < |chain| && left[k] == chain[at[k]]
  }

  predicate Follows(at: seq<nat>, k: nat)
    requires k < |at|
  {
    k > 0 ==> at[k] == at[k - 1] + 1
  }

  /**
   Any number of gaps, repetitions and changes of order: what is left of a chain, however it was picked,
   verifies exactly when it is one contiguous stretch of it. Otherwise the first row that does not follow
   the one before is reported, with exactly the rows before it verified.
   */
  lemma SelectionIsNoticedIff(d: Digest, chain: seq<Row>, at: seq<nat>, rows: seq<Row>)
    requires Built(d, chain) && AllFit(chain) && CollisionFree(d, Preimages(chain))
    requires Picks(chain, at, Hashed(rows))
    ensures var s := Verdict(d, rows);
      && (s.valid <==> forall k :: 0 <= k < |at| ==> Follows(at, k))
      && (!s.valid ==> s.verified < |at| && !Follows(at, s.verified)
                       && (forall k :: 0 <= k < s.verified ==> Follows(at, k))
                       && s.brokenAt == Some((chain[at[s.verified]].id, PrevMismatch)))
  {
    hide Encode, EntryHash, AllFit, CollisionFree;
    VerdictIs(d, rows);
    var left := Hashed(rows);
    hide Verdict, Hashed;
    forall k | 0 <= k < |left|
      ensures RowOk(d, left, k) <==> Follows(at, k)
      ensures Linked(left, k) <==> Follows(at, k)
    {
      PickedRowIff(d, chain, at, left, k);
    }
  }

  lemma PickedRowIff(d: Digest, chain: seq<Row>, at: seq<nat>, left: seq<Row>, k: nat)
    requires Built(d, chain) && AllFit(chain) && CollisionFree(d, Preimages(chain))
    requires Picks(chain, at, left) && k < |left|
    ensures RowOk(d, left, k) <==> Follows(at, k)
    ensures Linked(left, k) <==> Follows(at, k)
  {
    hide Encode, EntryHash, AllFit, CollisionFree;
    var i := at[k];
    assert RowOk(d, chain, i);
    if k > 0 {
      var j := at[k - 1];
      if i > 0 && j != i - 1 {
        HashesAreDistinct(d, chain, if j < i - 1 then j else i - 1, if j < i - 1 then i - 1 else j);
      }
    }
  }

  // ---- Runs of appends ----

  datatype Request = Request(account: Bytes, organization: Option<Bytes>, event: Bytes)

  function RunAppends(d: Digest, table: seq<Row>, requests: seq<Request>): seq<Row> {
    if requests == [] then table
    else
      var r := requests[|requests| - 1];
      var before := RunAppends(d, table, requests[..|requests| - 1]);
      Append(d, before, |before|, r.account, r.organization, r.event)
  }

  function Count(requests: seq<Request>, account: Bytes): nat {
    if requests == [] then 0
    else Count(requests[..|requests| - 1], account) + if requests[|requests| - 1].account == account then 1 else 0
  }

  lemma {:induction false} LegacyOnly(rows: seq<Row>)
    requires forall k :: 0 <= k < |rows| ==> rows[k].Legacy()
    ensures Hashed(rows) == []
  {
    if rows != [] {
      LegacyOnly(rows[..|rows| - 1]);
    }
  }

  lemma {:induction false} AccountRowsAreTableRows(table: seq<Row>, account: Bytes)
    ensures forall r :: r in OfAccount(table, account) ==> r in table && r.account == account
  {
    if table != [] {
      AccountRowsAreTableRows(table[..|table| - 1], account);
    }
  }

  /** The rows of an account that has had `count` appends behind `legacy` legacy rows. */
  ghost predicate Grown(d: Digest, rows: seq<Row>, count: nat, legacy: nat) {
    var chain := Hashed(rows);
    && Built(d, chain) && |chain| == count
    && Tail(rows) == (if chain == [] then [] else chain[|chain| - 1].hash)
    && Verdict(d, rows) == Status(true, count, legacy, None)
  }

  /**
   However the appends of any accounts interleave, starting from legacy rows only, every account's
   chain is one that appends build and verifies, counting that account's appends and legacy rows.
   */
  lemma {:induction false} RunsKeepChainsValid(d: Digest, table: seq<Row>, requests: seq<Request>, account: Bytes)
    requires NonEmpty(d) && forall k :: 0 <= k < |table| ==> table[k].Legacy()
    ensures Grown(d, OfAccount(RunAppends(d, table, requests), account), Count(requests, account), |OfAccount(table, account)|)
  {
    hide Encode, EntryHash, Grown, Append, OfAccount;
    if requests == [] {
      LegacyIsGrown(d, table, account);
    } else {
      var r := requests[|requests| - 1];
      RunsKeepChainsValid(d, table, requests[..|requests| - 1], account);
      var before := RunAppends(d, table, requests[..|requests| - 1]);
      AppendToAccount(d, before, |before|, r.account, r.organization, r.event, account);
      if r.account == account {
        GrowsByOne(d, before, |before|, account, r.organization, r.event,
                   Count(requests[..|requests| - 1], account), |OfAccount(table, account)|);
      } else {
        assert OfAccount(before, account) + [] == OfAccount(before, account);
      }
    }
  }

  lemma LegacyIsGrown(d: Digest, table: seq<Row>, account: Bytes)
    requires forall k :: 0 <= k < |table| ==> table[k].Legacy()
    ensures Grown(d, OfAccount(table, account), 0, |OfAccount(table, account)|)
  {
    hide OfAccount, Verdict, Hashed;
    AccountRowsAreTableRows(table, account);
    var rows := OfAccount(table, account);
    assert forall k :: 0 <= k < |rows| ==> rows[k] in rows;
    LegacyOnly(rows);
    VerdictIs(d, rows);
  }

  lemma GrowsByOne(d: Digest, table: seq<Row>, id: nat, account: Bytes, organization: Option<Bytes>, event: Bytes,
                   count: nat, legacy: nat)
    requires NonEmpty(d) && Grown(d, OfAccount(table, account), count, legacy)
    ensures Grown(d, OfAccount(table, account) + [NewRow(d, table, id, account, organization, event)], count + 1, legacy)
  {
    hide Encode, EntryHash, OfAccount, Built, Hashed, Verdict;
    var rows, r := OfAccount(table, account), NewRow(d, table, id, account, organization, event);
    NewRowIsHashed(d, table, id, account, organization, event);
    assert !r.Legacy();
    HashedAppend(rows, r);
    VerdictExtends(d, rows, r);
    BuiltExtends(d, Hashed(rows), r);
    assert Tail(rows + [r]) == r.hash;
  }

  lemma VerdictExtends(d: Digest, rows: seq<Row>, r: Row)
    requires Verdict(d, rows).valid && !r.Legacy() && r.hash == EntryHash(d, r)
    requires Hashed(rows) != [] ==> r.prev == Hashed(rows)[|Hashed(rows)| - 1].hash
    ensures Verdict(d, rows + [r]) == Verdict(d, rows).(verified := Verdict(d, rows).verified + 1)
  {
    hide EntryHash, Hashed;
    assert (rows + [r])[..|rows|] == rows;
  }

  lemma BuiltExtends(d: Digest, chain: seq<Row>, r: Row)
    requires Built(d, chain) && !r.Legacy() && r.hash == EntryHash(d, r)
    requires r.prev == if chain == [] then [] else chain[|chain| - 1].hash
    ensures Built(d, chain + [r])
  {
    hide EntryHash;
    forall k | 0 <= k < |chain + [r]|
      ensures RowOk(d, chain + [r], k)
    {
      if k < |chain| {
        assert RowOk(d, chain, k);
      }
    }
  }

  // ---- What a hash covers ----

  /** A row's hash is that of its own link, account, organization and event, laid out in this order. */
  lemma RowHashIs(d: Digest, row: Row)
    ensures EntryHash(d, row) ==
      d(TAG + Field(row.prev) + Field(row.account)
        + (if row.organization.Some? then [1] + Field(row.organization.value) else [0]) + Field(row.event))
  {
    hide Field;
    var e := Entry(row.prev, row.account, row.organization, row.event);
    LayoutIs(e);
    var parts := Field(e.prev) + Field(e.account) + (if e.organization.Some? then [1] + Field(e.organization.value) else [0]) + Field(e.event);
    assert Encode(e) == TAG + parts;
    assert TAG + parts == TAG + Field(e.prev) + Field(e.account)
      + (if e.organization.Some? then [1] + Field(e.organization.value) else [0]) + Field(e.event);
  }
}
