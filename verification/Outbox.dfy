/** The transactional outbox: producer inserts and the relay's claim-apply-mark pass. */
module Outbox {
  datatype RowStatus = RowPending | RowProcessed | RowDead

  datatype OutboxRow = OutboxRow(aggregateId: string, op: string, attempts: nat, status: RowStatus)

  datatype OutboxInsert = OutboxInsert(aggregateId: string, op: string)

  /** outbox_id is the index: bigserial order is insertion order. `letters` holds the relay's triage rows. */
  class Table {
    var rows: seq<OutboxRow>
    var letters: map<string, nat>

    constructor ()
      ensures rows == [] && letters == map[]
    {
      rows, letters := [], map[];
    }
  }

  // ---------------------------------------------------------------------------------------------
  // insertOutboxRows
  // ---------------------------------------------------------------------------------------------

  const OUTBOX_INSERT_CHUNK: nat := 1000

  function NewRows(inserts: seq<OutboxInsert>): seq<OutboxRow> {
    seq(|inserts|, i requires 0 <= i < |inserts| => OutboxRow(inserts[i].aggregateId, inserts[i].op, 0, RowPending))
  }

  method InsertOutboxRows(o: Table, inserts: seq<OutboxInsert>)
    modifies o`rows
    ensures o.rows == old(o.rows) + NewRows(inserts) && |o.rows| == |old(o.rows)| + |inserts|
    ensures forall i :: 0 <= i < |inserts| ==>
              o.rows[|old(o.rows)| + i] == OutboxRow(inserts[i].aggregateId, inserts[i].op, 0, RowPending)
  {
    var start := 0;
    while start < |inserts|
      invariant 0 <= start
      invariant start <= |inserts| || start < |inserts| + OUTBOX_INSERT_CHUNK
      invariant o.rows == old(o.rows) + NewRows(if start <= |inserts| then inserts[..start] else inserts)
    {
      var end := if start + OUTBOX_INSERT_CHUNK <= |inserts| then start + OUTBOX_INSERT_CHUNK else |inserts|;
      var chunk := inserts[start..end];
      assert NewRows(inserts[..start]) + NewRows(chunk) == NewRows(inserts[..end]);
      assert inserts[..|inserts|] == inserts;
      o.rows := o.rows + NewRows(chunk);
      start := start + OUTBOX_INSERT_CHUNK;
    }
    assert start <= |inserts| ==> inserts[..start] == inserts;
  }

  // ---------------------------------------------------------------------------------------------
  // Triage rows
  // ---------------------------------------------------------------------------------------------

  predicate IsHexDigit(c: char) {
    '0' <= c <= '9' || 'a' <= c <= 'f' || 'A' <= c <= 'F'
  }

  predicate FitsUuidAt(s: string, i: nat)
    requires i < |s|
  {
    if i == 8 || i == 13 || i == 18 || i == 23 then s[i] == '-' else IsHexDigit(s[i])
  }

  /** What Postgres's uuid column accepts: 8-4-4-4-12 hex digits. */
  predicate IsUuid(s: string) {
    |s| == 36 && forall i :: 0 <= i < |s| ==> FitsUuidAt(s, i)
  }

  const HEX_DIGITS: string := "0123456789abcdefABCDEF"

  lemma HexDigitsAreTheseTwentyTwo(c: char)
    ensures IsHexDigit(c) <==> c in HEX_DIGITS
  {
    assert "0123456789" <= HEX_DIGITS && HEX_DIGITS[10..16] == "abcdef" && HEX_DIGITS[16..] == "ABCDEF";
    if '0' <= c <= '9' {
      assert HEX_DIGITS[c as int - '0' as int] == c;
    } else if 'a' <= c <= 'f' {
      assert HEX_DIGITS[10 + c as int - 'a' as int] == c;
    } else if 'A' <= c <= 'F' {
      assert HEX_DIGITS[16 + c as int - 'A' as int] == c;
    }
  }

  ghost predicate IsHex(s: string, length: nat) {
    |s| == length && forall i :: 0 <= i < |s| ==> s[i] in HEX_DIGITS
  }

  /** Exactly the texts of five groups of 8, 4, 4, 4 and 12 hex digits, joined by hyphens. */
  ghost predicate FiveGroups(s: string) {
    exists a, b, c, d, e ::
      IsHex(a, 8) && IsHex(b, 4) && IsHex(c, 4) && IsHex(d, 4) && IsHex(e, 12)
      && s == a + "-" + b + "-" + c + "-" + d + "-" + e
  }

  lemma GroupsFit(s: string, a: string, b: string, c: string, d: string, e: string)
    requires IsHex(a, 8) && IsHex(b, 4) && IsHex(c, 4) && IsHex(d, 4) && IsHex(e, 12)
    requires s == a + "-" + b + "-" + c + "-" + d + "-" + e
    ensures IsUuid(s)
  {
    forall j | 0 <= j < |s|
      ensures FitsUuidAt(s, j)
    {
      HexDigitsAreTheseTwentyTwo(s[j]);
      if j < 8 { assert s[j] == a[j]; }
      else if 8 < j < 13 { assert s[j] == b[j - 9]; }
      else if 13 < j < 18 { assert s[j] == c[j - 14]; }
      else if 18 < j < 23 { assert s[j] == d[j - 19]; }
      else if 23 < j { assert s[j] == e[j - 24]; }
    }
  }

  lemma UuidsAreFiveGroups(s: string)
    ensures IsUuid(s) <==> FiveGroups(s)
  {
    if FiveGroups(s) {
      var a, b, c, d, e :|
        IsHex(a, 8) && IsHex(b, 4) && IsHex(c, 4) && IsHex(d, 4) && IsHex(e, 12)
        && s == a + "-" + b + "-" + c + "-" + d + "-" + e;
      GroupsFit(s, a, b, c, d, e);
    }
    if IsUuid(s) {
      assert FitsUuidAt(s, 8) && FitsUuidAt(s, 13) && FitsUuidAt(s, 18) && FitsUuidAt(s, 23);
      forall j | 0 <= j < 36 && j !in {8, 13, 18, 23} ensures s[j] in HEX_DIGITS {
        assert FitsUuidAt(s, j);
        HexDigitsAreTheseTwentyTwo(s[j]);
      }
      assert s == s[..8] + "-" + s[9..13] + "-" + s[14..18] + "-" + s[19..23] + "-" + s[24..];
      assert IsHex(s[..8], 8) && IsHex(s[9..13], 4) && IsHex(s[14..18], 4) && IsHex(s[19..23], 4) && IsHex(s[24..], 12);
    }
  }

  /** A non-uuid aggregate gets no triage row; a replayed park keeps the first one. */
  function WriteOutboxDeadLetter(letters: map<string, nat>, aggregateId: string, attempts: nat): map<string, nat> {
    if !IsUuid(aggregateId) || aggregateId in letters then letters else letters[aggregateId := attempts]
  }

  // ---------------------------------------------------------------------------------------------
  // relayOutboxBatch
  // ---------------------------------------------------------------------------------------------

  predicate Claimable(rows: seq<OutboxRow>, locked: set<nat>, i: nat) {
    i < |rows| && rows[i].status == RowPending && i !in locked
  }

  /** SELECT ... Pending ORDER BY outbox_id FOR UPDATE SKIP LOCKED LIMIT n, over the first `bound` rows. */
  function ClaimedBelow(rows: seq<OutboxRow>, locked: set<nat>, limit: nat, bound: nat): seq<nat> {
    if bound == 0 then []
    else
      var earlier := ClaimedBelow(rows, locked, limit, bound - 1);
      if |earlier| < limit && Claimable(rows, locked, bound - 1) then earlier + [bound - 1] else earlier
  }

  function Claimed(rows: seq<OutboxRow>, locked: set<nat>, limit: nat): seq<nat> {
    ClaimedBelow(rows, locked, limit, |rows|)
  }

  /** One claimed row's mark: processed, one more attempt, or parked. */
  function Marked(row: OutboxRow, applied: bool, maxAttempts: nat): OutboxRow {
    if applied then row.(status := RowProcessed)
    else if row.attempts + 1 >= maxAttempts then row.(attempts := row.attempts + 1, status := RowDead)
    else row.(attempts := row.attempts + 1)
  }

  function MarkedRows(rows: seq<OutboxRow>, claimed: seq<nat>, applied: nat -> bool, maxAttempts: nat): seq<OutboxRow> {
    seq(|rows|, i requires 0 <= i < |rows| =>
          if i in claimed then Marked(rows[i], applied(i), maxAttempts) else rows[i])
  }

  predicate InRange(claimed: seq<nat>, bound: nat) {
    forall x :: 0 <= x < |claimed| ==> claimed[x] < bound
  }

  datatype RelayReport = RelayReport(claimed: nat, processed: nat, failed: nat, parked: nat)

  /** The claimed rows whose mark came out as `status`. */
  function WithOutcome(
    rows: seq<OutboxRow>, claimed: seq<nat>, applied: nat -> bool, maxAttempts: nat, status: RowStatus)
    : set<nat>
    requires InRange(claimed, |rows|)
  {
    set i | i in claimed && Marked(rows[i], applied(i), maxAttempts).status == status
  }

  lemma {:induction false} ClaimedIsInOrder(rows: seq<OutboxRow>, locked: set<nat>, limit: nat, bound: nat)
    requires bound <= |rows|
    ensures var c := ClaimedBelow(rows, locked, limit, bound);
            && |c| <= limit
            && InRange(c, bound)
            && (forall x :: 0 <= x < |c| ==> Claimable(rows, locked, c[x]))
            && (forall x, y :: 0 <= x < y < |c| ==> c[x] < c[y])
            && (|c| < limit ==> forall i: nat | i < bound && Claimable(rows, locked, i) :: i in c)
            && (forall i: nat, j | i < bound && Claimable(rows, locked, i) && j in c && i < j :: i in c)
  {
    if bound > 0 {
      ClaimedIsInOrder(rows, locked, limit, bound - 1);
    }
  }

  datatype Relay = Relay(rows: seq<OutboxRow>, letters: map<string, nat>, report: RelayReport)

  /** One claimed row handled: its mark, its triage row if it parks, its counter. */
  function HandleRow(r: Relay, i: nat, applied: bool, maxAttempts: nat): Relay {
    if i >= |r.rows| then r
    else
      var row := Marked(r.rows[i], applied, maxAttempts);
      var n := r.report;
      Relay(r.rows[i := row],
          if row.status == RowDead then WriteOutboxDeadLetter(r.letters, row.aggregateId, row.attempts) else r.letters,
          match row.status
          case RowProcessed => n.(claimed := n.claimed + 1, processed := n.processed + 1)
          case RowPending => n.(claimed := n.claimed + 1, failed := n.failed + 1)
          case RowDead => n.(claimed := n.claimed + 1, parked := n.parked + 1))
  }

  /** The pass after handling `claimed` in order. */
  function HandleRows(
    rows: seq<OutboxRow>, letters: map<string, nat>, claimed: seq<nat>, applied: nat -> bool, maxAttempts: nat)
    : Relay
  {
    if claimed == [] then Relay(rows, letters, RelayReport(0, 0, 0, 0))
    else
      var i := claimed[|claimed| - 1];
      HandleRow(HandleRows(rows, letters, claimed[..|claimed| - 1], applied, maxAttempts), i, applied(i), maxAttempts)
  }

  /** apply's isolated try/catch for one claimed row, and the mark it ends in. */
  method HandleClaimedRow(
    o: Table, i: nat, applied: bool, maxAttempts: nat, report: RelayReport)
    returns (counted: RelayReport)
    requires i < |o.rows| && o.rows[i].status == RowPending
    modifies o
    ensures Relay(o.rows, o.letters, counted)
            == HandleRow(Relay(old(o.rows), old(o.letters), report), i, applied, maxAttempts)
  {
    counted := report.(claimed := report.claimed + 1);
    var row := o.rows[i];
    if applied {
      o.rows := o.rows[i := row.(status := RowProcessed)];
      return counted.(processed := report.processed + 1);
    }
    var newAttempts := row.attempts + 1;
    if newAttempts >= maxAttempts {
      o.rows := o.rows[i := row.(attempts := newAttempts, status := RowDead)];
      o.letters := WriteOutboxDeadLetter(o.letters, row.aggregateId, newAttempts);
      return counted.(parked := report.parked + 1);
    }
    o.rows := o.rows[i := row.(attempts := newAttempts)];
    return counted.(failed := report.failed + 1);
  }

  lemma HandleRowsSnoc(
    rows: seq<OutboxRow>, letters: map<string, nat>, claimed: seq<nat>, k: nat, applied: nat -> bool, maxAttempts: nat)
    requires k < |claimed|
    ensures HandleRows(rows, letters, claimed[..k + 1], applied, maxAttempts)
         == HandleRow(HandleRows(rows, letters, claimed[..k], applied, maxAttempts), claimed[k], applied(claimed[k]),
           maxAttempts)
  {
    assert claimed[..k + 1][..k] == claimed[..k];
  }

  /** One pass in one transaction. `applied(i)` is whether apply succeeded for row i; nothing it does reaches its
    * siblings. */
  method RelayOutboxBatch(o: Table, locked: set<nat>, batchSize: nat, maxAttempts: nat, applied: nat -> bool)
    returns (report: RelayReport)
    modifies o
    ensures Relay(o.rows, o.letters, report)
         == HandleRows(old(o.rows), old(o.letters), Claimed(old(o.rows), locked, batchSize), applied, maxAttempts)
  {
    ClaimedIsInOrder(o.rows, locked, batchSize, |o.rows|);
    var claimed := Claimed(o.rows, locked, batchSize);
    report := RelayReport(0, 0, 0, 0);
    for k := 0 to |claimed|
      invariant |o.rows| == |old(o.rows)| && PendingFrom(o.rows, claimed, k)
      invariant Relay(o.rows, o.letters, report)
                == HandleRows(old(o.rows), old(o.letters), claimed[..k], applied, maxAttempts)
    {
      HandleRowsSnoc(old(o.rows), old(o.letters), claimed, k, applied, maxAttempts);
      report := HandleClaimedRow(o, claimed[k], applied(claimed[k]), maxAttempts, report);
    }
    assert claimed[..|claimed|] == claimed;
  }

  ghost predicate PendingFrom(rows: seq<OutboxRow>, claimed: seq<nat>, k: nat) {
    forall x :: k <= x < |claimed| ==> claimed[x] < |rows| && rows[claimed[x]].status == RowPending
  }

  ghost predicate Increasing(claimed: seq<nat>) {
    forall x, y :: 0 <= x < y < |claimed| ==> claimed[x] < claimed[y]
  }

  /** A pass marks each claimed row by its own outcome, leaves the rest alone, and its counters count the outcomes. */
  lemma {:induction false} PassMarksEachRowOnItsOwn(
    rows: seq<OutboxRow>, letters: map<string, nat>, claimed: seq<nat>, applied: nat -> bool, maxAttempts: nat)
    requires InRange(claimed, |rows|) && Increasing(claimed) && PendingFrom(rows, claimed, 0)
    ensures var r := HandleRows(rows, letters, claimed, applied, maxAttempts);
            && r.rows == MarkedRows(rows, claimed, applied, maxAttempts)
            && r.report.claimed == |claimed| == r.report.processed + r.report.failed + r.report.parked
            && r.report.processed == |WithOutcome(rows, claimed, applied, maxAttempts, RowProcessed)|
            && r.report.failed == |WithOutcome(rows, claimed, applied, maxAttempts, RowPending)|
            && r.report.parked == |WithOutcome(rows, claimed, applied, maxAttempts, RowDead)|
  {
    if claimed != [] {
      var front, i := claimed[..|claimed| - 1], claimed[|claimed| - 1];
      assert claimed == front + [i];
      assert i !in front;
      PassMarksEachRowOnItsOwn(rows, letters, front, applied, maxAttempts);
      MarkedGrows(rows, front, i, applied, maxAttempts);
      OutcomeGrows(rows, front, i, applied, maxAttempts, RowProcessed);
      OutcomeGrows(rows, front, i, applied, maxAttempts, RowPending);
      OutcomeGrows(rows, front, i, applied, maxAttempts, RowDead);
    }
  }

  /** In full: a row whose apply succeeded is processed and keeps its attempts; one whose apply failed has one attempt
    * more, and is dead if that reaches the ceiling; a row that was not claimed is as it was. */
  lemma EveryRowEndsByItsOwnApply(
    rows: seq<OutboxRow>, letters: map<string, nat>, claimed: seq<nat>, applied: nat -> bool, maxAttempts: nat, i: nat)
    requires InRange(claimed, |rows|) && Increasing(claimed) && PendingFrom(rows, claimed, 0) && i < |rows|
    ensures var row, after := rows[i], HandleRows(rows, letters, claimed, applied, maxAttempts).rows;
            && |after| == |rows|
            && var used := row.attempts + 1;
               after[i] == if i !in claimed then row
                           else if applied(i) then OutboxRow(row.aggregateId, row.op, row.attempts, RowProcessed)
                           else if used < maxAttempts then OutboxRow(row.aggregateId, row.op, used, RowPending)
                           else OutboxRow(row.aggregateId, row.op, used, RowDead)
  {
    PassMarksEachRowOnItsOwn(rows, letters, claimed, applied, maxAttempts);
    if i in claimed {
      var x :| 0 <= x < |claimed| && claimed[x] == i;
      assert rows[i].status == RowPending;
    }
  }

  lemma MarkedGrows(rows: seq<OutboxRow>, front: seq<nat>, i: nat, applied: nat -> bool, maxAttempts: nat)
    requires i < |rows| && i !in front
    ensures var before := MarkedRows(rows, front, applied, maxAttempts);
            && before[i] == rows[i]
            && MarkedRows(rows, front + [i], applied, maxAttempts)
               == before[i := Marked(rows[i], applied(i), maxAttempts)]
  {
  }

  lemma OutcomeGrows(
    rows: seq<OutboxRow>, front: seq<nat>, i: nat, applied: nat -> bool, maxAttempts: nat, s: RowStatus)
    requires InRange(front, |rows|) && i < |rows| && i !in front
    requires InRange(front + [i], |rows|)
    ensures |WithOutcome(rows, front + [i], applied, maxAttempts, s)|
         == |WithOutcome(rows, front, applied, maxAttempts, s)|
            + (if Marked(rows[i], applied(i), maxAttempts).status == s then 1 else 0)
  {
    var before := WithOutcome(rows, front, applied, maxAttempts, s);
    assert i !in before;
    assert WithOutcome(rows, front + [i], applied, maxAttempts, s)
        == if Marked(rows[i], applied(i), maxAttempts).status == s then before + {i} else before;
  }

  // ---------------------------------------------------------------------------------------------
  // What every pass keeps, and the drain
  // ---------------------------------------------------------------------------------------------

  /** Pending rows have attempts left, dead rows used exactly the ceiling, and every parked uuid aggregate is in
    * triage. */
  ghost predicate Sound(rows: seq<OutboxRow>, letters: map<string, nat>, maxAttempts: nat) {
    forall row <- rows ::
      && (row.status == RowPending ==> row.attempts < maxAttempts)
      && (row.status == RowDead
         ==> row.attempts == maxAttempts && (IsUuid(row.aggregateId) ==> row.aggregateId in letters))
  }

  lemma InsertsKeepSound(rows: seq<OutboxRow>, letters: map<string, nat>, maxAttempts: nat, inserts: seq<OutboxInsert>)
    requires Sound(rows, letters, maxAttempts) && maxAttempts >= 1
    ensures Sound(rows + NewRows(inserts), letters, maxAttempts)
  {
  }

  lemma {:induction false} HandlingKeepsSound(
    rows: seq<OutboxRow>, letters: map<string, nat>, claimed: seq<nat>, applied: nat -> bool, maxAttempts: nat)
    requires InRange(claimed, |rows|) && Increasing(claimed) && PendingFrom(rows, claimed, 0)
    requires Sound(rows, letters, maxAttempts)
    ensures var r := HandleRows(rows, letters, claimed, applied, maxAttempts);
            && Sound(r.rows, r.letters, maxAttempts)
            && letters.Keys <= r.letters.Keys && (forall a <- letters :: r.letters[a] == letters[a])
  {
    if claimed != [] {
      var front, i := claimed[..|claimed| - 1], claimed[|claimed| - 1];
      assert claimed == front + [i];
      assert i !in front;
      HandlingKeepsSound(rows, letters, front, applied, maxAttempts);
      PassMarksEachRowOnItsOwn(rows, letters, front, applied, maxAttempts);
      MarkedGrows(rows, front, i, applied, maxAttempts);
      HandlingOneKeepsSound(HandleRows(rows, letters, front, applied, maxAttempts), i, applied(i), maxAttempts);
    }
  }

  lemma HandlingOneKeepsSound(r: Relay, i: nat, applied: bool, maxAttempts: nat)
    requires Sound(r.rows, r.letters, maxAttempts) && i < |r.rows| && r.rows[i].status == RowPending
    ensures var r' := HandleRow(r, i, applied, maxAttempts);
            && Sound(r'.rows, r'.letters, maxAttempts)
            && r.letters.Keys <= r'.letters.Keys && (forall a <- r.letters :: r'.letters[a] == r.letters[a])
  {
    assert r.rows[i] in r.rows;
  }

  ghost predicate Parks(
    rows: seq<OutboxRow>, claimed: seq<nat>, applied: nat -> bool, maxAttempts: nat, i: nat, aggregateId: string)
  {
    && i in claimed && i < |rows| && !applied(i) && rows[i].attempts + 1 >= maxAttempts
    && rows[i].aggregateId == aggregateId && IsUuid(aggregateId)
  }

  ghost predicate ParksAny(
    rows: seq<OutboxRow>, claimed: seq<nat>, applied: nat -> bool, maxAttempts: nat, aggregateId: string)
  {
    exists i :: Parks(rows, claimed, applied, maxAttempts, i, aggregateId)
  }

  lemma ParksAnyStep(
    rows: seq<OutboxRow>, front: seq<nat>, i: nat, applied: nat -> bool, maxAttempts: nat, a: string)
    ensures ParksAny(rows, front + [i], applied, maxAttempts, a)
            <==> ParksAny(rows, front, applied, maxAttempts, a) || Parks(rows, front + [i], applied, maxAttempts, i, a)
  {
    forall x
      ensures Parks(rows, front + [i], applied, maxAttempts, x, a)
              <==> Parks(rows, front, applied, maxAttempts, x, a)
                   || (x == i && Parks(rows, front + [i], applied, maxAttempts, i, a))
    {
    }
  }

  lemma OneRowInTriage(r: Relay, i: nat, applied: bool, maxAttempts: nat, a: string)
    requires i < |r.rows| && r.rows[i].status == RowPending
    ensures var r', row := HandleRow(r, i, applied, maxAttempts), r.rows[i];
            && (a in r'.letters <==>
                a in r.letters
                || (!applied && row.attempts + 1 >= maxAttempts && row.aggregateId == a && IsUuid(a)))
            && (a in r'.letters && a !in r.letters ==> r'.letters[a] == row.attempts + 1)
            && (a in r.letters ==> r'.letters[a] == r.letters[a])
  {
  }

  /** A pass adds a triage row for exactly the uuid aggregates of the rows it parks, recording the ceiling. */
  lemma {:induction false} TriageIsExactlyWhatIsParked(
    rows: seq<OutboxRow>, letters: map<string, nat>, claimed: seq<nat>, applied: nat -> bool, maxAttempts: nat,
    a: string)
    requires InRange(claimed, |rows|) && Increasing(claimed) && PendingFrom(rows, claimed, 0)
    requires Sound(rows, letters, maxAttempts)
    ensures var r := HandleRows(rows, letters, claimed, applied, maxAttempts);
            && (a in r.letters <==> a in letters || ParksAny(rows, claimed, applied, maxAttempts, a))
            && (a in r.letters && a !in letters ==> r.letters[a] == maxAttempts)
  {
    if claimed != [] {
      var front, i := claimed[..|claimed| - 1], claimed[|claimed| - 1];
      assert claimed == front + [i];
      assert i !in front && rows[i] in rows;
      TriageIsExactlyWhatIsParked(rows, letters, front, applied, maxAttempts, a);
      PassMarksEachRowOnItsOwn(rows, letters, front, applied, maxAttempts);
      MarkedGrows(rows, front, i, applied, maxAttempts);
      ParksAnyStep(rows, front, i, applied, maxAttempts, a);
      OneRowInTriage(HandleRows(rows, letters, front, applied, maxAttempts), i, applied(i), maxAttempts, a);
    }
  }

  /** Every committed pass keeps the table sound, for any apply behaviour and any rows other passes hold. */
  lemma PassKeepsSound(
    rows: seq<OutboxRow>, letters: map<string, nat>, maxAttempts: nat, locked: set<nat>, batchSize: nat,
    applied: nat -> bool)
    requires Sound(rows, letters, maxAttempts)
    ensures var claimed := Claimed(rows, locked, batchSize);
            && InRange(claimed, |rows|)
            && var r := HandleRows(rows, letters, claimed, applied, maxAttempts);
            && Sound(r.rows, r.letters, maxAttempts)
            && letters.Keys <= r.letters.Keys && (forall a <- letters :: r.letters[a] == letters[a])
  {
    ClaimedIsInOrder(rows, locked, batchSize, |rows|);
    HandlingKeepsSound(rows, letters, Claimed(rows, locked, batchSize), applied, maxAttempts);
  }

  /** The applications a row may still consume. */
  function Owing(row: OutboxRow, maxAttempts: nat): nat {
    if row.status == RowPending && row.attempts < maxAttempts then maxAttempts - row.attempts else 0
  }

  function Backlog(rows: seq<OutboxRow>, maxAttempts: nat): nat {
    if rows == [] then 0 else Backlog(rows[..|rows| - 1], maxAttempts) + Owing(rows[|rows| - 1], maxAttempts)
  }

  ghost function ClaimedUpTo(claimed: seq<nat>, n: nat): set<nat> {
    set i | i in claimed && i < n
  }

  /** Every claimed row spends at least one unit of the backlog, whatever apply does. */
  lemma {:induction false} PassLowersBacklog(
    rows: seq<OutboxRow>, letters: map<string, nat>, maxAttempts: nat, claimed: seq<nat>, applied: nat -> bool, n: nat)
    requires Sound(rows, letters, maxAttempts) && n <= |rows|
    requires InRange(claimed, |rows|) && forall i <- claimed :: rows[i].status == RowPending
    ensures Backlog(MarkedRows(rows, claimed, applied, maxAttempts)[..n], maxAttempts) + |ClaimedUpTo(claimed, n)|
         <= Backlog(rows[..n], maxAttempts)
  {
    var after := MarkedRows(rows, claimed, applied, maxAttempts);
    if n == 0 {
      assert ClaimedUpTo(claimed, 0) == {};
    } else {
      PassLowersBacklog(rows, letters, maxAttempts, claimed, applied, n - 1);
      BacklogStep(rows, maxAttempts, n);
      BacklogStep(after, maxAttempts, n);
      ClaimedUpToStep(claimed, n);
      assert rows[n - 1] in rows;
    }
  }

  lemma BacklogStep(rows: seq<OutboxRow>, maxAttempts: nat, n: nat)
    requires 0 < n <= |rows|
    ensures Backlog(rows[..n], maxAttempts) == Backlog(rows[..n - 1], maxAttempts) + Owing(rows[n - 1], maxAttempts)
  {
    assert rows[..n][..n - 1] == rows[..n - 1];
  }

  lemma ClaimedUpToStep(claimed: seq<nat>, n: nat)
    requires n > 0
    ensures |ClaimedUpTo(claimed, n)| == |ClaimedUpTo(claimed, n - 1)| + if n - 1 in claimed then 1 else 0
  {
    assert ClaimedUpTo(claimed, n) == ClaimedUpTo(claimed, n - 1) + if n - 1 in claimed then {n - 1} else {};
  }

  datatype Tables = Tables(rows: seq<OutboxRow>, letters: map<string, nat>)

  /** One undisturbed pass. */
  ghost function Pass(t: Tables, batchSize: nat, maxAttempts: nat, applied: nat -> bool): Tables {
    var claimed := Claimed(t.rows, {}, batchSize);
    if InRange(claimed, |t.rows|) then
      var r := HandleRows(t.rows, t.letters, claimed, applied, maxAttempts);
      Tables(r.rows, r.letters)
    else t
  }

  ghost predicate NothingPending(rows: seq<OutboxRow>) {
    forall row <- rows :: row.status != RowPending
  }

  lemma {:induction false} EmptyBacklogMeansNothingPending(
    rows: seq<OutboxRow>, letters: map<string, nat>, maxAttempts: nat)
    requires Sound(rows, letters, maxAttempts) && Backlog(rows, maxAttempts) == 0
    ensures NothingPending(rows)
  {
    if rows != [] {
      var front, last := rows[..|rows| - 1], rows[|rows| - 1];
      assert rows == front + [last] && last in rows;
      EmptyBacklogMeansNothingPending(front, letters, maxAttempts);
    }
  }

  /** A pass finds nothing to claim only when nothing is pending; otherwise it spends part of the backlog. */
  lemma PassSpends(t: Tables, batchSize: nat, maxAttempts: nat, applied: nat -> bool)
    requires Sound(t.rows, t.letters, maxAttempts) && batchSize >= 1
    ensures var after := Pass(t, batchSize, maxAttempts, applied);
            && Sound(after.rows, after.letters, maxAttempts)
            && Backlog(after.rows, maxAttempts) + |Claimed(t.rows, {}, batchSize)| <= Backlog(t.rows, maxAttempts)
            && (NothingPending(t.rows) || |Claimed(t.rows, {}, batchSize)| >= 1)
            && (NothingPending(t.rows) ==> after == t)
  {
    var claimed := Claimed(t.rows, {}, batchSize);
    ClaimedIsInOrder(t.rows, {}, batchSize, |t.rows|);
    PassKeepsSound(t.rows, t.letters, maxAttempts, {}, batchSize, applied);
    PassMarksEachRowOnItsOwn(t.rows, t.letters, claimed, applied, maxAttempts);
    var after := Pass(t, batchSize, maxAttempts, applied);
    assert t.rows[..|t.rows|] == t.rows && after.rows[..|t.rows|] == after.rows;
    PassLowersBacklog(t.rows, t.letters, maxAttempts, claimed, applied, |t.rows|);
    DistinctCount(claimed, |t.rows|);
    if claimed == [] {
      forall row <- t.rows ensures row.status != RowPending {
        var i :| 0 <= i < |t.rows| && t.rows[i] == row;
        assert !Claimable(t.rows, {}, i);
      }
    } else {
      assert t.rows[claimed[0]] in t.rows;
    }
  }

  lemma {:induction false} DistinctCount(claimed: seq<nat>, n: nat)
    requires InRange(claimed, n) && Increasing(claimed)
    ensures |ClaimedUpTo(claimed, n)| == |claimed|
  {
    if claimed == [] {
      assert ClaimedUpTo(claimed, n) == {};
    } else {
      var front, i := claimed[..|claimed| - 1], claimed[|claimed| - 1];
      assert claimed == front + [i];
      DistinctCount(front, n);
      assert ClaimedUpTo(claimed, n) == ClaimedUpTo(front, n) + {i};
    }
  }

  /** The tables after `passes` undisturbed passes; `applied(k)` is pass k's apply behaviour. */
  ghost function Drained(
    t: Tables, batchSize: nat, maxAttempts: nat, applied: nat -> (nat -> bool), passes: nat): Tables {
    if passes == 0 then t
    else Pass(Drained(t, batchSize, maxAttempts, applied, passes - 1), batchSize, maxAttempts, applied(passes - 1))
  }

  /** A finite backlog drains: whatever apply does, each pass with work left spends at least one of the owed
    * applications, so after `Backlog` passes nothing is pending. */
  lemma {:induction false} BacklogDrains(
    t: Tables, batchSize: nat, maxAttempts: nat, applied: nat -> (nat -> bool), passes: nat)
    requires Sound(t.rows, t.letters, maxAttempts) && batchSize >= 1
    ensures var after := Drained(t, batchSize, maxAttempts, applied, passes);
            && Sound(after.rows, after.letters, maxAttempts)
            && (NothingPending(after.rows) || Backlog(after.rows, maxAttempts) + passes <= Backlog(t.rows, maxAttempts))
            && (passes >= Backlog(t.rows, maxAttempts) ==> NothingPending(after.rows))
  {
    if passes > 0 {
      BacklogDrains(t, batchSize, maxAttempts, applied, passes - 1);
      var before := Drained(t, batchSize, maxAttempts, applied, passes - 1);
      PassSpends(before, batchSize, maxAttempts, applied(passes - 1));
    }
    var after := Drained(t, batchSize, maxAttempts, applied, passes);
    if Backlog(after.rows, maxAttempts) == 0 {
      EmptyBacklogMeansNothingPending(after.rows, after.letters, maxAttempts);
    }
  }
}
