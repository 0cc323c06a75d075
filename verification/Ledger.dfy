/** What an importer still owes: rows claimed under a lease, tried a bounded number of times, and brought
    up to date by scans (crates/ac-import/src/ledger.rs). */
module Ledgers {
  import opened Base

  const FETCH_RETRY_DELAY := 3600
  const MAX_FETCH_ATTEMPTS := 3
  const I64_MIN := -0x8000_0000_0000_0000

  type I64 = n: int | I64_MIN <= n < 0x8000_0000_0000_0000

  /** A source directory, and a reference within it. */
  type Key = (string, string)

  datatype Item = Item(reference: string, folder: string, name: string, size: Option<nat>, checksum: Option<string>)

  datatype Row = Row(folder: string, name: string, size: Option<nat>, checksum: Option<string>,
                     hash: Option<string>, triedAt: I64, fails: nat)
  {
    function ItemOf(key: Key): Item {
      Item(key.1, folder, name, size, checksum)
    }

    predicate Exhausted() {
      fails >= MAX_FETCH_ATTEMPTS
    }

    /** Owed, with attempts left, and not leased at `at`. */
    predicate Claimable(at: I64) {
      hash.None? && !Exhausted() && triedAt < LeaseCutoff(at)
    }
  }

  type Rows = map<Key, Row>

  /** The latest time of trying at which a lease has run out by `at`; the subtraction saturates. */
  function LeaseCutoff(at: I64): I64 {
    if at - FETCH_RETRY_DELAY < I64_MIN then I64_MIN else at - FETCH_RETRY_DELAY
  }

  /** What a scan read of a row, perhaps a while ago. */
  datatype Known = Known(stored: Item, fails: nat, settled: bool) {
    function Refreshed(item: Item): Item {
      Item(stored.reference, item.folder, item.name,
           if item.size.Some? then item.size else stored.size,
           if item.checksum.Some? then item.checksum else stored.checksum)
    }

    predicate PromiseChanged(item: Item) {
      Refreshed(item).size != stored.size || Refreshed(item).checksum != stored.checksum
    }

    predicate Exhausted() {
      fails >= MAX_FETCH_ATTEMPTS
    }

    predicate Resets(item: Item) {
      Exhausted() || PromiseChanged(item)
    }

    predicate Writes(item: Item) {
      !settled && (Resets(item) || Refreshed(item) != stored)
    }
  }

  function KnownOf(key: Key, row: Row): Known {
    Known(row.ItemOf(key), row.fails, row.hash.Some?)
  }

  // ---- the operations, as functions of the rows ----

  datatype Op =
    | Owe(dir: string, item: Item)
    | Refresh(dir: string, known: Known, item: Item, at: I64)
    | Claim(at: I64, limit: nat, taken: seq<Key>)
    | GiveBack(key: Key)
    | Settle(key: Key, hash: string)
    | RetireGone(dir: string)
    | Forget(key: Key)

  function Fresh(item: Item): Row {
    Row(item.folder, item.name, item.size, item.checksum, None, 0, 0)
  }

  function RefreshedRow(row: Row, next: Item, reset: bool, at: I64): Row {
    Row(next.folder, next.name, next.size, next.checksum, row.hash,
        if reset && row.triedAt < LeaseCutoff(at) then 0 else row.triedAt,
        if reset then 0 else row.fails)
  }

  function Tried(row: Row, at: I64): Row {
    row.(triedAt := at, fails := row.fails + 1)
  }

  predicate Owed(rows: Rows, key: Key) {
    key in rows && rows[key].hash.None?
  }

  predicate Retires(dir: string, key: Key, row: Row) {
    key.0 == dir && row.hash.None? && row.Exhausted()
  }

  function ClaimedRows(rows: Rows, at: I64, taken: seq<Key>): Rows {
    map key | key in rows :: if key in taken then Tried(rows[key], at) else rows[key]
  }

  function Do(rows: Rows, op: Op): Rows {
    match op
    case Owe(dir, item) =>
      if (dir, item.reference) in rows then rows else rows[(dir, item.reference) := Fresh(item)]
    case Refresh(dir, known, item, at) =>
      var key := (dir, known.stored.reference);
      if known.Writes(item) && Owed(rows, key)
      then rows[key := RefreshedRow(rows[key], known.Refreshed(item), known.Resets(item), at)] else rows
    case Claim(at, _, taken) => ClaimedRows(rows, at, taken)
    case GiveBack(key) => if Owed(rows, key) then rows[key := rows[key].(fails := 0, triedAt := 0)] else rows
    case Settle(key, hash) => if key in rows then rows[key := rows[key].(hash := Some(hash))] else rows
    case RetireGone(dir) => map key | key in rows && !Retires(dir, key, rows[key]) :: rows[key]
    case Forget(key) => if Owed(rows, key) then rows - {key} else rows
  }

  ghost predicate Distinct(keys: seq<Key>) {
    forall i, j :: 0 <= i < j < |keys| ==> keys[i] != keys[j]
  }

  function ClaimableKeys(rows: Rows, at: I64): set<Key> {
    set key | key in rows && rows[key].Claimable(at)
  }

  /** The rows one claim may take: claimable ones, longest untried first, as many as asked for. */
  ghost predicate IsClaim(rows: Rows, at: I64, limit: nat, taken: seq<Key>) {
    && Distinct(taken)
    && (forall i :: 0 <= i < |taken| ==> taken[i] in ClaimableKeys(rows, at))
    && (forall i, j :: 0 <= i < j < |taken| ==> rows[taken[i]].triedAt <= rows[taken[j]].triedAt)
    && |taken| == (if limit <= |ClaimableKeys(rows, at)| then limit else |ClaimableKeys(rows, at)|)
    && (forall key, i :: key in ClaimableKeys(rows, at) && key !in taken && 0 <= i < |taken| ==>
          rows[taken[i]].triedAt <= rows[key].triedAt)
  }

  // ---- the running code ----

  class Ledger {
    var rows: Rows

    constructor ()
      ensures rows == map[]
    {
      rows := map[];
    }

    method OweItem(dir: string, item: Item)
      modifies this
      ensures rows == Do(old(rows), Owe(dir, item))
    {
      if (dir, item.reference) !in rows {
        rows := rows[(dir, item.reference) := Fresh(item)];
      }
    }

    /** A row still owed takes on what a scan found; the answer is whether anything changed. */
    method RefreshItem(dir: string, known: Known, item: Item, at: I64) returns (written: bool)
      modifies this
      ensures rows == Do(old(rows), Refresh(dir, known, item, at))
      ensures written <==> known.Writes(item) && Owed(old(rows), (dir, known.stored.reference))
    {
      var next := known.Refreshed(item);
      var reset := known.Exhausted() || known.PromiseChanged(item);
      if known.settled || (!reset && next == known.stored) {
        return false;
      }
      var key := (dir, next.reference);
      if key !in rows || rows[key].hash.Some? {
        return false;
      }
      var row := rows[key];
      rows := rows[key := Row(next.folder, next.name, next.size, next.checksum, None,
                              if reset && row.triedAt < LeaseCutoff(at) then 0 else row.triedAt,
                              if reset then 0 else row.fails)];
      return true;
    }

    /** The claimed rows are the `limit` that have gone untried longest; each now has one more failure on it
        and a lease from `at`. */
    method ClaimUpTo(at: I64, limit: nat) returns (taken: seq<Key>)
      modifies this
      ensures IsClaim(old(rows), at, limit, taken)
      ensures rows == Do(old(rows), Claim(at, limit, taken))
    {
      taken := Select(at, limit);
      var was := rows;
      for i := 0 to |taken|
        invariant rows.Keys == was.Keys
        invariant forall key :: key in was ==>
                    rows[key] == if key in taken[..i] then Tried(was[key], at) else was[key]
      {
        var key := taken[i];
        assert key in ClaimableKeys(was, at);
        assert key !in taken[..i];
        assert taken[..i + 1] == taken[..i] + [key];
        rows := rows[key := rows[key].(triedAt := at, fails := rows[key].fails + 1)];
      }
      assert taken[..|taken|] == taken;
    }

    /** The claimable rows, longest untried first. */
    method Select(at: I64, limit: nat) returns (taken: seq<Key>)
      ensures IsClaim(rows, at, limit, taken)
    {
      taken := [];
      var all := ClaimableKeys(rows, at);
      var left := all;
      while |taken| < limit && left != {}
        invariant left <= all && |taken| + |left| == |all|
        invariant forall key :: key in taken <==> key in all && key !in left
        invariant |taken| <= limit && Distinct(taken)
        invariant forall i :: 0 <= i < |taken| ==> taken[i] in all
        invariant forall i, j :: 0 <= i < j < |taken| ==> rows[taken[i]].triedAt <= rows[taken[j]].triedAt
        invariant forall key, i :: key in left && 0 <= i < |taken| ==> rows[taken[i]].triedAt <= rows[key].triedAt
        decreases |left|
      {
        var key := Stalest(left);
        taken := taken + [key];
        left := left - {key};
      }
    }

    method Stalest(keys: set<Key>) returns (stalest: Key)
      requires keys != {} && keys <= rows.Keys
      ensures stalest in keys && forall key :: key in keys ==> rows[stalest].triedAt <= rows[key].triedAt
    {
      stalest :| stalest in keys;
      var left := keys - {stalest};
      while left != {}
        invariant left <= keys && stalest in keys
        invariant forall key :: key in keys && key !in left ==> rows[stalest].triedAt <= rows[key].triedAt
        decreases |left|
      {
        var key :| key in left;
        left := left - {key};
        if rows[key].triedAt < rows[stalest].triedAt {
          stalest := key;
        }
      }
    }

    method GiveItBack(key: Key) returns (reset: bool)
      modifies this
      ensures rows == Do(old(rows), GiveBack(key)) && (reset <==> Owed(old(rows), key))
    {
      reset := key in rows && rows[key].hash.None?;
      if reset {
        rows := rows[key := rows[key].(fails := 0, triedAt := 0)];
      }
    }

    method SettleItem(key: Key, hash: string)
      modifies this
      ensures rows == Do(old(rows), Settle(key, hash))
    {
      if key in rows {
        rows := rows[key := rows[key].(hash := Some(hash))];
      }
    }

    method Retire(dir: string) returns (gone: nat)
      modifies this
      ensures rows == Do(old(rows), RetireGone(dir)) && gone == |old(rows)| - |rows|
    {
      var was := rows;
      var out := set key | key in was && Retires(dir, key, was[key]);
      rows := map key | key in was && !Retires(dir, key, was[key]) :: was[key];
      assert was.Keys == rows.Keys + out;
      gone := |out|;
    }

    method ForgetItem(key: Key) returns (gone: bool)
      modifies this
      ensures rows == Do(old(rows), Forget(key)) && (gone <==> Owed(old(rows), key))
    {
      gone := key in rows && rows[key].hash.None?;
      if gone {
        rows := rows - {key};
      }
    }
  }

  // ---- every run ----

  function DoAll(rows: Rows, ops: seq<Op>): Rows
    decreases |ops|
  {
    if ops == [] then rows else DoAll(Do(rows, ops[0]), ops[1..])
  }

  /** Every claim of the run takes what a claim may take. */
  ghost predicate Runs(rows: Rows, ops: seq<Op>)
    decreases |ops|
  {
    ops == []
    || (&& (ops[0].Claim? ==> IsClaim(rows, ops[0].at, ops[0].limit, ops[0].taken))
        && Runs(Do(rows, ops[0]), ops[1..]))
  }

  ghost predicate InRange(rows: Rows) {
    forall key :: key in rows ==> rows[key].fails <= MAX_FETCH_ATTEMPTS
  }

  lemma OpKeepsRange(rows: Rows, op: Op)
    requires InRange(rows) && Runs(rows, [op])
    ensures InRange(Do(rows, op))
  {
    if op.Claim? {
      assert forall key :: key in op.taken ==> key in ClaimableKeys(rows, op.at);
    }
  }

  /** Attempts stay within the bound. */
  lemma {:induction false} AttemptsStayInRange(rows: Rows, ops: seq<Op>)
    requires InRange(rows) && Runs(rows, ops)
    ensures InRange(DoAll(rows, ops))
    decreases |ops|
  {
    if ops != [] {
      assert [ops[0]][1..] == [];
      OpKeepsRange(rows, ops[0]);
      AttemptsStayInRange(Do(rows, ops[0]), ops[1..]);
    }
  }

  // ---- what one operation does to one row ----

  /** A row is there after an operation exactly if it is written down by it, or was there and is neither
      retired, owed and tried three times, nor forgotten while owed. */
  lemma RowsComeAndGo(rows: Rows, op: Op, key: Key)
    ensures key in Do(rows, op) <==>
            || (op.Owe? && key == (op.dir, op.item.reference))
            || (&& key in rows
                && !(op.RetireGone? && key.0 == op.dir && rows[key].hash.None? && rows[key].fails >= 3)
                && !(op.Forget? && key == op.key && rows[key].hash.None?))
  {
  }

  /** What a row written down for the first time says. */
  lemma NewRowsAreFresh(rows: Rows, op: Op, key: Key)
    requires key !in rows && key in Do(rows, op)
    ensures op.Owe? && key == (op.dir, op.item.reference)
    ensures var row := Do(rows, op)[key];
            row.ItemOf(key) == op.item && row.hash.None? && row.triedAt == 0 && row.fails == 0
  {
  }

  /** A row that stays is settled by nothing but settling it, and holds what it was last settled with. */
  lemma OnlySettlingSettles(rows: Rows, op: Op, key: Key)
    requires key in rows && key in Do(rows, op)
    ensures Do(rows, op)[key].hash == if op.Settle? && op.key == key then Some(op.hash) else rows[key].hash
  {
  }

  /** A scan counts for a row that is still owed, if the row it read was owed too and had used up its attempts
      or differs from what the scan offers. */
  predicate ScanCounts(rows: Rows, op: Op, key: Key) {
    && op.Refresh? && key == (op.dir, op.known.stored.reference)
    && key in rows && rows[key].hash.None? && !op.known.settled
    && (|| op.known.fails >= 3
        || op.item.folder != op.known.stored.folder || op.item.name != op.known.stored.name
        || (op.item.size.Some? && op.item.size != op.known.stored.size)
        || (op.item.checksum.Some? && op.item.checksum != op.known.stored.checksum))
  }

  /** What a row promises changes only by a scan that counts, to what the scan offers; a size or checksum it
      does not give stays as it was read. */
  lemma OnlyScansChangePromises(rows: Rows, op: Op, key: Key)
    requires key in rows && key in Do(rows, op)
    ensures Do(rows, op)[key].ItemOf(key)
            == if ScanCounts(rows, op, key)
               then Item(key.1, op.item.folder, op.item.name,
                         if op.item.size.Some? then op.item.size else op.known.stored.size,
                         if op.item.checksum.Some? then op.item.checksum else op.known.stored.checksum)
               else rows[key].ItemOf(key)
  {
  }

  /** Attempts are counted by claims, and given back by returning the row, or by a scan that found it used up
      or promising something else; the lease goes with them, unless it is a scan and the lease still runs. */
  lemma AttemptsAreCountedAndGivenBack(rows: Rows, op: Op, key: Key)
    requires key in rows && key in Do(rows, op)
    ensures var (before, after) := (rows[key], Do(rows, op)[key]);
            var claimed := op.Claim? && key in op.taken;
            var returned := op.GiveBack? && op.key == key && before.hash.None?;
            var reset := && ScanCounts(rows, op, key)
                         && (|| op.known.fails >= 3
                             || (op.item.size.Some? && op.item.size != op.known.stored.size)
                             || (op.item.checksum.Some? && op.item.checksum != op.known.stored.checksum));
            && after.fails == (if claimed then before.fails + 1 else if returned || reset then 0 else before.fails)
            && after.triedAt
               == (if claimed then op.at else if returned then 0
                   else if reset && before.triedAt < LeaseCutoff(op.at) then 0 else before.triedAt)
  {
  }

  /** A row can be claimed exactly if it is owed, was tried fewer than three times and, unless the clock is
      within an hour of its least, was last tried more than an hour ago. */
  lemma ClaimableExactly(row: Row, at: I64)
    requires at >= I64_MIN + 3600
    ensures row.Claimable(at) <==> row.hash.None? && row.fails < 3 && row.triedAt + 3600 < at
  {
  }

  predicate Claims(op: Op, key: Key) {
    op.Claim? && key in op.taken
  }

  /** The operation gives the row fresh attempts. */
  predicate Resets(rows: Rows, op: Op, key: Key) {
    && Owed(rows, key)
    && match op
       case GiveBack(k) => k == key
       case Refresh(dir, known, item, _) =>
         key == (dir, known.stored.reference) && known.Writes(item) && known.Resets(item)
       case _ => false
  }

  function ClaimCount(ops: seq<Op>, key: Key): nat {
    if ops == [] then 0 else (if Claims(ops[0], key) then 1 else 0) + ClaimCount(ops[1..], key)
  }

  function ResetCount(rows: Rows, ops: seq<Op>, key: Key): nat
    decreases |ops|
  {
    if ops == [] then 0
    else (if Resets(rows, ops[0], key) then 1 else 0) + ResetCount(Do(rows, ops[0]), ops[1..], key)
  }

  /** The row is never deleted during the run. */
  ghost predicate Stays(rows: Rows, ops: seq<Op>, key: Key)
    decreases |ops|
  {
    key in rows && (ops == [] || Stays(Do(rows, ops[0]), ops[1..], key))
  }

  lemma OneOpOnARow(rows: Rows, op: Op, key: Key)
    requires InRange(rows) && Runs(rows, [op]) && key in rows && key in Do(rows, op)
    ensures var before, after := rows[key], Do(rows, op)[key];
            && (Claims(op, key) ==> before.Claimable(op.at) && after == Tried(before, op.at))
            && (Resets(rows, op, key) ==> after.fails == 0)
            && (!Claims(op, key) && !Resets(rows, op, key) ==>
                  after.fails == before.fails && after.triedAt == before.triedAt)
            && !(Claims(op, key) && Resets(rows, op, key))
  {
    if op.Claim? {
      assert forall k :: k in op.taken ==> k in ClaimableKeys(rows, op.at);
    }
  }

  /** A row is claimed at most three times for each time it is given fresh attempts, the first included. */
  lemma {:induction false} ClaimsAreBounded(rows: Rows, ops: seq<Op>, key: Key)
    requires InRange(rows) && Runs(rows, ops) && Stays(rows, ops, key)
    ensures key in DoAll(rows, ops)
    ensures rows[key].fails + ClaimCount(ops, key)
            <= MAX_FETCH_ATTEMPTS * ResetCount(rows, ops, key) + DoAll(rows, ops)[key].fails
    ensures ClaimCount(ops, key) <= MAX_FETCH_ATTEMPTS * (ResetCount(rows, ops, key) + 1)
    decreases |ops|
  {
    AttemptsStayInRange(rows, ops);
    if ops != [] {
      assert [ops[0]][1..] == [];
      OpKeepsRange(rows, ops[0]);
      OneOpOnARow(rows, ops[0], key);
      ClaimsAreBounded(Do(rows, ops[0]), ops[1..], key);
    }
  }

  /** The time an operation happens at, if it looks at the clock. */
  function Clock(op: Op): Option<I64> {
    match op
    case Refresh(_, _, _, at) => Some(at)
    case Claim(at, _, _) => Some(at)
    case _ => None
  }

  /** The clock never goes back from `now`. */
  ghost predicate Ticks(ops: seq<Op>, now: I64)
    decreases |ops|
  {
    ops == []
    || (if Clock(ops[0]).Some? then Clock(ops[0]).value >= now && Ticks(ops[1..], Clock(ops[0]).value)
        else Ticks(ops[1..], now))
  }

  /** A row claimed at `claimed`, and not given back or deleted since, is not claimed again before its
      lease has run out, whatever scans make of it meanwhile. */
  lemma {:induction false} LeasesHold(rows: Rows, ops: seq<Op>, key: Key, claimed: I64, now: I64)
    requires InRange(rows) && Runs(rows, ops) && Stays(rows, ops, key) && Ticks(ops, now)
    requires forall i :: 0 <= i < |ops| ==> ops[i] != GiveBack(key)
    requires claimed <= now && (rows[key].triedAt == claimed || claimed + FETCH_RETRY_DELAY < now)
    ensures forall i :: 0 <= i < |ops| && Claims(ops[i], key) ==> ops[i].at > claimed + FETCH_RETRY_DELAY
    decreases |ops|
  {
    if ops != [] {
      assert [ops[0]][1..] == [];
      OpKeepsRange(rows, ops[0]);
      OneOpOnARow(rows, ops[0], key);
      var next := Do(rows, ops[0]);
      var later := if Clock(ops[0]).Some? then Clock(ops[0]).value else now;
      assert forall i :: 0 <= i < |ops| - 1 ==> ops[1..][i] == ops[i + 1];
      assert next[key].triedAt == claimed || claimed + FETCH_RETRY_DELAY < later;
      LeasesHold(next, ops[1..], key, claimed, later);
    }
  }

  /** What a claim takes, it leases. */
  lemma ClaimingLeases(rows: Rows, at: I64, limit: nat, taken: seq<Key>, key: Key, ops: seq<Op>)
    requires InRange(rows) && IsClaim(rows, at, limit, taken) && key in taken
    requires var next := Do(rows, Claim(at, limit, taken)); Runs(next, ops) && Stays(next, ops, key)
    requires Ticks(ops, at) && forall i :: 0 <= i < |ops| ==> ops[i] != GiveBack(key)
    ensures forall i :: 0 <= i < |ops| && Claims(ops[i], key) ==> ops[i].at > at + FETCH_RETRY_DELAY
  {
    assert key in ClaimableKeys(rows, at);
    assert Runs(rows, [Claim(at, limit, taken)]);
    OpKeepsRange(rows, Claim(at, limit, taken));
    LeasesHold(Do(rows, Claim(at, limit, taken)), ops, key, at, at);
  }

  /** A row that is in stays as it is, whatever is done except settling it again. */
  lemma {:induction false} SettledRowsAreHistory(rows: Rows, ops: seq<Op>, key: Key)
    requires key in rows && rows[key].hash.Some? && Runs(rows, ops)
    requires forall i :: 0 <= i < |ops| ==> !(ops[i].Settle? && ops[i].key == key)
    ensures key in DoAll(rows, ops) && DoAll(rows, ops)[key] == rows[key]
    decreases |ops|
  {
    if ops != [] {
      assert forall i :: 0 <= i < |ops| - 1 ==> ops[1..][i] == ops[i + 1];
      assert ops[0].Claim? ==> forall k :: k in ops[0].taken ==> k in ClaimableKeys(rows, ops[0].at);
      SettledRowsAreHistory(Do(rows, ops[0]), ops[1..], key);
    }
  }

  /** A row given fresh attempts by a scan can be claimed right then exactly when no lease is on it and the
      clock is past the first hour. */
  lemma ResetIsClaimableUnlessLeased(rows: Rows, dir: string, known: Known, item: Item, at: I64)
    requires var key := (dir, known.stored.reference); Resets(rows, Refresh(dir, known, item, at), key)
    ensures var key := (dir, known.stored.reference);
            var after := Do(rows, Refresh(dir, known, item, at));
            && after[key].fails == 0
            && (after[key].Claimable(at) <==> rows[key].triedAt < LeaseCutoff(at) && 0 < LeaseCutoff(at))
  {
  }

  /** Early clocks are where the documented promise fails: a row never tried cannot be claimed. */
  lemma FreshRowsWaitForTheFirstHour(item: Item, at: I64)
    ensures Fresh(item).Claimable(at) <==> at > FETCH_RETRY_DELAY
  {
  }

  /** A second scan that offers the same thing, with the row as the first left it, writes nothing. */
  lemma RefreshingTwiceWritesOnce(rows: Rows, dir: string, key: Key, item: Item, at: I64)
    requires key in rows && key.0 == dir
    ensures var known := KnownOf(key, rows[key]);
            var after := Do(rows, Refresh(dir, known, item, at));
            !KnownOf(key, after[key]).Writes(item)
            && (known.Writes(item) ==> after[key].ItemOf(key) == known.Refreshed(item))
  {
  }
}
