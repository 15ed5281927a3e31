/** The two database tables and the statements run on them. */
module Queries {
  import opened Models
  import opened Words
  import opened Wrappers

  type Transactions = map<string, Transaction>
  type Bundles = map<string, Bundle>

  datatype DbError = NotFound | UniqueViolation | ForeignKeyViolation | Unavailable

  datatype Deletion = Deleted(count: nat) | Failed(error: DbError) | Panicked

  /** How many epochs the clearing job keeps. */
  const KEPT_EPOCHS: u128 := 40

  // ----- clearing

  /** `current_epoch - epoch_amount` on u128: below zero it panics or wraps, as built. */
  function ClearThreshold(build: Build, current: u128, amount: u128): Option<u128> {
    if amount <= current then Some(current - amount)
    else if build.overflowChecks then None
    else Some(TWO_TO_THE_128 + current - amount)
  }

  /** The delete statement's condition: the epoch column is compared as a byte string. */
  predicate Selected(endian: Endian, row: Transaction, last: u128) {
    row.validated && ByteLess(Encode(endian, row.epoch), Encode(endian, last))
  }

  function Clear(endian: Endian, rows: Transactions, last: u128): Transactions {
    map id | id in rows && !Selected(endian, rows[id], last) :: rows[id]
  }

  /** What the statement is written to mean. */
  function NumericClear(rows: Transactions, last: u128): Transactions {
    map id | id in rows && !(rows[id].validated && rows[id].epoch < last) :: rows[id]
  }

  predicate EpochsBelow(rows: Transactions, n: u128) {
    forall id | id in rows :: rows[id].epoch < n
  }

  predicate ClearsNumerically(endian: Endian, rows: Transactions, last: u128) {
    Clear(endian, rows, last) == NumericClear(rows, last)
  }

  /** Comparing big-endian columns as byte strings deletes exactly the numerically older rows. */
  lemma BigClearIsNumeric(rows: Transactions, last: u128)
    ensures ClearsNumerically(Big, rows, last)
  {
    forall id | id in rows ensures Selected(Big, rows[id], last) <==> rows[id].validated && rows[id].epoch < last {
      EncodedOrder(rows[id].epoch, last);
    }
  }

  function SomeRow(epoch: u128, validated: bool): Transaction {
    Transaction(epoch, 0, None, "", validated, None)
  }

  /** On a little-endian host the same holds of every table and threshold below `n`
      exactly when `n` is at most 256. */
  lemma LittleClearIsNumericBound(n: u128)
    ensures (forall rows: Transactions, last: u128 | EpochsBelow(rows, n) && last < n ::
               ClearsNumerically(Little, rows, last))
            <==> n <= 256
  {
    LittleOrderBound(n);
    if n <= 256 {
      forall rows: Transactions, last: u128 | EpochsBelow(rows, n) && last < n
        ensures ClearsNumerically(Little, rows, last)
      {
        forall id | id in rows
          ensures Selected(Little, rows[id], last) <==> rows[id].validated && rows[id].epoch < last
        {
          assert SortsNumerically(Little, rows[id].epoch, last);
        }
      }
    } else {
      var rows := map["a" := SomeRow(1, true)];
      LittleOrderStep(16, 1, 256);
      assert EpochsBelow(rows, n);
      assert "a" in Clear(Little, rows, 256) && "a" !in NumericClear(rows, 256);
      assert !ClearsNumerically(Little, rows, 256);
    }
  }

  // ----- the clear at epoch 0

  /** The epochs below the wrapped threshold of a clear at epoch 0, as the host orders them. */
  predicate BelowWrapped(endian: Endian, epoch: u128) {
    var last := TWO_TO_THE_128 - KEPT_EPOCHS;
    if endian.Big? then epoch < last else epoch % 256 <= last % 256 && epoch != last
  }

  /** Without overflow checks a clear at epoch 0 selects nearly everything on a big-endian host
      and, on a little-endian one, the rows whose lowest epoch byte is at most 216. */
  lemma SelectedAtStart(build: Build, row: Transaction)
    requires !build.overflowChecks
    ensures ClearThreshold(build, 0, KEPT_EPOCHS) == Some(TWO_TO_THE_128 - KEPT_EPOCHS)
    ensures Selected(build.endian, row, TWO_TO_THE_128 - KEPT_EPOCHS) <==>
            row.validated && BelowWrapped(build.endian, row.epoch)
  {
    var last := TWO_TO_THE_128 - KEPT_EPOCHS;
    if build.endian.Big? {
      EncodedOrder(row.epoch, last);
    } else {
      Pow256At16();
      assert last % 256 == 216 && last / 256 == Pow256(15) - 1;
      LittleOrderStep(16, row.epoch, last);
      LargestSortsLast(15, row.epoch / 256);
    }
  }

  // ----- what clearing must not delete

  predicate ValidatedUpTo(rows: Transactions, hi: u128) {
    forall id | id in rows && rows[id].validated :: rows[id].epoch <= hi
  }

  /** Clearing at epoch `current` keeps every row that is not more than 40 epochs old. */
  predicate KeepsWindow(build: Build, current: u128, rows: Transactions) {
    var last := ClearThreshold(build, current, KEPT_EPOCHS);
    last.Some? ==>
      forall id | id in rows && current <= rows[id].epoch + KEPT_EPOCHS ::
        id in Clear(build.endian, rows, last.value)
  }

  /** A test on the epoch before the call: there have been 40 epochs (or the subtraction panics),
      and no little-endian carry lies between the threshold and the newest validated row. */
  predicate ClearIsSafe(build: Build, current: u128, hi: u128) {
    if current < KEPT_EPOCHS then build.overflowChecks
    else build.endian.Big? || current == KEPT_EPOCHS || hi < NextWrap(current - KEPT_EPOCHS)
  }

  lemma SafeClearKeepsWindow(build: Build, current: u128, hi: u128, rows: Transactions)
    requires ClearIsSafe(build, current, hi) && ValidatedUpTo(rows, hi)
    ensures KeepsWindow(build, current, rows)
  {
    if KEPT_EPOCHS <= current {
      var last: u128 := current - KEPT_EPOCHS;
      forall id | id in rows && current <= rows[id].epoch + KEPT_EPOCHS
        ensures !Selected(build.endian, rows[id], last)
      {
        var e := rows[id].epoch;
        EncodedOrder(e, last);
        if Selected(Little, rows[id], last) {
          if last == 0 {
            NothingBelowZero(16, e);
          } else {
            NothingSortsFirstBelowWrap(16, last, e);
          }
        }
      }
    }
  }

  /** The row a clear at `current` wrongly deletes when the test fails. */
  function Victim(build: Build, current: u128, hi: u128): (e: u128)
    requires !ClearIsSafe(build, current, hi)
    ensures e <= hi
  {
    if current < KEPT_EPOCHS then 0 else NextWrap(current - KEPT_EPOCHS)
  }

  lemma VictimIsSelected(build: Build, current: u128, hi: u128, last: u128)
    requires !ClearIsSafe(build, current, hi) && ClearThreshold(build, current, KEPT_EPOCHS) == Some(last)
    ensures ByteLess(Encode(build.endian, Victim(build, current, hi)), Encode(build.endian, last))
  {
    if build.endian.Big? {
      EncodedOrder(0, last);
    } else if current < KEPT_EPOCHS {
      assert last % 256 == 216 + current;
      LittleOrderStep(16, 0, last);
    } else {
      Pow256At16();
      WrapSortsFirst(16, last);
    }
  }

  lemma UnsafeClearHasVictim(build: Build, current: u128, hi: u128)
    requires !ClearIsSafe(build, current, hi)
    ensures !KeepsWindow(build, current, map["a" := SomeRow(Victim(build, current, hi), true)])
  {
    var rows := map["a" := SomeRow(Victim(build, current, hi), true)];
    var last := ClearThreshold(build, current, KEPT_EPOCHS).value;
    VictimIsSelected(build, current, hi, last);
    assert Selected(build.endian, rows["a"], last);
    assert "a" in rows && "a" !in Clear(build.endian, rows, last);
  }

  /** The clearing job keeps the last 40 epochs of every table whose validated rows reach at
      most epoch `hi` if and only if the epoch it runs at passes the test. */
  lemma ClearKeepsWindowIff(build: Build, current: u128, hi: u128)
    ensures (forall rows: Transactions | ValidatedUpTo(rows, hi) :: KeepsWindow(build, current, rows))
            <==> ClearIsSafe(build, current, hi)
  {
    if ClearIsSafe(build, current, hi) {
      forall rows: Transactions | ValidatedUpTo(rows, hi) ensures KeepsWindow(build, current, rows) {
        SafeClearKeepsWindow(build, current, hi, rows);
      }
    } else {
      UnsafeClearHasVictim(build, current, hi);
      assert ValidatedUpTo(map["a" := SomeRow(Victim(build, current, hi), true)], hi);
    }
  }

  /** When no row is newer than the clearing epoch, the test on a little-endian host is
      whether the last 40 epochs share their second byte. */
  lemma SafeAtOwnEpoch(build: Build, current: u128)
    ensures ClearIsSafe(build, current, current) <==>
            (if current < KEPT_EPOCHS then build.overflowChecks else build.endian.Big? || current % 256 >= KEPT_EPOCHS)
  {
    if KEPT_EPOCHS < current {
      WrapDistance(current - KEPT_EPOCHS);
      LowByteAfter40(current - KEPT_EPOCHS);
    }
  }

  // ----- the tables

  /** A database that every statement reaches, or reports unavailable. */
  class Database {
    var transactions: Transactions
    var bundles: Bundles

    /** `insert_tx_in_db` and the insert of `sign_route`. */
    method InsertTx(id: string, row: Transaction, reachable: bool) returns (r: Result<(), DbError>)
      modifies this`transactions
      ensures r.Ok? <==>
              reachable && id !in old(transactions) && (row.bundleId.Some? ==> row.bundleId.value in bundles)
      ensures r == Err(Unavailable) <==> !reachable
      ensures r == Err(UniqueViolation) <==> reachable && id in old(transactions)
      ensures r == Err(ForeignKeyViolation) <==>
              reachable && id !in old(transactions) && row.bundleId.Some? && row.bundleId.value !in bundles
      ensures transactions == if r.Ok? then old(transactions)[id := row] else old(transactions)
    {
      if !reachable {
        return Err(Unavailable);
      }
      if id in transactions {
        return Err(UniqueViolation);
      }
      if row.bundleId.Some? && row.bundleId.value !in bundles {
        return Err(ForeignKeyViolation);
      }
      transactions := transactions[id := row];
      return Ok(());
    }

    method GetTx(id: string, reachable: bool) returns (r: Result<Transaction, DbError>)
      ensures r.Ok? <==> reachable && id in transactions
      ensures r.Ok? ==> r.value == transactions[id]
      ensures r.Err? ==> r.error == if reachable then NotFound else Unavailable
    {
      if !reachable {
        return Err(Unavailable);
      }
      return if id in transactions then Ok(transactions[id]) else Err(NotFound);
    }

    method InsertBundle(id: string, row: Bundle, reachable: bool) returns (r: Result<(), DbError>)
      modifies this`bundles
      ensures r.Ok? <==> reachable && id !in old(bundles)
      ensures r.Err? ==> r.error == if reachable then UniqueViolation else Unavailable
      ensures bundles == if r.Ok? then old(bundles)[id := row] else old(bundles)
    {
      if !reachable {
        return Err(Unavailable);
      }
      if id in bundles {
        return Err(UniqueViolation);
      }
      bundles := bundles[id := row];
      return Ok(());
    }

    method GetBundle(id: string, reachable: bool) returns (r: Result<Bundle, DbError>)
      ensures r.Ok? <==> reachable && id in bundles
      ensures r.Ok? ==> r.value == bundles[id]
      ensures r.Err? ==> r.error == if reachable then NotFound else Unavailable
    {
      if !reachable {
        return Err(Unavailable);
      }
      return if id in bundles then Ok(bundles[id]) else Err(NotFound);
    }

    /** `filter`: delete the validated rows below the threshold, return how many there were. */
    method Filter(build: Build, current: u128, amount: u128, reachable: bool) returns (r: Deletion)
      modifies this`transactions
      ensures r.Panicked? <==> ClearThreshold(build, current, amount).None?
      ensures r.Deleted? <==> reachable && !r.Panicked?
      ensures !r.Deleted? ==> transactions == old(transactions)
      ensures r.Deleted? ==>
                && transactions == Clear(build.endian, old(transactions), ClearThreshold(build, current, amount).value)
                && r.count + |transactions| == |old(transactions)|
    {
      var last := ClearThreshold(build, current, amount);
      if last.None? {
        return Panicked;
      }
      if !reachable {
        return Failed(Unavailable);
      }
      var kept := Clear(build.endian, transactions, last.value);
      var gone := transactions - kept.Keys;
      CountsAddUp(transactions, kept);
      r := Deleted(|gone|);
      transactions := kept;
    }
  }

  lemma CountsAddUp<K, V>(m: map<K, V>, kept: map<K, V>)
    requires kept.Keys <= m.Keys
    ensures |m - kept.Keys| + |kept| == |m|
  {
    var gone := m - kept.Keys;
    assert gone.Keys + kept.Keys == m.Keys && gone.Keys !! kept.Keys;
  }
}
