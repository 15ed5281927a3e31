/** Validation of the bundler: record its bundles and look at their transactions. */
module BundleValidation {
  import opened Messages
  import opened Models
  import opened Queries
  import opened Sign
  import opened Words
  import opened Wrappers

  /** A transaction of the bundler's on the network, and the height of its block if it has one. */
  datatype NetworkTx = NetworkTx(id: string, height: Option<u128>)

  /** A transaction inside a bundle, and whether the database answers about it. */
  datatype Item = Item(txId: string, reachable: bool)

  /** What `get_tx_data` comes to: a file, an error status or a broken transfer, or a panic because
      the file could not be made or the request failed. */
  datatype Download = Downloaded | NotDownloaded | RequestFailed

  /** What the outside does while one bundle is validated. */
  datatype Circumstances = Circumstances(
    queryAnswered: bool, insertAnswered: bool, download: Download, items: seq<Item>)

  datatype BundleError = BundleNotInsertedInDB | FileError

  datatype BundleResult = Validated | Abandoned(error: BundleError) | Crashed

  datatype BundlerResult = Finished | TxsFromAddressNotFound | Aborted

  // ----- the bundle table as a function of the fetched list

  function StoreOne(owner: string, table: Bundles, tx: NetworkTx): Bundles {
    if tx.height.None? || tx.id in table then table else table[tx.id := Bundle(owner, tx.height.value)]
  }

  function RecordBundles(owner: string, table: Bundles, txs: seq<NetworkTx>): Bundles {
    if txs == [] then table else StoreOne(owner, RecordBundles(owner, table, txs[..|txs| - 1]), txs[|txs| - 1])
  }

  /** The bundle appears in a block. */
  predicate HasBlock(txs: seq<NetworkTx>, id: string) {
    exists i :: 0 <= i < |txs| && txs[i].id == id && txs[i].height.Some?
  }

  /** Entry `i` is the first of its id that has a block. */
  predicate FirstWithBlock(txs: seq<NetworkTx>, i: nat) {
    && i < |txs| && txs[i].height.Some?
    && forall j | 0 <= j < i :: txs[j].id != txs[i].id || txs[j].height.None?
  }

  lemma {:induction false} RecordsKeys(owner: string, table: Bundles, txs: seq<NetworkTx>)
    ensures var after := RecordBundles(owner, table, txs);
            && (forall id :: id in after <==> id in table || HasBlock(txs, id))
            && (forall id | id in table :: after[id] == table[id])
  {
    if txs != [] {
      RecordsKeys(owner, table, txs[..|txs| - 1]);
      forall id ensures id in RecordBundles(owner, table, txs) <==> id in table || HasBlock(txs, id) {
        HasBlockSnoc(txs, id);
      }
    }
  }

  lemma {:induction false} FirstHeightIsKept(owner: string, table: Bundles, txs: seq<NetworkTx>, i: nat)
    requires FirstWithBlock(txs, i) && txs[i].id !in table
    ensures var after := RecordBundles(owner, table, txs);
            txs[i].id in after && after[txs[i].id] == Bundle(owner, txs[i].height.value)
  {
    var n := |txs| - 1;
    if i < n {
      assert FirstWithBlock(txs[..n], i) && txs[..n][i] == txs[i];
      FirstHeightIsKept(owner, table, txs[..n], i);
    } else {
      RecordsKeys(owner, table, txs[..n]);
      assert !HasBlock(txs[..n], txs[n].id);
    }
  }

  /** Exactly the bundles that were present or have a block are recorded; what was present is
      unchanged; of several heights for a new bundle the first is kept. */
  lemma RecordsExactly(owner: string, table: Bundles, txs: seq<NetworkTx>)
    ensures var after := RecordBundles(owner, table, txs);
            && (forall id :: id in after <==> id in table || HasBlock(txs, id))
            && (forall id | id in table :: after[id] == table[id])
            && (forall i | 0 <= i < |txs| && FirstWithBlock(txs, i) && txs[i].id !in table ::
                  txs[i].id in after && after[txs[i].id] == Bundle(owner, txs[i].height.value))
  {
    RecordsKeys(owner, table, txs);
    forall i | 0 <= i < |txs| && FirstWithBlock(txs, i) && txs[i].id !in table
      ensures var after := RecordBundles(owner, table, txs);
              txs[i].id in after && after[txs[i].id] == Bundle(owner, txs[i].height.value)
    {
      FirstHeightIsKept(owner, table, txs, i);
    }
  }

  lemma HasBlockSnoc(txs: seq<NetworkTx>, id: string)
    requires txs != []
    ensures HasBlock(txs, id) <==>
            HasBlock(txs[..|txs| - 1], id) || (txs[|txs| - 1].id == id && txs[|txs| - 1].height.Some?)
  {
    var n := |txs| - 1;
    if HasBlock(txs, id) {
      var i :| 0 <= i < |txs| && txs[i].id == id && txs[i].height.Some?;
      assert i < n ==> txs[..n][i] == txs[i];
    }
    if HasBlock(txs[..n], id) {
      var i :| 0 <= i < n && txs[..n][i].id == id && txs[..n][i].height.Some?;
      assert txs[i] == txs[..n][i];
    }
  }

  /** A second run over the same list changes nothing. */
  lemma RecordingTwice(owner: string, table: Bundles, txs: seq<NetworkTx>)
    ensures RecordBundles(owner, RecordBundles(owner, table, txs), txs) == RecordBundles(owner, table, txs)
  {
    var once := RecordBundles(owner, table, txs);
    RecordsExactly(owner, table, txs);
    RecordsExactly(owner, once, txs);
  }

  // ----- the methods

  /** `store_bundle`: an unanswered presence query counts as absence. */
  method StoreBundle(db: Database, owner: string, id: string, height: u128, c: Circumstances)
    returns (r: Result<(), BundleError>)
    modifies db`bundles
    ensures r.Ok? <==> if id in old(db.bundles) then c.queryAnswered else c.insertAnswered
    ensures db.bundles == if r.Ok? then StoreOne(owner, old(db.bundles), NetworkTx(id, Some(height)))
                          else old(db.bundles)
  {
    var present := db.GetBundle(id, c.queryAnswered);
    if present.Err? {
      var inserted := db.InsertBundle(id, Bundle(owner, height), c.insertAnswered);
      return if inserted.Ok? then Ok(()) else Err(BundleNotInsertedInDB);
    }
    return Ok(());
  }

  /** The stored signature of the item's transaction is not text, or does not decode. */
  predicate ItemCrashes(cfg: Config, rows: Transactions, item: Item) {
    item.reachable && item.txId in rows &&
    (!cfg.isText(rows[item.txId].signature) || !cfg.decodes(rows[item.txId].signature))
  }

  /** `verify_bundle_tx`. The row it means to mark as validated has the id of the row it just
      found, so the insert is refused and the table stays as it was; no peer is ever asked. */
  method VerifyBundleTx(cfg: Config, db: Database, item: Item, height: u128) returns (crashed: bool)
    modifies db`transactions
    ensures db.transactions == old(db.transactions)
    ensures crashed <==> ItemCrashes(cfg, db.transactions, item)
  {
    var tx := db.GetTx(item.txId, item.reachable);
    if tx.Ok? {
      var receiptBlock, signature := tx.value.blockPromised, tx.value.signature;
      if !cfg.isText(signature) {
        return true;
      }
      if !cfg.decodes(signature) {
        return true;
      }
      if cfg.verifies(ReceiptChunks(item.txId, receiptBlock), signature) && receiptBlock <= height {
        var row := Transaction(0, receiptBlock, Some(height), signature, true, Some(item.txId));
        var ignored := db.InsertTx(item.txId, row, item.reachable);
      }
    }
    return false;
  }

  /** `store_bundle` succeeds on this bundle. */
  predicate Stores(table: Bundles, id: string, c: Circumstances) {
    if id in table then c.queryAnswered else c.insertAnswered
  }

  /** `validate_bundle` panics: on the request for the file, or on a stored signature. */
  predicate Crashes(cfg: Config, rows: Transactions, table: Bundles, tx: NetworkTx, c: Circumstances) {
    && tx.height.Some? && Stores(table, tx.id, c)
    && (c.download == RequestFailed
        || (c.download == Downloaded && exists item | item in c.items :: ItemCrashes(cfg, rows, item)))
  }

  /** `validate_bundle` comes to an end that the caller passes over, on a bundle table `table`. */
  predicate Passes(cfg: Config, rows: Transactions, table: Bundles, tx: NetworkTx, c: Circumstances) {
    tx.height.Some? ==> Stores(table, tx.id, c) && !Crashes(cfg, rows, table, tx, c)
  }

  /** `validate_bundle` */
  method ValidateBundle(cfg: Config, db: Database, owner: string, tx: NetworkTx, c: Circumstances)
    returns (r: BundleResult)
    modifies db
    ensures db.transactions == old(db.transactions)
    ensures db.bundles == if r == Abandoned(BundleNotInsertedInDB) then old(db.bundles)
                          else StoreOne(owner, old(db.bundles), tx)
    ensures r == Abandoned(BundleNotInsertedInDB) <==> tx.height.Some? && !Stores(old(db.bundles), tx.id, c)
    ensures r == Abandoned(FileError) <==>
            tx.height.Some? && Stores(old(db.bundles), tx.id, c) && c.download == NotDownloaded
    ensures r == Crashed <==> Crashes(cfg, db.transactions, old(db.bundles), tx, c)
  {
    if tx.height.None? {
      return Validated;
    }
    var height := tx.height.value;
    var stored := StoreBundle(db, owner, tx.id, height, c);
    if stored.Err? {
      return Abandoned(BundleNotInsertedInDB);
    }
    match c.download {
      case RequestFailed => return Crashed;
      case NotDownloaded => return Abandoned(FileError);
      case Downloaded =>
    }
    for i := 0 to |c.items|
      invariant db.transactions == old(db.transactions)
      invariant db.bundles == StoreOne(owner, old(db.bundles), tx)
      invariant forall item | item in c.items[..i] :: !ItemCrashes(cfg, db.transactions, item)
    {
      var crashed := VerifyBundleTx(cfg, db, c.items[i], height);
      if crashed {
        return Crashed;
      }
    }
    assert c.items[..|c.items|] == c.items;
    return Validated;
  }

  lemma RecordNext(owner: string, table: Bundles, txs: seq<NetworkTx>, i: nat)
    requires i < |txs|
    ensures RecordBundles(owner, table, txs[..i + 1]) == StoreOne(owner, RecordBundles(owner, table, txs[..i]), txs[i])
  {
    assert txs[..i + 1][..i] == txs[..i];
  }

  /** Bundle `i` is passed, on the table that those before it left. */
  predicate PassesAt(
      cfg: Config, rows: Transactions, owner: string, table: Bundles, txs: seq<NetworkTx>,
      outside: nat -> Circumstances, i: nat)
    requires i < |txs|
  {
    Passes(cfg, rows, RecordBundles(owner, table, txs[..i]), txs[i], outside(i))
  }

  /** The first `n` bundles are all passed. */
  predicate PassesAll(
      cfg: Config, rows: Transactions, owner: string, table: Bundles, txs: seq<NetworkTx>,
      outside: nat -> Circumstances, n: nat)
    requires n <= |txs|
  {
    forall i {:trigger PassesAt(cfg, rows, owner, table, txs, outside, i)} | 0 <= i < n ::
      PassesAt(cfg, rows, owner, table, txs, outside, i)
  }

  /** Bundle `n` is the first that is not passed, and it is recorded if it was stored. */
  predicate StoppedAt(
      cfg: Config, rows: Transactions, owner: string, table: Bundles, txs: seq<NetworkTx>,
      outside: nat -> Circumstances, n: nat, after: Bundles)
  {
    && n < |txs| && PassesAll(cfg, rows, owner, table, txs, outside, n)
    && !PassesAt(cfg, rows, owner, table, txs, outside, n)
    && (var before := RecordBundles(owner, table, txs[..n]);
        after == if Stores(before, txs[n].id, outside(n)) then StoreOne(owner, before, txs[n]) else before)
  }

  /** `validate_bundler`: a missing file is passed over, any other failure ends in a panic. It
      finishes exactly when every bundle is passed; otherwise the bundles before the first that is
      not have been recorded, and that one too if it was stored. */
  method ValidateBundler(
      cfg: Config, db: Database, owner: string, fetched: Option<seq<NetworkTx>>, outside: nat -> Circumstances)
    returns (r: BundlerResult)
    modifies db
    ensures db.transactions == old(db.transactions)
    ensures r == TxsFromAddressNotFound <==> fetched.None?
    ensures fetched.None? ==> db.bundles == old(db.bundles)
    ensures r == Finished <==>
            && fetched.Some?
            && PassesAll(cfg, old(db.transactions), owner, old(db.bundles), fetched.value, outside, |fetched.value|)
    ensures r == Finished ==> db.bundles == RecordBundles(owner, old(db.bundles), fetched.value)
    ensures r == Aborted ==>
              exists n :: StoppedAt(
                            cfg, old(db.transactions), owner, old(db.bundles), fetched.value, outside, n, db.bundles)
  {
    if fetched.None? {
      return TxsFromAddressNotFound;
    }
    var txs := fetched.value;
    ghost var table := db.bundles;
    for i := 0 to |txs|
      invariant db.transactions == old(db.transactions)
      invariant db.bundles == RecordBundles(owner, table, txs[..i])
      invariant PassesAll(cfg, old(db.transactions), owner, table, txs, outside, i)
    {
      RecordNext(owner, table, txs, i);
      ghost var passes := PassesAt(cfg, db.transactions, owner, table, txs, outside, i);
      var one := ValidateBundle(cfg, db, owner, txs[i], outside(i));
      if one.Crashed? || one == Abandoned(BundleNotInsertedInDB) {
        assert !passes && StoppedAt(cfg, old(db.transactions), owner, table, txs, outside, i, db.bundles);
        return Aborted;
      }
    }
    assert txs[..|txs|] == txs;
    return Finished;
  }
}
