/**
 The in-memory store in front of the inventory tables. Every write goes to the cache and to the
 database; reads of transactions touch the cache only. The theorems say exactly when the cache
 agrees with the tables over whole runs, and when a cached read answers as the SQL query does.
 */
module MemStore {
  import opened InventoryTables

  /** A cached transaction: the row without its timestamps. */
  datatype Record = Record(kind: string, source: string, sourceType: string, dest: string, destType: string,
                           status: Status, items: Quantities)

  function RecordOf(row: Row): Record {
    Record(row.kind, row.source, row.sourceType, row.dest, row.destType, row.status, row.items)
  }

  /** The database and, beside it, the three cached tables. */
  datatype Store = Store(db: Tables, inventory: map<string, Quantities>, warehouses: set<string>,
                         transactions: map<int, Record>)

  datatype Op =
    | Get(client: string, clientType: string)
    | Update(client: string, clientType: string, items: Quantities)
    | Adjust(client: string, items: Quantities, add: bool)
    | Create(kind: string, dest: string, destType: string, items: Quantities, time: int)
    | Source(id: int, source: string, sourceType: string)
    | Mark(id: int, status: Status)
    | Complete(id: int)

  // ---------- effects ----------

  function KnownWarehouses(warehouses: set<string>, client: string, clientType: string): set<string> {
    if clientType == "WAREHOUSE" then warehouses + {client} else warehouses
  }

  /** A hit changes nothing; a miss reads the row, creating it if need be, and caches it. */
  function GetEffect(s: Store, client: string, clientType: string): Store {
    if client in s.inventory || client == "" || clientType == "" then s
    else
      var db := EnsureInventory(s.db, client, clientType);
      Store(db, s.inventory[client := db.stock[client].items], KnownWarehouses(s.warehouses, client, clientType),
            s.transactions)
  }

  /** The cache is written first, whatever the database then says. */
  function UpdateEffect(s: Store, client: string, clientType: string, items: Quantities): Store {
    Store(UpdateInventory(s.db, client, clientType, items), s.inventory[client := items],
          KnownWarehouses(s.warehouses, client, clientType), s.transactions)
  }

  function Adjusted(inventory: map<string, Quantities>, client: string, items: Quantities, add: bool)
    : map<string, Quantities>
  {
    if client !in inventory then inventory
    else inventory[client := if add then Plus(inventory[client], items) else Minus(inventory[client], items)]
  }

  function CreateEffect(s: Store, kind: string, dest: string, destType: string, items: Quantities, time: int): Store {
    var (db, id) := CreateTransaction(s.db, kind, dest, destType, items, time);
    if id < 0 then s
    else s.(db := db, transactions := s.transactions[id := Record(kind, "", "", dest, destType, Pending, items)])
  }

  function Do(s: Store, op: Op): Store {
    match op
    case Get(client, clientType) => GetEffect(s, client, clientType)
    case Update(client, clientType, items) => UpdateEffect(s, client, clientType, items)
    case Adjust(client, items, add) =>
      s.(db := AdjustInventory(s.db, client, items, add), inventory := Adjusted(s.inventory, client, items, add))
    case Create(kind, dest, destType, items, time) => CreateEffect(s, kind, dest, destType, items, time)
    case Source(id, source, sourceType) =>
      s.(db := SetSource(s.db, id, source, sourceType),
         transactions := if id !in s.transactions then s.transactions
                         else s.transactions[id := s.transactions[id].(source := source, sourceType := sourceType)])
    case Mark(id, status) =>
      s.(db := SetStatus(s.db, id, status),
         transactions := if id !in s.transactions then s.transactions
                         else s.transactions[id := s.transactions[id].(status := status)])
    case Complete(id) => s.(db := SetStatus(s.db, id, Completed), transactions := s.transactions - {id})
  }

  // ---------- agreement ----------

  ghost predicate InventoryAgrees(stock: map<string, StockRow>, inventory: map<string, Quantities>) {
    forall c :: c in inventory ==> c in stock && inventory[c] == stock[c].items
  }

  /** The cache holds exactly the rows that are not over. */
  ghost predicate TransactionsAgree(txns: map<int, Row>, transactions: map<int, Record>) {
    && (forall id :: id in transactions <==> id in txns && txns[id].status != Completed)
    && (forall id :: id in transactions ==> transactions[id] == RecordOf(txns[id]))
  }

  ghost predicate Agree(s: Store) {
    WellFormed(s.db) && InventoryAgrees(s.db.stock, s.inventory) && TransactionsAgree(s.db.txns, s.transactions)
  }

  /** The caller does not revive a finished transaction, and names the client and type of an update. */
  predicate Safe(db: Tables, op: Op) {
    match op
    case Update(client, clientType, items) =>
      client != "" && (clientType != "" || (client in db.stock && db.stock[client].items == items))
    case Mark(id, status) => id in db.txns ==> db.txns[id].status != Completed
    case _ => true
  }

  /** Marking is only ever to Assigned or Dispatched. */
  predicate IsCall(op: Op) {
    op.Mark? ==> op.status == Assigned || op.status == Dispatched
  }

  /** One step, both ways: agreement survives a call exactly when the call is safe. */
  lemma StepAgreesIff(s: Store, op: Op)
    requires Agree(s) && IsCall(op)
    ensures Agree(Do(s, op)) <==> Safe(s.db, op)
  {
    match op
    case Update(client, clientType, items) => UpdateAgreesIff(s, client, clientType, items);
    case Mark(id, status) => MarkAgreesIff(s, id, status);
    case Get(client, clientType) => StockCallAgrees(s, op);
    case Adjust(client, items, add) => StockCallAgrees(s, op);
    case _ => RowCallAgrees(s, op);
  }

  lemma StockCallAgrees(s: Store, op: Op)
    requires Agree(s) && (op.Get? || op.Adjust?)
    ensures Agree(Do(s, op))
  {
    var t := Do(s, op);
    assert t.db.txns == s.db.txns && t.transactions == s.transactions && t.db.nextId == s.db.nextId;
    assert InventoryAgrees(t.db.stock, t.inventory);
  }

  lemma RowCallAgrees(s: Store, op: Op)
    requires Agree(s) && (op.Create? || op.Source? || op.Complete?)
    ensures Agree(Do(s, op))
  {
    match op
    case Create(kind, dest, destType, items, time) =>
      RowChanged(s.db.txns, s.transactions, s.db.nextId, Row(kind, "", "", dest, destType, Pending, items, time));
    case Source(id, source, sourceType) =>
      if id in s.db.txns {
        RowChanged(s.db.txns, s.transactions, id, s.db.txns[id].(source := source, sourceType := sourceType));
      }
    case Complete(id) =>
      if id in s.db.txns {
        RowChanged(s.db.txns, s.transactions, id, s.db.txns[id].(status := Completed));
      } else {
        assert s.transactions - {id} == s.transactions;
      }
  }

  /** The cache follows a row as long as it lives and drops it when it is over. */
  lemma RowChanged(txns: map<int, Row>, transactions: map<int, Record>, id: int, row: Row)
    requires TransactionsAgree(txns, transactions)
    ensures row.status != Completed ==> TransactionsAgree(txns[id := row], transactions[id := RecordOf(row)])
    ensures row.status == Completed ==> TransactionsAgree(txns[id := row], transactions - {id})
    ensures id !in transactions ==> transactions - {id} == transactions
  {
  }

  lemma UpdateAgreesIff(s: Store, client: string, clientType: string, items: Quantities)
    requires Agree(s)
    ensures Agree(Do(s, Update(client, clientType, items))) <==> Safe(s.db, Update(client, clientType, items))
  {
    var t := Do(s, Update(client, clientType, items));
    assert client in t.inventory && t.inventory[client] == items;
  }

  /** A finished row is gone from the cache, so marking it again revives it in the table alone. */
  lemma MarkAgreesIff(s: Store, id: int, status: Status)
    requires Agree(s) && (status == Assigned || status == Dispatched)
    ensures Agree(Do(s, Mark(id, status))) <==> Safe(s.db, Mark(id, status))
  {
    var t := Do(s, Mark(id, status));
    if !Safe(s.db, Mark(id, status)) {
      assert id in t.db.txns && t.db.txns[id].status == status && id !in t.transactions;
    }
  }

  // ---------- runs ----------

  ghost predicate IsRun(ops: seq<Op>, run: seq<Store>) {
    && |run| == |ops| + 1 && (forall i :: 0 <= i < |ops| ==> IsCall(ops[i]))
    && (forall i, j :: 0 <= i && j == i + 1 < |run| ==> run[j] == Do(run[i], ops[i]))
  }

  function Fresh(db: Tables): Store {
    Store(db, map[], {}, map[])
  }

  /** A store starts empty and loads no transactions: it agrees only with a table that has no live rows. */
  lemma FreshAgreesIff(db: Tables)
    requires WellFormed(db)
    ensures Agree(Fresh(db)) <==> forall id :: id in db.txns ==> db.txns[id].status == Completed
  {
  }

  /** Over whole runs: every state agrees exactly when the start does and every call is safe. */
  lemma {:induction false} RunAgreesIff(ops: seq<Op>, run: seq<Store>)
    requires IsRun(ops, run)
    ensures (forall i :: 0 <= i < |run| ==> Agree(run[i])) <==>
            Agree(run[0]) && forall i :: 0 <= i < |ops| ==> Safe(run[i].db, ops[i])
    decreases |ops|
  {
    if |ops| > 0 {
      var n := |ops| - 1;
      var before := run[..n + 1];
      assert IsRun(ops[..n], before);
      RunAgreesIff(ops[..n], before);
      assert forall i :: 0 <= i <= n ==> before[i] == run[i];
      assert forall i :: 0 <= i < n ==> ops[..n][i] == ops[i];
      if forall i :: 0 <= i < |before| ==> Agree(before[i]) {
        assert Agree(run[n]) && run[n + 1] == Do(run[n], ops[n]);
        StepAgreesIff(run[n], ops[n]);
      }
    }
  }

  // ---------- order times ----------

  ghost predicate Increasing(txns: map<int, Row>) {
    forall a, b :: a in txns && b in txns && a < b ==> txns[a].orderTime < txns[b].orderTime
  }

  predicate Timely(db: Tables, op: Op) {
    op.Create? && op.kind != "" && op.dest != "" && op.destType != "" ==>
      forall id :: id in db.txns ==> db.txns[id].orderTime < op.time
  }

  lemma NewestIsLatestIff(txns: map<int, Row>, txns': map<int, Row>, id: int)
    requires Increasing(txns) && (forall k :: k in txns ==> k < id)
    requires id in txns' && txns' == txns[id := txns'[id]]
    ensures Increasing(txns') <==> forall k :: k in txns ==> txns[k].orderTime < txns'[id].orderTime
  {
    if Increasing(txns') {
      assert forall k :: k in txns ==> k in txns' && k < id;
    }
  }

  /** Order times keep increasing with the ids exactly when each new order is later than all before it. */
  lemma StepIncreasingIff(s: Store, op: Op)
    requires WellFormed(s.db) && Increasing(s.db.txns)
    ensures Increasing(Do(s, op).db.txns) <==> Timely(s.db, op)
  {
    var txns, txns' := s.db.txns, Do(s, op).db.txns;
    if op.Create? && op.kind != "" && op.dest != "" && op.destType != "" {
      assert txns' == txns[s.db.nextId := Row(op.kind, "", "", op.dest, op.destType, Pending, op.items, op.time)];
      NewestIsLatestIff(txns, txns', s.db.nextId);
    } else {
      assert txns'.Keys == txns.Keys;
      assert forall id :: id in txns' ==> txns'[id].orderTime == txns[id].orderTime;
    }
  }

  // ---------- cached queries ----------

  predicate RecordMatches(r: Record, source: string, dest: string, wanted: Wanted) {
    (source != "" ==> r.source == source) && (dest != "" ==> r.dest == dest) && StatusFits(r.status, wanted)
  }

  /** The cached search answers with the highest matching id, or -1. */
  ghost predicate HighestMatch(transactions: map<int, Record>, source: string, dest: string, wanted: Wanted, id: int) {
    && (id == -1 || (id in transactions && RecordMatches(transactions[id], source, dest, wanted)))
    && forall k :: k in transactions && RecordMatches(transactions[k], source, dest, wanted) ==> k <= id
  }

  /** The cached search answers as the SQL query exactly when no finished row is a later match. */
  lemma FindAgreesIff(s: Store, source: string, dest: string, wanted: Wanted, id: int)
    requires Agree(s) && Increasing(s.db.txns) && HighestMatch(s.transactions, source, dest, wanted, id)
    ensures FindAnswer(s.db.txns, source, dest, wanted, id) <==>
            forall k :: k in s.db.txns && s.db.txns[k].status == Completed ==>
              Matches(s.db.txns[k], source, dest, wanted) ==> k < id
  {
    var txns := s.db.txns;
    assert forall k :: k in s.transactions ==>
      (RecordMatches(s.transactions[k], source, dest, wanted) <==> Matches(txns[k], source, dest, wanted));
    assert id !in txns || txns[id].status != Completed;
  }

  /** For a live status nothing finished can match, and the SQL answer is the cached one and no other. */
  lemma FindLive(s: Store, source: string, dest: string, status: Status, id: int)
    requires Agree(s) && Increasing(s.db.txns) && status != Completed
    ensures HighestMatch(s.transactions, source, dest, Only(status), id) <==>
      FindAnswer(s.db.txns, source, dest, Only(status), id)
  {
    var txns := s.db.txns;
    assert forall k :: k in s.transactions ==>
      (RecordMatches(s.transactions[k], source, dest, Only(status)) <==> Matches(txns[k], source, dest, Only(status)));
    if HighestMatch(s.transactions, source, dest, Only(status), id) {
      FindAgreesIff(s, source, dest, Only(status), id);
    }
  }

  function PendingRecords(transactions: map<int, Record>): set<int> {
    set k | k in transactions && transactions[k].status == Pending
  }

  /** The cached list: at most `max` pending ids, lowest first. */
  ghost predicate LowestPending(pending: set<int>, max: nat, ids: seq<int>) {
    && (forall i :: 0 <= i < |ids| ==> ids[i] in pending)
    && (forall i, j :: 0 <= i < j < |ids| ==> ids[i] < ids[j])
    && |ids| == (if |pending| < max then |pending| else max)
    && (forall k, i :: k in pending && k !in ids && 0 <= i < |ids| ==> ids[i] < k)
  }

  lemma PendingAgrees(s: Store, max: nat, ids: seq<int>)
    requires Agree(s) && Increasing(s.db.txns)
    ensures LowestPending(PendingRecords(s.transactions), max, ids) <==> PendingAnswer(s.db.txns, max, ids)
  {
    forall k
      ensures k in PendingRecords(s.transactions) <==> k in PendingIds(s.db.txns)
    {
      assert k in s.transactions ==> s.transactions[k] == RecordOf(s.db.txns[k]);
    }
    assert PendingRecords(s.transactions) == PendingIds(s.db.txns);
    LowestIsEarliest(s.db.txns, max, ids);
  }

  lemma LowestIsEarliest(txns: map<int, Row>, max: nat, ids: seq<int>)
    requires Increasing(txns)
    ensures LowestPending(PendingIds(txns), max, ids) <==> PendingAnswer(txns, max, ids)
  {
    assert forall a, b :: a in txns && b in txns && a != b ==> (a < b <==> txns[a].orderTime <= txns[b].orderTime);
  }

  // ---------- whole runs ----------

  /** From agreement on, as long as every call is safe and timely, reading the cache is querying the database. */
  lemma CachedReadsAreQueries(ops: seq<Op>, run: seq<Store>, i: nat)
    requires IsRun(ops, run) && Agree(run[0]) && Increasing(run[0].db.txns)
    requires forall k :: 0 <= k < |ops| ==> Safe(run[k].db, ops[k]) && Timely(run[k].db, ops[k])
    requires i < |run|
    ensures Agree(run[i]) && Increasing(run[i].db.txns)
    ensures forall max: nat, ids ::
      LowestPending(PendingRecords(run[i].transactions), max, ids) <==> PendingAnswer(run[i].db.txns, max, ids)
    ensures forall source, dest, status, id :: status != Completed ==>
      (HighestMatch(run[i].transactions, source, dest, Only(status), id) <==>
       FindAnswer(run[i].db.txns, source, dest, Only(status), id))
  {
    RunIncreasing(ops, run, i);
    forall max: nat, ids
      ensures LowestPending(PendingRecords(run[i].transactions), max, ids) <==> PendingAnswer(run[i].db.txns, max, ids)
    {
      PendingAgrees(run[i], max, ids);
    }
    forall source, dest, status, id | status != Completed
      ensures HighestMatch(run[i].transactions, source, dest, Only(status), id) <==>
              FindAnswer(run[i].db.txns, source, dest, Only(status), id)
    {
      FindLive(run[i], source, dest, status, id);
    }
  }

  lemma {:induction false} RunIncreasing(ops: seq<Op>, run: seq<Store>, i: nat)
    requires IsRun(ops, run) && i < |run|
    requires Agree(run[0]) && Increasing(run[0].db.txns)
    requires forall k :: 0 <= k < |ops| ==> Safe(run[k].db, ops[k]) && Timely(run[k].db, ops[k])
    ensures Agree(run[i]) && Increasing(run[i].db.txns)
  {
    if i > 0 {
      RunIncreasing(ops, run, i - 1);
      assert run[i] == Do(run[i - 1], ops[i - 1]);
      StepAgreesIff(run[i - 1], ops[i - 1]);
      StepIncreasingIff(run[i - 1], ops[i - 1]);
    }
  }

  // ---------- the warehouse scan ----------

  predicate Known(s: Store, w: string) {
    w in s.warehouses && w in s.inventory
  }

  ghost predicate ScanAnswer(s: Store, items: Quantities, w: string) {
    || (Known(s, w) && Covers(s.inventory[w], items))
    || (w == "" && forall k :: Known(s, k) ==> !Covers(s.inventory[k], items))
  }

  /**
   Every known id is a warehouse in the table, and every warehouse there is matched by a known one at
   least as well stocked.
   */
  ghost predicate Dominates(s: Store)
    requires Agree(s)
  {
    && (forall k :: Known(s, k) ==> s.db.stock[k].clientType == "WAREHOUSE")
    && (forall v {:trigger Matched(s, v)} :: v in s.db.stock && s.db.stock[v].clientType == "WAREHOUSE" ==>
        Matched(s, v))
  }

  /** Some known warehouse holds at least what v holds. */
  ghost predicate Matched(s: Store, v: string)
    requires InventoryAgrees(s.db.stock, s.inventory) && v in s.db.stock
  {
    exists k :: Known(s, k) && Covers(s.db.stock[k].items, s.db.stock[v].items)
  }

  /**
   The scan answers every request as the SQL query would exactly when the known warehouses dominate the
   stored ones.
   */
  lemma ScanAgreesIff(s: Store)
    requires Agree(s)
    ensures (forall items: Quantities, w :: ScanAnswer(s, items, w) ==> WarehouseAnswer(s.db, items, w)) <==>
      Dominates(s)
  {
    if forall items: Quantities, w :: ScanAnswer(s, items, w) ==> WarehouseAnswer(s.db, items, w) {
      forall k | Known(s, k)
        ensures s.db.stock[k].clientType == "WAREHOUSE"
      {
        assert ScanAnswer(s, s.inventory[k], k);
      }
      forall v | v in s.db.stock && s.db.stock[v].clientType == "WAREHOUSE"
        ensures Matched(s, v)
      {
        var items := s.db.stock[v].items;
        assert Covers(items, items);
        assert !WarehouseAnswer(s.db, items, "");
        assert !ScanAnswer(s, items, "");
      }
    }
    if Dominates(s) {
      forall items: Quantities, w | ScanAnswer(s, items, w)
        ensures WarehouseAnswer(s.db, items, w)
      {
        DominatedScan(s, items, w);
      }
    }
  }

  lemma DominatedScan(s: Store, items: Quantities, w: string)
    requires Agree(s) && Dominates(s) && ScanAnswer(s, items, w)
    ensures WarehouseAnswer(s.db, items, w)
  {
    if w == "" {
      forall v | v in s.db.stock && s.db.stock[v].clientType == "WAREHOUSE"
        ensures !Covers(s.db.stock[v].items, items)
      {
        assert Matched(s, v);
        var k :| Known(s, k) && Covers(s.db.stock[k].items, s.db.stock[v].items);
        assert s.inventory[k] == s.db.stock[k].items;
      }
    }
  }

  // ---------- the store ----------

  class MemoryStore {
    var db: Tables
    var inventory: map<string, Quantities>
    var warehouses: set<string>
    var transactions: map<int, Record>

    ghost function View(): Store
      reads this
    {
      Store(db, inventory, warehouses, transactions)
    }

    constructor (tables: Tables)
      ensures View() == Fresh(tables)
    {
      db := tables;
      inventory, warehouses, transactions := map[], {}, map[];
    }

    /** A successful read gives the stored quantities. */
    method GetInventory(client: string, clientType: string) returns (ok: bool, items: Quantities)
      modifies this
      ensures View() == Do(old(View()), Get(client, clientType))
      ensures ok <==> client in old(inventory) || (client != "" && clientType != "")
      ensures old(Agree(View())) && ok ==> client in db.stock && items == db.stock[client].items
      ensures client in old(inventory) ==> items == old(inventory)[client] && View() == old(View())
      ensures client !in old(inventory) && ok ==>
        && items == (if client in old(db).stock then old(db).stock[client] else Starting(clientType)).items
        && inventory == old(inventory)[client := items]
        && warehouses == old(warehouses) + (if clientType == "WAREHOUSE" then {client} else {})
      ensures old(Agree(View())) && Safe(old(db), Get(client, clientType)) ==> Agree(View())
    {
      if Agree(View()) {
        StepAgreesIff(View(), Get(client, clientType));
      }
      items := Uniform(0);
      if client in inventory {
        return true, inventory[client];
      }
      if client == "" || clientType == "" {
        return false, items;
      }
      EnsuredStock(db, client, clientType);
      db := EnsureInventory(db, client, clientType);
      items := db.stock[client].items;
      inventory := inventory[client := items];
      if clientType == "WAREHOUSE" {
        warehouses := warehouses + {client};
      }
      ok := true;
    }

    method UpdateClientInventory(client: string, clientType: string, items: Quantities)
      modifies this
      ensures View() == Do(old(View()), Update(client, clientType, items))
      ensures inventory == old(inventory)[client := items] && db.txns == old(db).txns
      ensures warehouses == old(warehouses) + (if clientType == "WAREHOUSE" then {client} else {})
      ensures db.stock == if client == "" || clientType == "" then old(db).stock
                          else old(db).stock[client := StockRow(clientType, items)]
      ensures old(Agree(View())) && Safe(old(db), Update(client, clientType, items)) ==> Agree(View())
    {
      if Agree(View()) {
        StepAgreesIff(View(), Update(client, clientType, items));
      }
      inventory := inventory[client := items];
      if clientType == "WAREHOUSE" {
        warehouses := warehouses + {client};
      }
      db := UpdateInventory(db, client, clientType, items);
    }

    method AdjustClientInventory(client: string, items: Quantities, add: bool) returns (rc: int)
      modifies this
      ensures View() == Do(old(View()), Adjust(client, items, add))
      ensures client != "" ==> if add then Credited(old(db).stock, db.stock, client, items)
                               else Debited(old(db).stock, db.stock, client, items)
      ensures inventory.Keys == old(inventory).Keys && warehouses == old(warehouses)
      ensures forall c :: c in inventory && c != client ==> inventory[c] == old(inventory)[c]
      ensures client in inventory ==>
        forall j :: 0 <= j < 6 ==>
          var held := old(inventory)[client][j];
          inventory[client][j] == if add then held + items[j] else if held < items[j] then 0 else held - items[j]
      ensures rc == if client == "" then -1 else 0
      ensures old(Agree(View())) && Safe(old(db), Adjust(client, items, add)) ==> Agree(View())
    {
      if Agree(View()) {
        StepAgreesIff(View(), Adjust(client, items, add));
      }
      if client in inventory {
        var cells := inventory[client];
        for i := 0 to 6
          invariant |cells| == 6
          invariant forall j :: i <= j < 6 ==> cells[j] == inventory[client][j]
          invariant forall j :: 0 <= j < i ==>
            cells[j] == (if add then Plus(inventory[client], items) else Minus(inventory[client], items))[j]
        {
          var n := if add then cells[i] + items[i] else if cells[i] - items[i] < 0 then 0 else cells[i] - items[i];
          cells := cells[i := n];
        }
        assert cells == if add then Plus(inventory[client], items) else Minus(inventory[client], items);
        inventory := inventory[client := cells];
      }
      if client != "" {
        AdjustMoves(db, client, items);
      }
      assert inventory.Keys == old(inventory).Keys;
      db := AdjustInventory(db, client, items, add);
      rc := if client == "" then -1 else 0;
    }

    method CreateNewTransaction(kind: string, dest: string, destType: string, items: Quantities, time: int)
        returns (id: int)
      modifies this`db, this`transactions
      ensures View() == Do(old(View()), Create(kind, dest, destType, items, time))
      ensures kind == "" || dest == "" || destType == "" ==> id == -1
      ensures WellFormed(old(db)) && kind != "" && dest != "" && destType != "" ==>
        && id !in old(db).txns
        && db.txns == old(db).txns[id := Row(kind, "", "", dest, destType, Pending, items, time)]
        && transactions == old(transactions)[id := Record(kind, "", "", dest, destType, Pending, items)]
      ensures old(Agree(View())) && Safe(old(db), Create(kind, dest, destType, items, time)) ==> Agree(View())
    {
      if Agree(View()) {
        StepAgreesIff(View(), Create(kind, dest, destType, items, time));
      }
      var created := CreateTransaction(db, kind, dest, destType, items, time);
      id := created.1;
      if id < 0 {
        return -1;
      }
      db := created.0;
      transactions := transactions[id := Record(kind, "", "", dest, destType, Pending, items)];
    }

    method SetTransactionSource(id: int, source: string, sourceType: string)
      modifies this`db, this`transactions
      ensures View() == Do(old(View()), Source(id, source, sourceType))
      ensures old(Agree(View())) && Safe(old(db), Source(id, source, sourceType)) ==> Agree(View())
    {
      if Agree(View()) {
        StepAgreesIff(View(), Source(id, source, sourceType));
      }
      if id in transactions {
        transactions := transactions[id := transactions[id].(source := source, sourceType := sourceType)];
      }
      db := SetSource(db, id, source, sourceType);
    }

    method MarkTransactionAssigned(id: int)
      modifies this`db, this`transactions
      ensures View() == Do(old(View()), Mark(id, Assigned))
      ensures old(Agree(View())) && Safe(old(db), Mark(id, Assigned)) ==> Agree(View())
    {
      if Agree(View()) {
        StepAgreesIff(View(), Mark(id, Assigned));
      }
      if id in transactions {
        transactions := transactions[id := transactions[id].(status := Assigned)];
      }
      db := SetStatus(db, id, Assigned);
    }

    method MarkTransactionDispatched(id: int)
      modifies this`db, this`transactions
      ensures View() == Do(old(View()), Mark(id, Dispatched))
      ensures old(Agree(View())) && Safe(old(db), Mark(id, Dispatched)) ==> Agree(View())
    {
      if Agree(View()) {
        StepAgreesIff(View(), Mark(id, Dispatched));
      }
      if id in transactions {
        transactions := transactions[id := transactions[id].(status := Dispatched)];
      }
      db := SetStatus(db, id, Dispatched);
    }

    method CompleteTransaction(id: int)
      modifies this`db, this`transactions
      ensures View() == Do(old(View()), Complete(id))
      ensures old(Agree(View())) && Safe(old(db), Complete(id)) ==> Agree(View())
    {
      if Agree(View()) {
        StepAgreesIff(View(), Complete(id));
      }
      transactions := transactions - {id};
      db := SetStatus(db, id, Completed);
    }

    method FindTransaction(source: string, dest: string, wanted: Wanted) returns (best: int)
      ensures HighestMatch(transactions, source, dest, wanted, best)
    {
      best := -1;
      var todo := transactions.Keys;
      while todo != {}
        invariant todo <= transactions.Keys
        invariant best == -1 || (best in transactions && RecordMatches(transactions[best], source, dest, wanted))
        invariant forall k :: k in transactions && k !in todo ==>
          RecordMatches(transactions[k], source, dest, wanted) ==> k <= best
        decreases todo
      {
        SomeMember(todo);
        var id :| id in todo;
        if RecordMatches(transactions[id], source, dest, wanted) && id > best {
          best := id;
        }
        todo := todo - {id};
      }
    }

    method GetPendingTransactions(max: int) returns (ids: seq<int>)
      ensures LowestPending(PendingRecords(transactions), if max < 0 then 0 else max, ids)
    {
      ids := [];
      if max <= 0 {
        return;
      }
      var sorted := SortedIds(PendingRecords(transactions));
      ids := sorted[..if |sorted| < max then |sorted| else max];
      assert forall k :: k in sorted && k !in ids ==> exists i :: |ids| <= i < |sorted| && sorted[i] == k;
    }

    method FindWarehouseWithStock(items: Quantities) returns (w: string)
      ensures ScanAnswer(View(), items, w)
    {
      var candidates := set k | k in warehouses && k in inventory && Covers(inventory[k], items);
      if candidates == {} {
        assert forall k :: Known(View(), k) && Covers(inventory[k], items) ==> k in candidates;
        return "";
      }
      w :| w in candidates;
    }
  }

  /** The ids of a set in increasing order. */
  method SortedIds(ids: set<int>) returns (sorted: seq<int>)
    ensures |sorted| == |ids| && (forall k :: k in ids <==> k in sorted)
    ensures forall i, j :: 0 <= i < j < |sorted| ==> sorted[i] < sorted[j]
  {
    sorted := [];
    var todo := ids;
    while todo != {}
      invariant forall k :: k in ids <==> k in todo || k in sorted
      invariant forall k, i :: k in todo && 0 <= i < |sorted| ==> sorted[i] < k
      invariant forall i, j :: 0 <= i < j < |sorted| ==> sorted[i] < sorted[j]
      invariant |sorted| + |todo| == |ids|
      decreases todo
    {
      LowestExists(todo);
      var k :| k in todo && forall x :: x in todo ==> k <= x;
      todo := todo - {k};
      sorted := sorted + [k];
    }
  }

  lemma {:induction false} LowestExists(ids: set<int>)
    requires ids != {}
    ensures exists k :: k in ids && forall x :: x in ids ==> k <= x
    decreases |ids|
  {
    SomeMember(ids);
    var k :| k in ids;
    var rest := ids - {k};
    assert forall x :: x in ids ==> x == k || x in rest;
    if rest != {} {
      LowestExists(rest);
      var m :| m in rest && forall x :: x in rest ==> m <= x;
      var best := if k <= m then k else m;
      assert best in ids && forall x :: x in ids ==> best <= x;
    }
  }
}
