/**
 The two inventory tables of the server's database and the statements issued on them. A table
 is a map from primary keys to rows; a statement is a function from tables to tables.
 */
module InventoryTables {

  /** Food, water, medicine, tools, guns, ammo. */
  type Quantities = q: seq<int> | |q| == 6 witness [0, 0, 0, 0, 0, 0]

  datatype Status = Pending | Assigned | Dispatched | Completed

  /** Position in the life of a transaction. */
  function Rank(s: Status): nat {
    match s
    case Pending => 0
    case Assigned => 1
    case Dispatched => 2
    case Completed => 3
  }

  /** A row of inventory_transactions; an absent source is the empty string. */
  datatype Row = Row(kind: string, source: string, sourceType: string, dest: string, destType: string,
                     status: Status, items: Quantities, orderTime: int)

  /** A row of client_inventory. */
  datatype StockRow = StockRow(clientType: string, items: Quantities)

  datatype Tables = Tables(stock: map<string, StockRow>, txns: map<int, Row>, nextId: int)

  /** What the database itself guarantees: keys are not empty, and ids are handed out in order. */
  ghost predicate WellFormed(db: Tables) {
    && db.nextId >= 1 && "" !in db.stock
    && (forall id :: id in db.txns ==> 1 <= id < db.nextId)
  }

  // ---------- quantities ----------

  function Uniform(n: int): Quantities {
    [n, n, n, n, n, n]
  }

  function Plus(a: Quantities, b: Quantities): Quantities {
    seq(6, i requires 0 <= i < 6 => a[i] + b[i])
  }

  /** Subtraction that stops at zero. */
  function Minus(a: Quantities, b: Quantities): Quantities {
    seq(6, i requires 0 <= i < 6 => if a[i] - b[i] < 0 then 0 else a[i] - b[i])
  }

  predicate Covers(stock: Quantities, wanted: Quantities) {
    forall i :: 0 <= i < 6 ==> wanted[i] <= stock[i]
  }

  // ---------- statements ----------

  /** Inserts or overwrites; refused for an empty client or type. */
  function UpdateInventory(db: Tables, client: string, clientType: string, items: Quantities): Tables {
    if client == "" || clientType == "" then db else db.(stock := db.stock[client := StockRow(clientType, items)])
  }

  function InitialStock(clientType: string): int {
    if clientType == "WAREHOUSE" then 500 else 100
  }

  /** Reading the stock of an unknown client first gives it an initial row. */
  function EnsureInventory(db: Tables, client: string, clientType: string): Tables {
    if client == "" || clientType == "" || client in db.stock then db
    else db.(stock := db.stock[client := StockRow(clientType, Uniform(InitialStock(clientType)))])
  }

  /** An update of a client without a row changes nothing; an empty client is refused. */
  function AdjustInventory(db: Tables, client: string, items: Quantities, add: bool): Tables {
    if client == "" || client !in db.stock then db
    else
      var row := db.stock[client];
      db.(stock := db.stock[client := row.(items := if add then Plus(row.items, items) else Minus(row.items, items))])
  }

  function CreateTransaction(db: Tables, kind: string, dest: string, destType: string, items: Quantities,
                             time: int): (Tables, int)
  {
    if kind == "" || dest == "" || destType == "" then (db, -1)
    else
      var row := Row(kind, "", "", dest, destType, Pending, items, time);
      (db.(txns := db.txns[db.nextId := row], nextId := db.nextId + 1), db.nextId)
  }

  function SetSource(db: Tables, id: int, source: string, sourceType: string): Tables {
    if id in db.txns then db.(txns := db.txns[id := db.txns[id].(source := source, sourceType := sourceType)]) else db
  }

  function SetStatus(db: Tables, id: int, status: Status): Tables {
    if id in db.txns then db.(txns := db.txns[id := db.txns[id].(status := status)]) else db
  }

  // ---------- what the statements mean ----------

  /** No other client's row differs, and the client's own keeps its type. */
  ghost predicate OthersKept(stock: map<string, StockRow>, stock': map<string, StockRow>, client: string) {
    && stock'.Keys == stock.Keys && (forall c :: c in stock && c != client ==> stock'[c] == stock[c])
    && (client in stock ==> stock'[client].clientType == stock[client].clientType)
  }

  /** The client, if it has a row, holds that much more of every item. */
  ghost predicate Credited(stock: map<string, StockRow>, stock': map<string, StockRow>, client: string,
                           items: Quantities)
  {
    && OthersKept(stock, stock', client)
    && (client in stock ==>
        forall j :: 0 <= j < 6 ==> stock'[client].items[j] == stock[client].items[j] + items[j])
  }

  /** The client, if it has a row, holds that much less of every item, or none where it had less. */
  ghost predicate Debited(stock: map<string, StockRow>, stock': map<string, StockRow>, client: string,
                          items: Quantities)
  {
    && OthersKept(stock, stock', client)
    && (client in stock ==>
        forall j :: 0 <= j < 6 ==>
          stock'[client].items[j] ==
            if stock[client].items[j] < items[j] then 0 else stock[client].items[j] - items[j])
  }

  lemma AdjustMoves(db: Tables, client: string, items: Quantities)
    requires client != ""
    ensures Credited(db.stock, AdjustInventory(db, client, items, true).stock, client, items)
    ensures Debited(db.stock, AdjustInventory(db, client, items, false).stock, client, items)
  {
    assert db.stock.Keys == AdjustInventory(db, client, items, true).stock.Keys;
    assert db.stock.Keys == AdjustInventory(db, client, items, false).stock.Keys;
  }

  /** What an unknown client starts with: 500 of every item for a warehouse, 100 for any other. */
  function Starting(clientType: string): StockRow {
    StockRow(clientType, if clientType == "WAREHOUSE" then [500, 500, 500, 500, 500, 500]
                         else [100, 100, 100, 100, 100, 100])
  }

  lemma EnsuredStock(db: Tables, client: string, clientType: string)
    requires client != "" && clientType != ""
    ensures EnsureInventory(db, client, clientType) ==
      db.(stock := if client in db.stock then db.stock else db.stock[client := Starting(clientType)])
  {
  }

  // ---------- queries ----------

  /** The status a search asks for; an empty status string asks for any. */
  datatype Wanted = AnyStatus | Only(status: Status)

  predicate StatusFits(status: Status, wanted: Wanted) {
    wanted.AnyStatus? || status == wanted.status
  }

  predicate Matches(row: Row, source: string, dest: string, wanted: Wanted) {
    (source != "" ==> row.source == source) && (dest != "" ==> row.dest == dest) && StatusFits(row.status, wanted)
  }

  /** Answers of: the matching row with the latest order time (any of them on a tie), or -1. */
  ghost predicate FindAnswer(txns: map<int, Row>, source: string, dest: string, wanted: Wanted, id: int) {
    if id == -1 then
      forall k :: k in txns ==> !Matches(txns[k], source, dest, wanted)
    else
      && id in txns && Matches(txns[id], source, dest, wanted)
      && forall k :: k in txns && Matches(txns[k], source, dest, wanted) ==> txns[k].orderTime <= txns[id].orderTime
  }

  function PendingIds(txns: map<int, Row>): set<int> {
    set k | k in txns && txns[k].status == Pending
  }

  /** Answers of: at most `max` pending rows, earliest order time first (ties in any order). */
  ghost predicate PendingAnswer(txns: map<int, Row>, max: nat, ids: seq<int>) {
    && (forall i :: 0 <= i < |ids| ==> ids[i] in PendingIds(txns))
    && (forall i, j :: 0 <= i < j < |ids| ==> ids[i] != ids[j] && txns[ids[i]].orderTime <= txns[ids[j]].orderTime)
    && |ids| == (if |PendingIds(txns)| < max then |PendingIds(txns)| else max)
    && (forall k, i :: k in PendingIds(txns) && k !in ids && 0 <= i < |ids| ==>
        txns[ids[i]].orderTime <= txns[k].orderTime)
  }

  /** Answers of: some warehouse whose stock covers the request, or the empty string. */
  ghost predicate WarehouseAnswer(db: Tables, items: Quantities, warehouse: string) {
    if warehouse == "" then
      forall w :: w in db.stock && db.stock[w].clientType == "WAREHOUSE" ==> !Covers(db.stock[w].items, items)
    else
      warehouse in db.stock && db.stock[warehouse].clientType == "WAREHOUSE" && Covers(db.stock[warehouse].items, items)
  }

  /** Among finitely many rows one has the extreme order time. */
  lemma {:induction false} LatestExists(txns: map<int, Row>, ids: set<int>)
    requires ids != {} && ids <= txns.Keys
    ensures exists k :: k in ids && forall x :: x in ids ==> txns[x].orderTime <= txns[k].orderTime
    decreases |ids|
  {
    SomeMember(ids);
    var k :| k in ids;
    var rest := ids - {k};
    assert forall x :: x in ids ==> x == k || x in rest;
    if rest != {} {
      LatestExists(txns, rest);
      var m :| m in rest && forall x :: x in rest ==> txns[x].orderTime <= txns[m].orderTime;
      var best := if txns[k].orderTime <= txns[m].orderTime then m else k;
      assert best in ids && forall x :: x in ids ==> txns[x].orderTime <= txns[best].orderTime;
    }
  }

  lemma {:induction false} EarliestExists(txns: map<int, Row>, ids: set<int>)
    requires ids != {} && ids <= txns.Keys
    ensures exists k :: k in ids && forall x :: x in ids ==> txns[k].orderTime <= txns[x].orderTime
    decreases |ids|
  {
    SomeMember(ids);
    var k :| k in ids;
    var rest := ids - {k};
    assert forall x :: x in ids ==> x == k || x in rest;
    if rest != {} {
      EarliestExists(txns, rest);
      var m :| m in rest && forall x :: x in rest ==> txns[m].orderTime <= txns[x].orderTime;
      var best := if txns[m].orderTime <= txns[k].orderTime then m else k;
      assert best in ids && forall x :: x in ids ==> txns[best].orderTime <= txns[x].orderTime;
    }
  }

  lemma SomeMember(s: set<int>)
    ensures s == {} || exists k :: k in s
  {
    if forall k :: k !in s {
      assert s == {};
    }
  }

  method FindTransactionId(txns: map<int, Row>, source: string, dest: string, wanted: Wanted) returns (id: int)
    requires -1 !in txns
    ensures FindAnswer(txns, source, dest, wanted, id)
  {
    var matching := set k | k in txns && Matches(txns[k], source, dest, wanted);
    if matching == {} {
      assert forall k :: k in txns && Matches(txns[k], source, dest, wanted) ==> k in matching;
      return -1;
    }
    LatestExists(txns, matching);
    id :| id in matching && forall k :: k in matching ==> txns[k].orderTime <= txns[id].orderTime;
  }

  /** `ids` lists the earliest pending rows; the rest is still in `todo`. */
  ghost predicate Taken(txns: map<int, Row>, ids: seq<int>, todo: set<int>) {
    && (forall k :: k in PendingIds(txns) <==> k in todo || k in ids)
    && (forall i :: 0 <= i < |ids| ==> ids[i] !in todo)
    && (forall i, j :: 0 <= i < j < |ids| ==> ids[i] != ids[j])
    && |ids| + |todo| == |PendingIds(txns)|
  }

  ghost predicate Chronological(txns: map<int, Row>, ids: seq<int>, todo: set<int>)
    requires (forall i :: 0 <= i < |ids| ==> ids[i] in txns) && todo <= txns.Keys
  {
    && (forall i, j :: 0 <= i < j < |ids| ==> txns[ids[i]].orderTime <= txns[ids[j]].orderTime)
    && (forall k, i :: k in todo && 0 <= i < |ids| ==> txns[ids[i]].orderTime <= txns[k].orderTime)
  }

  /** The earliest row still to do is listed next. */
  lemma TakeEarliest(txns: map<int, Row>, ids: seq<int>, todo: set<int>, k: int)
    requires Taken(txns, ids, todo) && k in todo
    ensures Taken(txns, ids + [k], todo - {k})
  {
    var ids', todo' := ids + [k], todo - {k};
    assert ids'[|ids|] == k;
    forall x | x in PendingIds(txns)
      ensures x in todo' || x in ids'
    {
      assert x in ids ==> exists i :: 0 <= i < |ids| && ids[i] == x && ids'[i] == x;
    }
  }

  lemma EarliestIsNext(txns: map<int, Row>, ids: seq<int>, todo: set<int>, k: int)
    requires (forall i :: 0 <= i < |ids| ==> ids[i] in txns) && todo <= txns.Keys
    requires Chronological(txns, ids, todo) && k in todo
    requires forall x :: x in todo ==> txns[k].orderTime <= txns[x].orderTime
    ensures Chronological(txns, ids + [k], todo - {k})
  {
  }

  lemma TakenIsAnswer(txns: map<int, Row>, max: nat, ids: seq<int>, todo: set<int>)
    requires |ids| <= max && Taken(txns, ids, todo) && (todo == {} || |ids| == max)
    requires forall i :: 0 <= i < |ids| ==> ids[i] in PendingIds(txns)
    requires todo <= PendingIds(txns) && Chronological(txns, ids, todo)
    ensures PendingAnswer(txns, max, ids)
  {
  }

  method GetPendingTransactions(txns: map<int, Row>, max: nat) returns (ids: seq<int>)
    ensures PendingAnswer(txns, max, ids)
  {
    ids := [];
    var todo := PendingIds(txns);
    while todo != {} && |ids| < max
      invariant |ids| <= max && Taken(txns, ids, todo)
      invariant forall i :: 0 <= i < |ids| ==> ids[i] in PendingIds(txns)
      invariant todo <= PendingIds(txns) && Chronological(txns, ids, todo)
      decreases todo
    {
      EarliestExists(txns, todo);
      var k :| k in todo && forall x :: x in todo ==> txns[k].orderTime <= txns[x].orderTime;
      TakeEarliest(txns, ids, todo, k);
      EarliestIsNext(txns, ids, todo, k);
      todo := todo - {k};
      ids := ids + [k];
    }
    TakenIsAnswer(txns, max, ids, todo);
  }
}
