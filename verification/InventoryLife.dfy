/**
 The life of a stock transaction. Each handler is one database transaction (its early exits roll
 back); a serial run is any sequence of them over any persistent tables. A transaction's status
 only moves forward, and it moves goods exactly once in each direction on its way.
 */
module InventoryLife {
  import opened InventoryTables

  /**
   The tables, and as history the transactions that debited their source, those that credited
   their destination, and those that a courier's delivery notice closed.
   */
  datatype World = World(db: Tables, debits: seq<int>, credits: seq<int>, closed: set<int>)

  const ORDER_DISPATCH := "ORDER_DISPATCH"
  const MAX_PENDING := 100

  /**
   A handler call together with the answers its queries received. `NewOrder` is a row that
   enters the table by other means, as gateway orders do; `Delivered` is the courier's notice
   that completes a row directly.
   */
  datatype Event =
    | InventoryUpdate(client: string, role: string, items: Quantities)
    | StockRequest(hub: string, role: string, items: Quantities, time: int, warehouse: string)
    | Replenish(client: string, role: string, items: Quantities, time: int)
    | Dispatch(client: string, items: Quantities, found: int)
    | Receipt(client: string, items: Quantities, found: int)
    | WarehouseOrders(warehouse: string, pending: seq<int>)
    | GatewayOrders(hub: string, pending: seq<int>)
    | NewOrder(kind: string, dest: string, destType: string, items: Quantities, time: int)
    | Delivered(id: int)

  /** The recorded answers are answers the database can give. */
  ghost predicate Allowed(w: World, ev: Event) {
    match ev
    case StockRequest(hub, role, items, time, warehouse) =>
      hub != "" && role != "" ==> WarehouseAnswer(AdjustInventory(w.db, hub, items, false), items, warehouse)
    case Dispatch(client, items, found) => FindAnswer(w.db.txns, client, "", Only(Assigned), found)
    case Receipt(client, items, found) => FindAnswer(w.db.txns, "", client, Only(Dispatched), found)
    case WarehouseOrders(warehouse, pending) => PendingAnswer(w.db.txns, MAX_PENDING, pending)
    case GatewayOrders(hub, pending) => PendingAnswer(w.db.txns, MAX_PENDING, pending)
    case _ => true
  }

  // ---------- effects ----------

  function Assign(db: Tables, id: int, source: string, sourceType: string): Tables {
    SetStatus(SetSource(db, id, source, sourceType), id, Assigned)
  }

  function RequestEffect(db: Tables, hub: string, role: string, items: Quantities, time: int,
                         warehouse: string): Tables
  {
    var (created, id) := CreateTransaction(AdjustInventory(db, hub, items, false), "STOCK_REQUEST", hub, role, items,
                                           time);
    if id < 0 then db
    else if warehouse != "" then Assign(created, id, warehouse, "WAREHOUSE") else created
  }

  function ReplenishEffect(db: Tables, client: string, role: string, items: Quantities, time: int): Tables {
    var (created, id) := CreateTransaction(db, "REPLENISH", client, role, items, time);
    if id < 0 then db else SetStatus(created, id, Dispatched)
  }

  /** The source confirms that goods left: its stock is debited and the transaction is on its way. */
  function DispatchEffect(w: World, client: string, items: Quantities, found: int): World {
    if found < 0 || client == "" then w
    else
      w.(db := SetStatus(AdjustInventory(w.db, client, items, false), found, Dispatched), debits := w.debits + [found])
  }

  /** The destination confirms arrival: its stock is credited and the transaction is over. */
  function ReceiptEffect(w: World, client: string, items: Quantities, found: int): World {
    if found < 0 || client == "" then w
    else
      w.(db := SetStatus(AdjustInventory(w.db, client, items, true), found, Completed), credits := w.credits + [found])
  }

  /** A delivery notice completes the row it names, whatever its status, and moves no stock. */
  function DeliveredEffect(w: World, id: int): World {
    w.(db := SetStatus(w.db, id, Completed),
       closed := if id in w.db.txns && w.db.txns[id].status != Completed then w.closed + {id} else w.closed)
  }

  /** A row that is not a gateway order and that the stock covers. */
  predicate Fits(txns: map<int, Row>, stock: Quantities, id: int) {
    id in txns && txns[id].kind != ORDER_DISPATCH && Covers(stock, txns[id].items)
  }

  /** First of the first n pending rows that is not a gateway order and fits the stock; -1 if none. */
  function FirstFit(txns: map<int, Row>, stock: Quantities, pending: seq<int>, n: nat): int
    requires n <= |pending|
  {
    if n == 0 then -1
    else
      var before := FirstFit(txns, stock, pending, n - 1);
      var id := pending[n - 1];
      if before >= 0 then before
      else if Fits(txns, stock, id) then n - 1
      else -1
  }

  function WarehouseOrdersEffect(db: Tables, warehouse: string, pending: seq<int>): Tables {
    var db1 := EnsureInventory(db, warehouse, "WAREHOUSE");
    if warehouse == "" || pending == [] || warehouse !in db1.stock then db
    else
      var k := FirstFit(db.txns, db1.stock[warehouse].items, pending, |pending|);
      if 0 <= k < |pending| then Assign(db1, pending[k], warehouse, "WAREHOUSE") else db1
  }

  /** State of the loop over gateway orders: tables, stock not promised yet, orders taken. */
  datatype Batch = Batch(db: Tables, left: Quantities, taken: seq<int>)

  function Exactly(a: Quantities, b: Quantities): Quantities {
    seq(6, i requires 0 <= i < 6 => a[i] - b[i])
  }

  function GatewayBatch(db: Tables, stock: Quantities, hub: string, pending: seq<int>, n: nat): Batch
    requires n <= |pending|
  {
    if n == 0 then Batch(db, stock, [])
    else
      var b := GatewayBatch(db, stock, hub, pending, n - 1);
      var id := pending[n - 1];
      if id in db.txns && db.txns[id].kind == ORDER_DISPATCH && Covers(b.left, db.txns[id].items)
      then Batch(Assign(b.db, id, hub, "HUB"), Exactly(b.left, db.txns[id].items), b.taken + [id])
      else b
  }

  function GatewayOrdersEffect(db: Tables, hub: string, pending: seq<int>): Tables {
    var db1 := EnsureInventory(db, hub, "HUB");
    if hub == "" || pending == [] || hub !in db1.stock then db
    else GatewayBatch(db1, db1.stock[hub].items, hub, pending, |pending|).db
  }

  function Effect(w: World, ev: Event): World {
    match ev
    case InventoryUpdate(client, role, items) => w.(db := UpdateInventory(w.db, client, role, items))
    case StockRequest(hub, role, items, time, warehouse) =>
      w.(db := RequestEffect(w.db, hub, role, items, time, warehouse))
    case Replenish(client, role, items, time) => w.(db := ReplenishEffect(w.db, client, role, items, time))
    case Dispatch(client, items, found) => DispatchEffect(w, client, items, found)
    case Receipt(client, items, found) => ReceiptEffect(w, client, items, found)
    case WarehouseOrders(warehouse, pending) => w.(db := WarehouseOrdersEffect(w.db, warehouse, pending))
    case GatewayOrders(hub, pending) => w.(db := GatewayOrdersEffect(w.db, hub, pending))
    case NewOrder(kind, dest, destType, items, time) =>
      w.(db := CreateTransaction(w.db, kind, dest, destType, items, time).0)
    case Delivered(id) => DeliveredEffect(w, id)
  }

  // ---------- the books ----------

  ghost predicate NoRepeats(s: seq<int>) {
    forall i, j :: 0 <= i < j < |s| ==> s[i] != s[j]
  }

  /** On its way or over. */
  predicate Left(row: Row) {
    Rank(row.status) >= 2
  }

  /** Each finished row was credited once or closed; each sourced row that left was debited once, unless closed. */
  ghost predicate Books(txns: map<int, Row>, debits: seq<int>, credits: seq<int>, closed: set<int>) {
    && NoRepeats(debits) && NoRepeats(credits)
    && (forall id :: id in debits ==> id in txns && Left(txns[id]) && txns[id].source != "")
    && (forall id :: id in credits ==> id in txns && txns[id].status == Completed && id !in closed)
    && (forall id :: id in closed ==> id in txns && txns[id].status == Completed)
    && (forall id :: id in txns && txns[id].status == Completed ==> id in credits || id in closed)
    && (forall id :: id in txns && Left(txns[id]) && txns[id].source != "" ==> id in debits || id in closed)
  }

  ghost predicate Inv(w: World) {
    WellFormed(w.db) && Books(w.db.txns, w.debits, w.credits, w.closed)
  }

  /** No transaction disappears, changes what it is about, or moves backwards. */
  ghost predicate Forward(before: map<int, Row>, after: map<int, Row>) {
    forall id :: id in before ==>
      && id in after && Rank(before[id].status) <= Rank(after[id].status)
      && after[id].kind == before[id].kind && after[id].dest == before[id].dest && after[id].items == before[id].items
  }

  /** Rows that left stay as they are; a row that is new may have left only if it has no source. */
  ghost predicate Undisturbed(before: map<int, Row>, after: map<int, Row>) {
    && (forall id :: id in before && Left(before[id]) ==> id in after && after[id] == before[id])
    && (forall id :: id in after && Left(after[id]) ==>
          if id in before then Left(before[id]) else after[id].source == "" && after[id].status == Dispatched)
  }

  /** Rows may be added under new ids only. */
  ghost predicate Grows(db: Tables, db': Tables) {
    && db'.nextId >= db.nextId && Forward(db.txns, db'.txns) && ("" in db'.stock ==> "" in db.stock)
    && (forall id :: id in db'.txns ==> id in db.txns || db.nextId <= id < db'.nextId)
  }

  lemma UndisturbedBooks(before: map<int, Row>, after: map<int, Row>, debits: seq<int>, credits: seq<int>,
                         closed: set<int>)
    requires Books(before, debits, credits, closed) && Undisturbed(before, after)
    ensures Books(after, debits, credits, closed)
  {
  }

  lemma AssignGrows(db: Tables, id: int, source: string, sourceType: string)
    requires id in db.txns ==> db.txns[id].status == Pending
    ensures Grows(db, Assign(db, id, source, sourceType)) &&
      Undisturbed(db.txns, Assign(db, id, source, sourceType).txns)
  {
  }

  lemma RequestGrows(db: Tables, hub: string, role: string, items: Quantities, time: int, warehouse: string)
    requires WellFormed(db)
    ensures var db' := RequestEffect(db, hub, role, items, time, warehouse);
            Grows(db, db') && Undisturbed(db.txns, db'.txns)
  {
    var (created, id) := CreateTransaction(AdjustInventory(db, hub, items, false), "STOCK_REQUEST", hub, role, items,
                                           time);
    if id >= 0 {
      AssignGrows(created, id, warehouse, "WAREHOUSE");
    }
  }

  lemma ReplenishGrows(db: Tables, client: string, role: string, items: Quantities, time: int)
    requires WellFormed(db)
    ensures var db' := ReplenishEffect(db, client, role, items, time);
            Grows(db, db') && Undisturbed(db.txns, db'.txns)
  {
  }

  /** `ids` lists the pending transactions that became assigned to the source, and nothing else changed. */
  ghost predicate Promotes(before: map<int, Row>, after: map<int, Row>, ids: seq<int>, source: string,
                           sourceType: string)
  {
    && after.Keys == before.Keys
    && forall k :: k in before ==>
      && (k in ids ==>
            && before[k].status == Pending
            && after[k] == before[k].(status := Assigned, source := source, sourceType := sourceType))
      && (k !in ids ==> after[k] == before[k])
  }

  lemma {:induction false} BatchPromotes(db: Tables, stock: Quantities, hub: string, pending: seq<int>, n: nat)
    requires n <= |pending| && NoRepeats(pending)
    requires forall i :: 0 <= i < |pending| ==> pending[i] in PendingIds(db.txns)
    ensures var b := GatewayBatch(db, stock, hub, pending, n);
            && Promotes(db.txns, b.db.txns, b.taken, hub, "HUB") && b.db.nextId == db.nextId && b.db.stock == db.stock
            && forall k :: k in b.taken ==> k in pending[..n]
  {
    if n > 0 {
      BatchPromotes(db, stock, hub, pending, n - 1);
      var b := GatewayBatch(db, stock, hub, pending, n - 1);
      assert pending[..n] == pending[..n - 1] + [pending[n - 1]];
    }
  }

  lemma WarehouseOrdersGrows(db: Tables, warehouse: string, pending: seq<int>)
    requires PendingAnswer(db.txns, MAX_PENDING, pending)
    ensures var db' := WarehouseOrdersEffect(db, warehouse, pending);
            Grows(db, db') && Undisturbed(db.txns, db'.txns)
  {
    var db1 := EnsureInventory(db, warehouse, "WAREHOUSE");
    if warehouse != "" && pending != [] && warehouse in db1.stock {
      var k := FirstFit(db.txns, db1.stock[warehouse].items, pending, |pending|);
      if 0 <= k < |pending| {
        AssignGrows(db1, pending[k], warehouse, "WAREHOUSE");
      }
    }
  }

  lemma GatewayOrdersGrows(db: Tables, hub: string, pending: seq<int>)
    requires PendingAnswer(db.txns, MAX_PENDING, pending)
    ensures var db' := GatewayOrdersEffect(db, hub, pending);
            Grows(db, db') && Undisturbed(db.txns, db'.txns)
  {
    var db1 := EnsureInventory(db, hub, "HUB");
    if hub != "" && pending != [] && hub in db1.stock {
      BatchPromotes(db1, db1.stock[hub].items, hub, pending, |pending|);
    }
  }

  /** Confirmations and delivery notices; all other handlers leave rows on their way alone. */
  predicate Moves(ev: Event) {
    ev.Dispatch? || ev.Receipt? || ev.Delivered?
  }

  lemma TableEffectGrows(w: World, ev: Event)
    requires Inv(w) && Allowed(w, ev) && !Moves(ev)
    ensures Grows(w.db, Effect(w, ev).db) && Undisturbed(w.db.txns, Effect(w, ev).db.txns)
    ensures Effect(w, ev) == w.(db := Effect(w, ev).db)
  {
    match ev
    case InventoryUpdate(client, role, items) =>
    case StockRequest(hub, role, items, time, warehouse) => RequestGrows(w.db, hub, role, items, time, warehouse);
    case Replenish(client, role, items, time) => ReplenishGrows(w.db, client, role, items, time);
    case WarehouseOrders(warehouse, pending) => WarehouseOrdersGrows(w.db, warehouse, pending);
    case GatewayOrders(hub, pending) => GatewayOrdersGrows(w.db, hub, pending);
    case NewOrder(kind, dest, destType, items, time) =>
  }

  lemma DeliveredBooks(txns: map<int, Row>, debits: seq<int>, credits: seq<int>, closed: set<int>, id: int)
    requires Books(txns, debits, credits, closed) && id in txns
    ensures Books(txns[id := txns[id].(status := Completed)], debits, credits,
                  if txns[id].status != Completed then closed + {id} else closed)
  {
  }

  lemma DispatchKeepsInv(w: World, client: string, items: Quantities, found: int)
    requires Inv(w) && FindAnswer(w.db.txns, client, "", Only(Assigned), found)
    ensures var w' := DispatchEffect(w, client, items, found);
            Inv(w') && Grows(w.db, w'.db)
  {
    assert found >= 0 && client != "" ==> found !in w.debits;
  }

  lemma ReceiptKeepsInv(w: World, client: string, items: Quantities, found: int)
    requires Inv(w) && FindAnswer(w.db.txns, "", client, Only(Dispatched), found)
    ensures var w' := ReceiptEffect(w, client, items, found);
            Inv(w') && Grows(w.db, w'.db)
  {
    assert found >= 0 && client != "" ==> found !in w.credits;
  }

  lemma DeliveredKeepsInv(w: World, id: int)
    requires Inv(w)
    ensures Inv(DeliveredEffect(w, id)) && Grows(w.db, DeliveredEffect(w, id).db)
  {
    if id in w.db.txns {
      DeliveredBooks(w.db.txns, w.debits, w.credits, w.closed, id);
    }
  }

  /** Every handler keeps the tables well formed and the books exact, and moves no row backwards. */
  lemma EffectKeepsInv(w: World, ev: Event)
    requires Inv(w) && Allowed(w, ev)
    ensures Inv(Effect(w, ev)) && Grows(w.db, Effect(w, ev).db)
  {
    match ev
    case Dispatch(client, items, found) => DispatchKeepsInv(w, client, items, found);
    case Receipt(client, items, found) => ReceiptKeepsInv(w, client, items, found);
    case Delivered(id) => DeliveredKeepsInv(w, id);
    case _ =>
      TableEffectGrows(w, ev);
      UndisturbedBooks(w.db.txns, Effect(w, ev).db.txns, w.debits, w.credits, w.closed);
  }

  // ---------- runs ----------

  /** Any sequence of handler calls, from any tables with exact books. */
  ghost predicate IsRun(evs: seq<Event>, run: seq<World>) {
    && |run| == |evs| + 1 && Inv(run[0])
    && forall i :: 0 <= i < |evs| ==> StepAt(evs, run, i)
  }

  ghost predicate StepAt(evs: seq<Event>, run: seq<World>, i: int)
    requires |run| == |evs| + 1 && 0 <= i < |evs|
  {
    Allowed(run[i], evs[i]) && run[i + 1] == Effect(run[i], evs[i])
  }

  /** The tables outlive the server: whatever rows a run starts from, there are books that fit them. */
  lemma EveryTableHasBooks(db: Tables) returns (w: World)
    requires WellFormed(db)
    ensures w.db == db && Inv(w)
  {
    var debits := Listed(set id | id in db.txns && Left(db.txns[id]) && db.txns[id].source != "");
    var credits := Listed(set id | id in db.txns && db.txns[id].status == Completed);
    w := World(db, debits, credits, {});
  }

  lemma {:induction false} Listed(ids: set<int>) returns (s: seq<int>)
    ensures NoRepeats(s) && forall id :: id in s <==> id in ids
    decreases |ids|
  {
    if ids == {} {
      s := [];
    } else {
      SomeMember(ids);
      var id :| id in ids;
      var rest := Listed(ids - {id});
      s := rest + [id];
      assert forall x :: x in ids <==> x in ids - {id} || x == id;
    }
  }

  lemma {:induction false} RunInv(evs: seq<Event>, run: seq<World>, i: nat)
    requires IsRun(evs, run) && i < |run|
    ensures Inv(run[i])
  {
    if i > 0 {
      RunInv(evs, run, i - 1);
      assert StepAt(evs, run, i - 1);
      EffectKeepsInv(run[i - 1], evs[i - 1]);
    }
  }

  /** In every serial run the status of a transaction only moves forward, and so do the books. */
  lemma {:induction false} StatusMovesForward(evs: seq<Event>, run: seq<World>, i: nat, j: nat)
    requires IsRun(evs, run) && i <= j < |run|
    ensures Forward(run[i].db.txns, run[j].db.txns)
    ensures run[i].debits <= run[j].debits && run[i].credits <= run[j].credits && run[i].closed <= run[j].closed
  {
    if i < j {
      StatusMovesForward(evs, run, i, j - 1);
      StepMovesForward(evs, run, j - 1);
    }
  }

  lemma StepMovesForward(evs: seq<Event>, run: seq<World>, i: nat)
    requires IsRun(evs, run) && i < |evs|
    ensures Forward(run[i].db.txns, run[i + 1].db.txns)
    ensures run[i].debits <= run[i + 1].debits && run[i].credits <= run[i + 1].credits
    ensures run[i].closed <= run[i + 1].closed
  {
    RunInv(evs, run, i);
    assert StepAt(evs, run, i);
    EffectKeepsInv(run[i], evs[i]);
  }

  /**
   In every serial run, however often confirmations are repeated, no transaction debits its source
   or credits its destination twice, and unless a delivery notice closed it, it credited exactly if
   it is completed and debited exactly if it has a source and is dispatched or completed.
   */
  lemma GoodsMoveExactlyOnce(evs: seq<Event>, run: seq<World>, i: nat)
    requires IsRun(evs, run) && i < |run|
    ensures NoRepeats(run[i].debits) && NoRepeats(run[i].credits)
    ensures forall id :: id in run[i].db.txns && id !in run[i].closed ==>
      && (id in run[i].credits <==> run[i].db.txns[id].status == Completed)
      && (id in run[i].debits <==> Left(run[i].db.txns[id]) && run[i].db.txns[id].source != "")
    ensures forall id :: id in run[i].closed ==>
      id in run[i].db.txns && run[i].db.txns[id].status == Completed && id !in run[i].credits
  {
    RunInv(evs, run, i);
  }

  /** Who is debited and credited: the client the transaction names, at the one step from Assigned or Dispatched. */
  lemma GoodsMoveForTheirOwner(evs: seq<Event>, run: seq<World>, i: nat, id: int)
    requires IsRun(evs, run) && i < |evs|
    ensures id in run[i + 1].debits && id !in run[i].debits ==>
      && evs[i].Dispatch? && id in run[i].db.txns && run[i].db.txns[id].source == evs[i].client
      && run[i].db.txns[id].status == Assigned
      && id in run[i + 1].db.txns && run[i + 1].db.txns[id].status == Dispatched
    ensures id in run[i + 1].credits && id !in run[i].credits ==>
      && evs[i].Receipt? && id in run[i].db.txns && run[i].db.txns[id].dest == evs[i].client
      && run[i].db.txns[id].status == Dispatched
      && id in run[i + 1].db.txns && run[i + 1].db.txns[id].status == Completed
  {
    RunInv(evs, run, i);
    assert StepAt(evs, run, i);
  }

  /** A confirmation either moves the named client's stock once and is logged, or changes nothing at all. */
  lemma ConfirmationMovesOnceOrNothing(w: World, ev: Event)
    requires Inv(w) && Allowed(w, ev) && (ev.Dispatch? || ev.Receipt?)
    ensures var w' := Effect(w, ev);
            if ev.found >= 0 && ev.client != "" then
              && ev.found in w.db.txns
              && (ev.Dispatch? ==>
                    && Debited(w.db.stock, w'.db.stock, ev.client, ev.items)
                    && w'.db.txns == w.db.txns[ev.found := w.db.txns[ev.found].(status := Dispatched)]
                    && ev.found !in w.debits && w'.debits == w.debits + [ev.found])
              && (ev.Receipt? ==>
                    && Credited(w.db.stock, w'.db.stock, ev.client, ev.items)
                    && w'.db.txns == w.db.txns[ev.found := w.db.txns[ev.found].(status := Completed)]
                    && ev.found !in w.credits && w'.credits == w.credits + [ev.found])
            else w' == w
  {
    if ev.found >= 0 && ev.client != "" {
      assert ev.Dispatch? ==> w.db.txns[ev.found].status == Assigned;
      assert ev.Receipt? ==> w.db.txns[ev.found].status == Dispatched;
      AdjustMoves(w.db, ev.client, ev.items);
    }
  }

  // ---------- what the other handlers do, written out ----------

  /** The row a stock request leaves: pending, or assigned to the warehouse that was found. */
  function RequestedRow(hub: string, role: string, items: Quantities, time: int, warehouse: string): Row {
    if warehouse == "" then Row("STOCK_REQUEST", "", "", hub, role, Pending, items, time)
    else Row("STOCK_REQUEST", warehouse, "WAREHOUSE", hub, role, Assigned, items, time)
  }

  /** A stock request debits the hub and adds one row; without a hub or role it does nothing. */
  lemma RequestMoves(db: Tables, hub: string, role: string, items: Quantities, time: int, warehouse: string)
    requires WellFormed(db)
    ensures var db' := RequestEffect(db, hub, role, items, time, warehouse);
            if hub == "" || role == "" then db' == db
            else
              && Debited(db.stock, db'.stock, hub, items) && db'.nextId == db.nextId + 1
              && db'.txns == db.txns[db.nextId := RequestedRow(hub, role, items, time, warehouse)]
  {
    if hub != "" && role != "" {
      AdjustMoves(db, hub, items);
    }
  }

  /** An order from elsewhere adds one pending row without a source; an incomplete one adds nothing. */
  lemma OrderMoves(w: World, kind: string, dest: string, destType: string, items: Quantities, time: int)
    ensures var w' := Effect(w, NewOrder(kind, dest, destType, items, time));
            if kind == "" || dest == "" || destType == "" then w' == w
            else
              && w'.db.txns == w.db.txns[w.db.nextId := Row(kind, "", "", dest, destType, Pending, items, time)]
              && w'.db.nextId == w.db.nextId + 1 && w'.db.stock == w.db.stock
              && w'.debits == w.debits && w'.credits == w.credits && w'.closed == w.closed
  {
  }

  /** A replenishment adds one row that is on its way already, and moves no stock. */
  lemma ReplenishMoves(db: Tables, client: string, role: string, items: Quantities, time: int)
    requires WellFormed(db)
    ensures var db' := ReplenishEffect(db, client, role, items, time);
            if client == "" || role == "" then db' == db
            else
              && db'.stock == db.stock && db'.nextId == db.nextId + 1
              && db'.txns == db.txns[db.nextId := Row("REPLENISH", "", "", client, role, Dispatched, items, time)]
  {
  }
}
