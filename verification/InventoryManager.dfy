/** The inventory handlers: what each does to the tables and what it reports back. */
module InventoryManager {
  import opened InventoryTables
  import opened InventoryLife
  import opened ItemLists

  // ---------- what the pending loops promise ----------

  /** Sum of item j over the listed transactions. */
  function Total(txns: map<int, Row>, ids: seq<int>, j: int): int
    requires 0 <= j < 6 && forall i :: 0 <= i < |ids| ==> ids[i] in txns
  {
    if ids == [] then 0 else Total(txns, ids[..|ids| - 1], j) + txns[ids[|ids| - 1]].items[j]
  }

  /** A hub never promises more than the stock it had: the orders taken together fit. */
  lemma {:induction false} GatewayNeverOverpromises(db: Tables, stock: Quantities, hub: string, pending: seq<int>,
                                                    n: nat, j: int)
    requires n <= |pending| && 0 <= j < 6
    ensures forall i :: 0 <= i < |GatewayBatch(db, stock, hub, pending, n).taken| ==>
      GatewayBatch(db, stock, hub, pending, n).taken[i] in db.txns
    ensures var b := GatewayBatch(db, stock, hub, pending, n);
            b.left[j] == stock[j] - Total(db.txns, b.taken, j) && (b.taken != [] ==> b.left[j] >= 0)
  {
    if n > 0 {
      GatewayNeverOverpromises(db, stock, hub, pending, n - 1, j);
      var b, id := GatewayBatch(db, stock, hub, pending, n - 1), pending[n - 1];
      assert (b.taken + [id])[..|b.taken|] == b.taken;
    }
  }

  /**
   The gateway orders a hub takes, by sums instead of a running remainder: each order that fits
   together with those taken before it.
   */
  function Greedy(txns: map<int, Row>, stock: Quantities, pending: seq<int>, n: nat): (ids: seq<int>)
    requires n <= |pending|
    ensures forall i :: 0 <= i < |ids| ==> ids[i] in txns
  {
    if n == 0 then []
    else
      var before, id := Greedy(txns, stock, pending, n - 1), pending[n - 1];
      if id in txns && txns[id].kind == "ORDER_DISPATCH" &&
         forall j :: 0 <= j < 6 ==> Total(txns, before, j) + txns[id].items[j] <= stock[j]
      then before + [id]
      else before
  }

  lemma {:induction false} GatewayIsGreedy(db: Tables, stock: Quantities, hub: string, pending: seq<int>, n: nat)
    requires n <= |pending|
    ensures GatewayBatch(db, stock, hub, pending, n).taken == Greedy(db.txns, stock, pending, n)
  {
    if n > 0 {
      GatewayIsGreedy(db, stock, hub, pending, n - 1);
      forall j | 0 <= j < 6
        ensures GatewayBatch(db, stock, hub, pending, n - 1).left[j] ==
                stock[j] - Total(db.txns, Greedy(db.txns, stock, pending, n - 1), j)
      {
        GatewayNeverOverpromises(db, stock, hub, pending, n - 1, j);
      }
    }
  }

  /** A warehouse takes the earliest order that fits, and only that one. */
  lemma {:induction false} FirstFitIsFirst(txns: map<int, Row>, stock: Quantities, pending: seq<int>, n: nat)
    requires n <= |pending|
    ensures var k := FirstFit(txns, stock, pending, n);
            && -1 <= k < n
            && (k >= 0 ==> Fits(txns, stock, pending[k]))
            && forall i :: 0 <= i < (if k >= 0 then k else n) ==> !Fits(txns, stock, pending[i])
  {
    if n > 0 {
      FirstFitIsFirst(txns, stock, pending, n - 1);
    }
  }

  /** `ids` is the earliest listed order that fits the stock, or nothing if none does. */
  ghost predicate EarliestFit(txns: map<int, Row>, stock: Quantities, pending: seq<int>, ids: seq<int>) {
    if ids == [] then forall i :: 0 <= i < |pending| ==> !Fits(txns, stock, pending[i])
    else exists k :: 0 <= k < |pending| && ids == [pending[k]] && FirstAt(txns, stock, pending, k)
  }

  ghost predicate FirstAt(txns: map<int, Row>, stock: Quantities, pending: seq<int>, k: nat)
    requires k < |pending|
  {
    Fits(txns, stock, pending[k]) && forall i :: 0 <= i < k ==> !Fits(txns, stock, pending[i])
  }

  /** Any amount of any item promised to the listed transactions is in stock. */
  ghost predicate FitTogether(txns: map<int, Row>, ids: seq<int>, stock: Quantities) {
    && (forall i :: 0 <= i < |ids| ==> ids[i] in txns)
    && forall j :: 0 <= j < 6 ==> Total(txns, ids, j) <= stock[j]
  }

  /** What one pass over the gateway orders does: it assigns the orders it took, and they fit together. */
  lemma BatchFits(db: Tables, stock: Quantities, hub: string, pending: seq<int>)
    requires NoRepeats(pending) && forall i :: 0 <= i < |pending| ==> pending[i] in PendingIds(db.txns)
    ensures var b := GatewayBatch(db, stock, hub, pending, |pending|);
            && Promotes(db.txns, b.db.txns, b.taken, hub, "HUB") && b.db.stock == db.stock
            && (b.taken != [] ==> FitTogether(db.txns, b.taken, stock))
  {
    BatchPromotes(db, stock, hub, pending, |pending|);
    GatewayNeverOverpromises(db, stock, hub, pending, |pending|, 0);
    forall j | 0 <= j < 6
      ensures var taken := GatewayBatch(db, stock, hub, pending, |pending|).taken;
              taken != [] ==> Total(db.txns, taken, j) <= stock[j]
    {
      GatewayNeverOverpromises(db, stock, hub, pending, |pending|, j);
    }
  }

  ghost predicate SomeMatch(txns: map<int, Row>, source: string, dest: string, status: Status) {
    exists k :: k in txns && Matches(txns[k], source, dest, Only(status))
  }

  /** A shipment notice for goods that already left. */
  ghost predicate RepeatedNotice(txns: map<int, Row>, client: string) {
    SomeMatch(txns, client, "", Dispatched) || SomeMatch(txns, client, "", Completed)
  }

  // ---------- the handlers ----------

  /** What a handler reports back to the message dispatcher. */
  datatype Reply = Reply(id: int, success: bool, warehouseAssigned: bool, warehouse: string, items: seq<Item>,
                         itemCount: nat, requester: string)

  /** The reply for a pending order that was assigned: its quantities listed again. */
  function OrderReply(txns: map<int, Row>, id: int, warehouseAssigned: bool, source: string, requester: string): Reply
    requires id in txns
  {
    var list := ListOf(txns[id].items, 6);
    Reply(id, true, warehouseAssigned, source, list, |list|, requester)
  }

  /** One reply for each order, in order; a warehouse answers to the destination, a hub to itself. */
  ghost predicate RepliesFor(txns: map<int, Row>, replies: seq<Reply>, ids: seq<int>, source: string, hub: bool) {
    && |replies| == |ids|
    && forall k :: 0 <= k < |ids| ==>
      ids[k] in txns && replies[k] == OrderReply(txns, ids[k], !hub, source, if hub then source else txns[ids[k]].dest)
  }

  class Manager {
    var db: Tables
    ghost var debits: seq<int>
    ghost var credits: seq<int>
    ghost var closed: set<int>

    ghost function View(): World
      reads this
    {
      World(db, debits, credits, closed)
    }

    /** Takes up tables that may hold anything a former server left there. */
    constructor (tables: Tables)
      requires WellFormed(tables)
      ensures db == tables && Inv(View())
    {
      db := tables;
      ghost var w := EveryTableHasBooks(tables);
      debits, credits, closed := w.debits, w.credits, w.closed;
    }

    method HandleStockRequest(hub: string, role: string, payload: seq<Item>, time: int) returns (reply: Reply)
      requires Inv(View())
      modifies this`db
      ensures Inv(View())
      ensures var ev := StockRequest(hub, role, QuantitiesOf(payload, |payload|), time, reply.warehouse);
              Allowed(old(View()), ev) && View() == Effect(old(View()), ev)
      ensures reply.success <==> hub != "" && role != ""
      ensures if reply.success then reply.id in db.txns && reply.id !in old(db).txns
              else reply.id == -1 && reply.warehouse == ""
      ensures reply.warehouseAssigned <==> reply.warehouse != ""
      ensures reply.success ==>
        var items := QuantitiesOf(payload, |payload|);
        && Debited(old(db).stock, db.stock, hub, items)
        && db.txns == old(db).txns[reply.id := RequestedRow(hub, role, items, time, reply.warehouse)]
        && (reply.warehouse != "" ==>
              && reply.warehouse in db.stock && db.stock[reply.warehouse].clientType == "WAREHOUSE"
              && forall j :: 0 <= j < 6 ==> items[j] <= db.stock[reply.warehouse].items[j])
        && (reply.warehouse == "" ==>
            forall w :: w in db.stock && db.stock[w].clientType == "WAREHOUSE" ==>
              exists j :: 0 <= j < 6 && db.stock[w].items[j] < items[j])
      ensures !reply.success ==> db == old(db)
      ensures reply.items == payload && reply.itemCount == UsedSlots(payload, |payload|) && reply.requester == hub
    {
      var items := ExtractQuantities(payload);
      var count := CountUsedSlots(payload);
      reply := Reply(-1, false, false, "", payload, count, hub);
      var adjusted := AdjustInventory(db, hub, items, false);
      var created := CreateTransaction(adjusted, "STOCK_REQUEST", hub, role, items, time);
      var txn, id := created.0, created.1;
      if id < 0 {
        return;
      }
      var chosen := WarehouseWithAllStock(txn, items);
      if chosen != "" {
        txn := SetSource(txn, id, chosen, "WAREHOUSE");
        txn := SetStatus(txn, id, Assigned);
      }
      EffectKeepsInv(View(), StockRequest(hub, role, items, time, chosen));
      RequestMoves(db, hub, role, items, time, chosen);
      db := txn;
      reply := Reply(id, true, chosen != "", chosen, payload, count, hub);
    }

    method HandleReplenishRequest(client: string, role: string, payload: seq<Item>, time: int) returns (reply: Reply)
      requires Inv(View())
      modifies this`db
      ensures Inv(View())
      ensures View() == Effect(old(View()), Replenish(client, role, QuantitiesOf(payload, |payload|), time))
      ensures reply.success <==> client != "" && role != ""
      ensures if reply.success then
                && reply.id !in old(db).txns && reply.warehouse == client && db.stock == old(db).stock
                && db.txns == old(db).txns[reply.id := Row("REPLENISH", "", "", client, role, Dispatched,
                                                           QuantitiesOf(payload, |payload|), time)]
              else reply.id == -1 && reply.warehouse == "" && db == old(db)
      ensures reply.warehouseAssigned == reply.success && reply.requester == ""
      ensures reply.items == payload && reply.itemCount == UsedSlots(payload, |payload|)
    {
      var items := ExtractQuantities(payload);
      var count := CountUsedSlots(payload);
      reply := Reply(-1, false, false, "", payload, count, "");
      var created := CreateTransaction(db, "REPLENISH", client, role, items, time);
      var id := created.1;
      if id < 0 {
        return;
      }
      EffectKeepsInv(View(), Replenish(client, role, items, time));
      ReplenishMoves(db, client, role, items, time);
      db := SetStatus(created.0, id, Dispatched);
      reply := Reply(id, true, true, client, payload, count, "");
    }

    /** Result 0 on success, and also for a repeated confirmation; -1 otherwise. */
    method HandleReceiptConfirmation(client: string, payload: seq<Item>) returns (rc: int, ghost found: int)
      requires Inv(View())
      modifies this
      ensures Inv(View())
      ensures var ev := Receipt(client, QuantitiesOf(payload, |payload|), found);
              Allowed(old(View()), ev) && View() == Effect(old(View()), ev)
      ensures rc == if (if found >= 0 then client != "" else SomeMatch(old(db).txns, "", client, Completed))
                    then 0 else -1
      ensures if found >= 0 && client != "" then
                && Credited(old(db).stock, db.stock, client, QuantitiesOf(payload, |payload|))
                && found in old(db).txns
                && db.txns == old(db).txns[found := old(db).txns[found].(status := Completed)]
              else db == old(db)
    {
      var id := FindTransactionId(db.txns, "", client, Only(Dispatched));
      found := id;
      if id < 0 {
        var dup := FindTransactionId(db.txns, "", client, Only(Completed));
        return if dup >= 0 then 0 else -1, found;
      }
      if client == "" {
        return -1, found;
      }
      var items := ExtractQuantities(payload);
      EffectKeepsInv(View(), Receipt(client, items, found));
      ConfirmationMovesOnceOrNothing(View(), Receipt(client, items, found));
      db := SetStatus(AdjustInventory(db, client, items, true), id, Completed);
      credits := credits + [id];
      rc := 0;
    }

    /** Result 0 on success, and also for a repeated confirmation; -1 otherwise. */
    method HandleDispatchConfirmation(client: string, payload: seq<Item>)
        returns (rc: int, outId: int, ghost found: int)
      requires Inv(View())
      modifies this
      ensures Inv(View())
      ensures var ev := Dispatch(client, QuantitiesOf(payload, |payload|), found);
              Allowed(old(View()), ev) && View() == Effect(old(View()), ev)
      ensures rc == if (if found >= 0 then client != "" else SomeMatch(old(db).txns, client, "", Dispatched))
                    then 0 else -1
      ensures outId == if found >= 0 && client != "" then found else -1
      ensures if found >= 0 && client != "" then
                && Debited(old(db).stock, db.stock, client, QuantitiesOf(payload, |payload|))
                && found in old(db).txns
                && db.txns == old(db).txns[found := old(db).txns[found].(status := Dispatched)]
              else db == old(db)
    {
      outId := -1;
      var id := FindTransactionId(db.txns, client, "", Only(Assigned));
      found := id;
      if id < 0 {
        var dup := FindTransactionId(db.txns, client, "", Only(Dispatched));
        return if dup >= 0 then 0 else -1, outId, found;
      }
      if client == "" {
        return -1, outId, found;
      }
      var items := ExtractQuantities(payload);
      EffectKeepsInv(View(), Dispatch(client, items, found));
      ConfirmationMovesOnceOrNothing(View(), Dispatch(client, items, found));
      db := SetStatus(AdjustInventory(db, client, items, false), id, Dispatched);
      debits := debits + [id];
      return 0, id, found;
    }

    /** Moves goods like a dispatch confirmation, but also recognises a notice for a finished transaction. */
    method HandleShipmentNotice(client: string, payload: seq<Item>) returns (reply: Reply, ghost found: int)
      requires Inv(View())
      modifies this
      ensures Inv(View())
      ensures var ev := Dispatch(client, QuantitiesOf(payload, |payload|), found);
              Allowed(old(View()), ev) && View() == Effect(old(View()), ev)
      ensures if found >= 0 && client != "" then
                && Debited(old(db).stock, db.stock, client, QuantitiesOf(payload, |payload|))
                && found in old(db).txns
                && db.txns == old(db).txns[found := old(db).txns[found].(status := Dispatched)]
              else db == old(db)
      ensures reply.success <==> if found >= 0 then client != "" else RepeatedNotice(old(db).txns, client)
      ensures !reply.success ==> reply == Reply(-1, false, false, "", [], 0, "")
      ensures reply.success ==>
        && reply.id in db.txns && Left(db.txns[reply.id]) && (client != "" ==> db.txns[reply.id].source == client)
      ensures reply.success && found < 0 ==> reply == Reply(reply.id, true, false, "", [], 0, "")
      ensures reply.success && found >= 0 ==>
        && reply.id == found && reply.warehouseAssigned && reply.warehouse == client &&
          reply.requester == db.txns[found].dest
        && reply.items == ListOf(QuantitiesOf(payload, |payload|), 6) && reply.itemCount == |reply.items|
    {
      reply := Reply(-1, false, false, "", [], 0, "");
      var id := FindTransactionId(db.txns, client, "", Only(Assigned));
      found := id;
      if id < 0 {
        var dup := FindTransactionId(db.txns, client, "", Only(Dispatched));
        if dup < 0 {
          dup := FindTransactionId(db.txns, client, "", Only(Completed));
        }
        if dup >= 0 {
          reply := Reply(dup, true, false, "", [], 0, "");
        }
        return;
      }
      if client == "" {
        return;
      }
      var items := ExtractQuantities(payload);
      EffectKeepsInv(View(), Dispatch(client, items, found));
      ConfirmationMovesOnceOrNothing(View(), Dispatch(client, items, found));
      db := SetStatus(AdjustInventory(db, client, items, false), id, Dispatched);
      debits := debits + [id];
      var list := ListItems(items);
      reply := Reply(id, true, true, client, list, |list|, db.txns[id].dest);
    }

    /** A courier's notice that a stop was served. */
    method HandleDelivered(id: int)
      requires Inv(View())
      modifies this
      ensures Inv(View())
      ensures View() == if id < 0 then old(View()) else Effect(old(View()), Delivered(id))
      ensures db.stock == old(db).stock
      ensures db.txns == if id in old(db).txns then old(db).txns[id := old(db).txns[id].(status := Completed)]
                         else old(db).txns
    {
      if id < 0 {
        return;
      }
      EffectKeepsInv(View(), Delivered(id));
      if id in db.txns && db.txns[id].status != Completed {
        closed := closed + {id};
      }
      db := SetStatus(db, id, Completed);
    }

    method ProcessPendingOrders(warehouse: string)
      returns (fulfilled: seq<Reply>, ghost ids: seq<int>, ghost answer: seq<int>)
      requires Inv(View())
      modifies this`db
      ensures Inv(View())
      ensures Allowed(old(View()), WarehouseOrders(warehouse, answer))
      ensures View() == Effect(old(View()), WarehouseOrders(warehouse, answer))
      ensures Promotes(old(db).txns, db.txns, ids, warehouse, "WAREHOUSE") && |ids| <= 1
      ensures RepliesFor(old(db).txns, fulfilled, ids, warehouse, false)
      ensures PendingAnswer(old(db).txns, 100, answer)
      ensures ids != [] ==>
        && ids[0] in old(db).txns && old(db).txns[ids[0]].kind != "ORDER_DISPATCH" && warehouse in db.stock
        && forall j :: 0 <= j < 6 ==> old(db).txns[ids[0]].items[j] <= db.stock[warehouse].items[j]
      ensures if warehouse == "" || answer == [] then db == old(db)
              else
                && db.stock == (if warehouse in old(db).stock then old(db).stock
                                else old(db).stock[warehouse := Starting("WAREHOUSE")])
                && EarliestFit(old(db).txns, db.stock[warehouse].items, answer, ids)
    {
      fulfilled, ids := [], [];
      var txn := EnsureInventory(db, warehouse, "WAREHOUSE");
      var pending := GetPendingTransactions(db.txns, MAX_PENDING);
      answer := pending;
      if warehouse == "" || pending == [] {
        return;
      }
      EnsuredStock(db, warehouse, "WAREHOUSE");
      txn, fulfilled, ids := AssignFirstFit(txn, warehouse, pending);
      EffectKeepsInv(View(), WarehouseOrders(warehouse, answer));
      db := txn;
    }

    /** Two database transactions: the new stock, then, for a warehouse, one pending order that now fits. */
    method HandleInventoryUpdate(client: string, role: string, payload: seq<Item>)
      returns (fulfilled: seq<Reply>, ghost ids: seq<int>, ghost answer: seq<int>)
      requires Inv(View())
      modifies this`db
      ensures Inv(View())
      ensures var w := Effect(old(View()), InventoryUpdate(client, role, QuantitiesOf(payload, |payload|)));
              if role == "WAREHOUSE" then
                Allowed(w, WarehouseOrders(client, answer)) && View() == Effect(w, WarehouseOrders(client, answer))
              else View() == w && fulfilled == []
      ensures Promotes(old(db).txns, db.txns, ids, client, "WAREHOUSE") && |ids| <= 1
      ensures RepliesFor(old(db).txns, fulfilled, ids, client, false)
      ensures db.stock == if client == "" || role == "" then old(db).stock
                          else old(db).stock[client := StockRow(role, QuantitiesOf(payload, |payload|))]
      ensures role == "WAREHOUSE" && client != "" && answer != [] ==>
        EarliestFit(old(db).txns, QuantitiesOf(payload, |payload|), answer, ids)
    {
      fulfilled, ids, answer := [], [], [];
      var items := ExtractQuantities(payload);
      EffectKeepsInv(View(), InventoryUpdate(client, role, items));
      db := UpdateInventory(db, client, role, items);
      if role == "WAREHOUSE" {
        fulfilled, ids, answer := ProcessPendingOrders(client);
      }
    }

    method ProcessPendingGatewayOrders(hub: string)
      returns (fulfilled: seq<Reply>, ghost ids: seq<int>, ghost answer: seq<int>)
      requires Inv(View())
      modifies this`db
      ensures Inv(View())
      ensures Allowed(old(View()), GatewayOrders(hub, answer)) &&
        View() == Effect(old(View()), GatewayOrders(hub, answer))
      ensures Promotes(old(db).txns, db.txns, ids, hub, "HUB") && RepliesFor(old(db).txns, fulfilled, ids, hub, true)
      ensures ids != [] ==> hub in db.stock && FitTogether(old(db).txns, ids, db.stock[hub].items)
      ensures PendingAnswer(old(db).txns, 100, answer)
      ensures if hub == "" || answer == [] then db == old(db)
              else
                && db.stock == (if hub in old(db).stock then old(db).stock
                                else old(db).stock[hub := Starting("HUB")])
                && ids == Greedy(old(db).txns, db.stock[hub].items, answer, |answer|)
    {
      fulfilled, ids := [], [];
      var txn := EnsureInventory(db, hub, "HUB");
      var pending := GetPendingTransactions(db.txns, MAX_PENDING);
      answer := pending;
      if hub == "" || pending == [] {
        return;
      }
      ghost var start := txn;
      txn, fulfilled, ids := TakeGatewayOrders(txn, hub, pending);
      EnsuredStock(db, hub, "HUB");
      BatchFits(start, start.stock[hub].items, hub, pending);
      GatewayIsGreedy(start, start.stock[hub].items, hub, pending, |pending|);
      EffectKeepsInv(View(), GatewayOrders(hub, answer));
      db := txn;
    }
  }

  lemma {:induction false} FirstFitStays(txns: map<int, Row>, stock: Quantities, pending: seq<int>, m: nat, n: nat)
    requires m <= n <= |pending| && FirstFit(txns, stock, pending, m) >= 0
    ensures FirstFit(txns, stock, pending, n) == FirstFit(txns, stock, pending, m)
  {
    if m < n {
      FirstFitStays(txns, stock, pending, m, n - 1);
    }
  }

  /** The scan over the pending rows, which stops at the first one that fits. */
  method SearchFirstFit(txns: map<int, Row>, stock: Quantities, pending: seq<int>) returns (k: int)
    requires forall i :: 0 <= i < |pending| ==> pending[i] in txns
    ensures k == FirstFit(txns, stock, pending, |pending|) && -1 <= k < |pending|
  {
    k := 0;
    while k < |pending|
      invariant 0 <= k <= |pending| && FirstFit(txns, stock, pending, k) == -1
    {
      var row := txns[pending[k]];
      if row.kind != ORDER_DISPATCH && Covers(stock, row.items) {
        FirstFitStays(txns, stock, pending, k + 1, |pending|);
        return;
      }
      k := k + 1;
    }
    k := -1;
  }

  /** The search and what follows it: the first order that fits is assigned to the warehouse. */
  method AssignFirstFit(start: Tables, warehouse: string, pending: seq<int>)
    returns (txn: Tables, fulfilled: seq<Reply>, ghost ids: seq<int>)
    requires warehouse in start.stock && forall i :: 0 <= i < |pending| ==> pending[i] in PendingIds(start.txns)
    ensures var k := FirstFit(start.txns, start.stock[warehouse].items, pending, |pending|);
            txn == if 0 <= k < |pending| then Assign(start, pending[k], warehouse, "WAREHOUSE") else start
    ensures Promotes(start.txns, txn.txns, ids, warehouse, "WAREHOUSE") && |ids| <= 1
    ensures EarliestFit(start.txns, start.stock[warehouse].items, pending, ids) && txn.stock == start.stock
    ensures RepliesFor(start.txns, fulfilled, ids, warehouse, false)
  {
    txn, fulfilled, ids := start, [], [];
    var k := SearchFirstFit(start.txns, start.stock[warehouse].items, pending);
    FirstFitIsFirst(start.txns, start.stock[warehouse].items, pending, |pending|);
    if k >= 0 {
      var id := pending[k];
      txn := SetSource(start, id, warehouse, "WAREHOUSE");
      txn := SetStatus(txn, id, Assigned);
      var list := ListItems(start.txns[id].items);
      fulfilled := [Reply(id, true, true, warehouse, list, |list|, start.txns[id].dest)];
      ids := [id];
    }
  }

  /** The pass over the pending rows: takes each gateway order that the stock left over still covers. */
  method TakeGatewayOrders(start: Tables, hub: string, pending: seq<int>)
    returns (txn: Tables, fulfilled: seq<Reply>, ghost ids: seq<int>)
    requires hub in start.stock && forall i :: 0 <= i < |pending| ==> pending[i] in start.txns
    ensures txn == GatewayBatch(start, start.stock[hub].items, hub, pending, |pending|).db
    ensures ids == GatewayBatch(start, start.stock[hub].items, hub, pending, |pending|).taken
    ensures RepliesFor(start.txns, fulfilled, ids, hub, true)
  {
    txn, fulfilled, ids := start, [], [];
    var stock := start.stock[hub].items;
    var left := stock;
    for i := 0 to |pending|
      invariant Batch(txn, left, ids) == GatewayBatch(start, stock, hub, pending, i)
      invariant RepliesFor(start.txns, fulfilled, ids, hub, true)
    {
      var id := pending[i];
      var row := start.txns[id];
      if row.kind == ORDER_DISPATCH && Covers(left, row.items) {
        txn := SetSource(txn, id, hub, "HUB");
        txn := SetStatus(txn, id, Assigned);
        left := Exactly(left, row.items);
        var list := ListItems(row.items);
        fulfilled := fulfilled + [Reply(id, true, false, hub, list, |list|, hub)];
        ids := ids + [id];
      }
    }
  }

  /** Any warehouse whose stock covers the request, or the empty string. */
  method WarehouseWithAllStock(db: Tables, items: Quantities) returns (warehouse: string)
    requires "" !in db.stock
    ensures WarehouseAnswer(db, items, warehouse)
  {
    var warehouses := set w | w in db.stock && db.stock[w].clientType == "WAREHOUSE";
    var candidates := set w | w in warehouses && Covers(db.stock[w].items, items);
    if candidates == {} {
      assert forall w :: w in warehouses && Covers(db.stock[w].items, items) ==> w in candidates;
      assert forall w :: w in db.stock && db.stock[w].clientType == "WAREHOUSE" ==> w in warehouses;
      return "";
    }
    warehouse :| warehouse in candidates;
  }
}
