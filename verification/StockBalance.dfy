/** The stock of a client over a whole run is what came in less what went out. */
module StockBalance {
  import opened InventoryTables
  import opened InventoryLife

  /** Quantity of item j that the event brings to the client. */
  function Incoming(ev: Event, client: string, j: int): int
    requires 0 <= j < 6
  {
    if ev.Receipt? && ev.found >= 0 && ev.client == client then ev.items[j] else 0
  }

  /** Quantity of item j that the event takes from the client. */
  function Outgoing(ev: Event, client: string, j: int): int
    requires 0 <= j < 6
  {
    if ev.Dispatch? && ev.found >= 0 && ev.client == client then ev.items[j]
    else if ev.StockRequest? && ev.hub == client && ev.role != "" then ev.items[j]
    else 0
  }

  /** The event takes from the client. */
  predicate Takes(ev: Event, client: string) {
    (ev.Dispatch? && ev.found >= 0 && ev.client == client) || (ev.StockRequest? && ev.hub == client && ev.role != "")
  }

  /** What the client did not have: subtraction stops at zero. */
  function Shortfall(w: World, ev: Event, client: string, j: int): int
    requires 0 <= j < 6 && client in w.db.stock
  {
    if Takes(ev, client) && w.db.stock[client].items[j] < ev.items[j] then ev.items[j] - w.db.stock[client].items[j]
    else 0
  }

  /** The client reports its stock itself. */
  predicate Reports(ev: Event, client: string) {
    ev.InventoryUpdate? && ev.client == client && ev.role != ""
  }

  /** One event, as the client's stock of item j sees it. */
  ghost predicate StepBalanced(w: World, ev: Event, w': World, client: string, j: int)
    requires client in w.db.stock && 0 <= j < 6
  {
    && client in w'.db.stock
    && w'.db.stock[client].items[j] ==
         w.db.stock[client].items[j] + Incoming(ev, client, j) - Outgoing(ev, client, j) + Shortfall(w, ev, client, j)
  }

  lemma ConfirmationBalances(w: World, ev: Event, client: string, j: int)
    requires Inv(w) && Allowed(w, ev) && (ev.Dispatch? || ev.Receipt?) && client in w.db.stock && 0 <= j < 6
    ensures StepBalanced(w, ev, Effect(w, ev), client, j)
  {
    ConfirmationMovesOnceOrNothing(w, ev);
  }

  lemma RequestBalances(w: World, ev: Event, client: string, j: int)
    requires Inv(w) && ev.StockRequest? && client in w.db.stock && 0 <= j < 6
    ensures StepBalanced(w, ev, Effect(w, ev), client, j)
  {
    RequestMoves(w.db, ev.hub, ev.role, ev.items, ev.time, ev.warehouse);
  }

  lemma OrdersBalance(w: World, ev: Event, client: string, j: int)
    requires Inv(w) && Allowed(w, ev) && (ev.WarehouseOrders? || ev.GatewayOrders?)
    requires client in w.db.stock && 0 <= j < 6
    ensures StepBalanced(w, ev, Effect(w, ev), client, j)
  {
    if ev.GatewayOrders? {
      GatewayKeepsStock(w.db, ev.hub, ev.pending);
    }
  }

  lemma StepBalances(w: World, ev: Event, client: string, j: int)
    requires Inv(w) && Allowed(w, ev) && client in w.db.stock && 0 <= j < 6 && !Reports(ev, client)
    ensures StepBalanced(w, ev, Effect(w, ev), client, j)
  {
    if ev.Dispatch? || ev.Receipt? {
      ConfirmationBalances(w, ev, client, j);
    } else if ev.StockRequest? {
      RequestBalances(w, ev, client, j);
    } else if ev.WarehouseOrders? || ev.GatewayOrders? {
      OrdersBalance(w, ev, client, j);
    }
  }

  lemma GatewayKeepsStock(db: Tables, hub: string, pending: seq<int>)
    requires PendingAnswer(db.txns, MAX_PENDING, pending)
    ensures GatewayOrdersEffect(db, hub, pending).stock ==
      if hub == "" || pending == [] then db.stock else EnsureInventory(db, hub, "HUB").stock
  {
    var db1 := EnsureInventory(db, hub, "HUB");
    if hub != "" && pending != [] {
      BatchPromotes(db1, db1.stock[hub].items, hub, pending, |pending|);
    }
  }

  // ---------- whole runs ----------

  ghost predicate NeverReports(evs: seq<Event>, client: string) {
    forall i :: 0 <= i < |evs| ==> !Reports(evs[i], client)
  }

  function TotalIn(evs: seq<Event>, client: string, j: int, n: nat): int
    requires 0 <= j < 6 && n <= |evs|
  {
    if n == 0 then 0 else TotalIn(evs, client, j, n - 1) + Incoming(evs[n - 1], client, j)
  }

  function TotalOut(evs: seq<Event>, client: string, j: int, n: nat): int
    requires 0 <= j < 6 && n <= |evs|
  {
    if n == 0 then 0 else TotalOut(evs, client, j, n - 1) + Outgoing(evs[n - 1], client, j)
  }

  /** Every debit of the client before step n was covered in item j. */
  ghost predicate AllCovered(evs: seq<Event>, run: seq<World>, client: string, j: int, n: nat)
    requires |run| == |evs| + 1 && n <= |evs| && 0 <= j < 6
  {
    forall i :: 0 <= i < n && Takes(evs[i], client) ==>
      client in run[i].db.stock && evs[i].items[j] <= run[i].db.stock[client].items[j]
  }

  /** Stock is at least the balance, and equal to it exactly when no debit found less than it took. */
  ghost predicate Balanced(evs: seq<Event>, run: seq<World>, client: string, j: int, n: nat)
    requires |run| == |evs| + 1 && n <= |evs| && 0 <= j < 6
    requires client in run[0].db.stock && client in run[n].db.stock
  {
    var balance := run[0].db.stock[client].items[j] + TotalIn(evs, client, j, n) - TotalOut(evs, client, j, n);
    run[n].db.stock[client].items[j] >= balance &&
    (run[n].db.stock[client].items[j] == balance <==> AllCovered(evs, run, client, j, n))
  }

  /**
   In every run, a client that does not report its stock itself holds what it had plus its
   receipts less its dispatches and requests, exactly when each of those was covered.
   */
  lemma {:induction false} StockIsBalance(evs: seq<Event>, run: seq<World>, client: string, j: int, n: nat)
    requires IsRun(evs, run) && n <= |evs| && 0 <= j < 6
    requires client in run[0].db.stock && NeverReports(evs, client)
    ensures client in run[n].db.stock && Balanced(evs, run, client, j, n)
  {
    if n > 0 {
      StockIsBalance(evs, run, client, j, n - 1);
      RunInv(evs, run, n - 1);
      assert StepAt(evs, run, n - 1);
      StepBalances(run[n - 1], evs[n - 1], client, j);
    }
  }
}
