/**
 Item lists as they travel in messages: six slots with an item number, a name and a quantity.
 The handlers work on six quantities, one per item, and list them again in their replies.
 */
module ItemLists {
  import opened InventoryTables

  /** One slot; item numbers start at 1 and 0 marks an unused slot. */
  datatype Item = Item(id: int, name: string, quantity: int)

  const NAMES: seq<string> := ["food", "water", "medicine", "tools", "guns", "ammo"]

  // ---------- from a list to quantities ----------

  /** Quantities after the first n slots: a later slot for the same item replaces an earlier one. */
  function QuantitiesOf(items: seq<Item>, n: nat): Quantities
    requires n <= |items|
  {
    if n == 0 then Uniform(0)
    else
      var before, item := QuantitiesOf(items, n - 1), items[n - 1];
      if 1 <= item.id <= 6 then before[item.id - 1 := item.quantity] else before
  }

  method ExtractQuantities(items: seq<Item>) returns (q: Quantities)
    ensures q == QuantitiesOf(items, |items|)
  {
    q := Uniform(0);
    for i := 0 to |items|
      invariant q == QuantitiesOf(items, i)
    {
      var id := items[i].id;
      if 1 <= id <= 6 {
        q := q[id - 1 := items[i].quantity];
      }
    }
  }

  /** The last slot of an item decides its quantity. */
  lemma {:induction false} LastSlotDecides(items: seq<Item>, n: nat, i: nat)
    requires i < n <= |items| && 1 <= items[i].id <= 6
    requires forall k :: i < k < n ==> items[k].id != items[i].id
    ensures QuantitiesOf(items, n)[items[i].id - 1] == items[i].quantity
  {
    if i < n - 1 {
      LastSlotDecides(items, n - 1, i);
    }
  }

  /** An item without a slot has none. */
  lemma {:induction false} NoSlotNoQuantity(items: seq<Item>, n: nat, j: nat)
    requires n <= |items| && j < 6 && forall i :: 0 <= i < n ==> items[i].id != j + 1
    ensures QuantitiesOf(items, n)[j] == 0
  {
    if n > 0 {
      NoSlotNoQuantity(items, n - 1, j);
    }
  }

  /** How many of the first n slots are used. */
  function UsedSlots(items: seq<Item>, n: nat): nat
    requires n <= |items|
  {
    if n == 0 then 0 else UsedSlots(items, n - 1) + if items[n - 1].id != 0 then 1 else 0
  }

  /** The count is the number of slots with an item number. */
  lemma {:induction false} UsedSlotsCount(items: seq<Item>, n: nat)
    requires n <= |items|
    ensures UsedSlots(items, n) == |set i | 0 <= i < n && items[i].id != 0|
  {
    if n > 0 {
      UsedSlotsCount(items, n - 1);
      var before := set i | 0 <= i < n - 1 && items[i].id != 0;
      assert (set i | 0 <= i < n && items[i].id != 0) ==
        if items[n - 1].id != 0 then before + {n - 1} else before;
    }
  }

  method CountUsedSlots(items: seq<Item>) returns (count: nat)
    ensures count == UsedSlots(items, |items|)
  {
    count := 0;
    for i := 0 to |items|
      invariant count == UsedSlots(items, i)
    {
      if items[i].id != 0 {
        count := count + 1;
      }
    }
  }

  // ---------- from quantities to a list ----------

  /** A slot for each of the first n items with a positive quantity, in item order. */
  function ListOf(q: Quantities, n: nat): (items: seq<Item>)
    requires n <= 6
    ensures |items| <= n
  {
    if n == 0 then []
    else ListOf(q, n - 1) + if q[n - 1] > 0 then [Item(n, NAMES[n - 1], q[n - 1])] else []
  }

  /** A list names, in item order, each item it has a positive quantity of, with that quantity. */
  lemma {:induction false} ListedItems(q: Quantities, n: nat, i: nat)
    requires n <= 6 && i < |ListOf(q, n)|
    ensures var item := ListOf(q, n)[i];
            && 1 <= item.id <= n && item.quantity == q[item.id - 1] > 0
            && item.name == ["food", "water", "medicine", "tools", "guns", "ammo"][item.id - 1]
    ensures i > 0 ==> ListOf(q, n)[i - 1].id < ListOf(q, n)[i].id
  {
    if i < |ListOf(q, n - 1)| {
      ListedItems(q, n - 1, i);
    } else if i > 0 {
      ListedItems(q, n - 1, i - 1);
    }
  }

  method ListItems(q: Quantities) returns (items: seq<Item>)
    ensures items == ListOf(q, 6)
  {
    items := [];
    for j := 0 to 6
      invariant items == ListOf(q, j)
    {
      if q[j] > 0 {
        items := items + [Item(j + 1, NAMES[j], q[j])];
      }
    }
  }

  lemma {:induction false} PrefixQuantities(a: seq<Item>, b: seq<Item>, n: nat)
    requires n <= |a|
    ensures QuantitiesOf(a + b, n) == QuantitiesOf(a, n)
  {
    if n > 0 {
      PrefixQuantities(a, b, n - 1);
    }
  }

  lemma {:induction false} ListedQuantities(q: Quantities, n: nat, j: nat)
    requires n <= 6 && j < 6
    ensures QuantitiesOf(ListOf(q, n), |ListOf(q, n)|)[j] == if j < n && q[j] > 0 then q[j] else 0
  {
    if n > 0 {
      ListedQuantities(q, n - 1, j);
      var before := ListOf(q, n - 1);
      if q[n - 1] > 0 {
        PrefixQuantities(before, [Item(n, NAMES[n - 1], q[n - 1])], |before|);
      } else {
        assert ListOf(q, n) == before;
      }
    }
  }

  /** A reply read back gives the quantities it lists, exactly when none of them is negative. */
  lemma RoundTripIff(q: Quantities)
    ensures QuantitiesOf(ListOf(q, 6), |ListOf(q, 6)|) == q <==> forall j :: 0 <= j < 6 ==> q[j] >= 0
  {
    forall j | 0 <= j < 6
      ensures QuantitiesOf(ListOf(q, 6), |ListOf(q, 6)|)[j] == if q[j] > 0 then q[j] else 0
    {
      ListedQuantities(q, 6, j);
    }
  }
}
