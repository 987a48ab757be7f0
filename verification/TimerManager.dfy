/** The timer manager object: the queue's fields, updated in place by the reactor thread. */
module TimerManager {
  import opened TimerQueue

  class Manager {
    var heap: seq<Entry>
    var index: map<Key, nat>
    var timeouts: map<string, int>
    var callbacks: map<string, Callback>
    var armed: Option
    var nextId: nat
    ghost var fired: seq<Firing>
    ghost var removed: set<nat>

    ghost function View(): Timers
      reads this
    {
      Timers(heap, index, timeouts, callbacks, armed, nextId, fired, removed)
    }

    constructor ()
      ensures View() == Empty()
    {
      heap, index, timeouts, callbacks, armed, nextId := [], map[], map[], map[], None, 0;
      fired, removed := [], {};
    }

    method RearmTimerfd(now: int)
      modifies this`armed
      ensures armed == Rearm(heap, now)
      ensures heap == [] ==> armed == None
      ensures heap != [] ==> armed == Some(if heap[0].deadline > now then heap[0].deadline else now + 1)
    {
      if heap == [] {
        armed := None;
        return;
      }
      var delta := heap[0].deadline - now;
      if delta <= 0 {
        armed := Some(now + 1);
      } else {
        armed := Some(now + delta);
      }
    }

    method CancelTimer(key: Key, now: int) returns (found: bool)
      requires Ordered(heap) && Indexed(heap, index)
      modifies this
      ensures found <==> key in old(index)
      ensures View() == Cancel(old(View()), key, now)
    {
      if key !in index {
        return false;
      }
      ghost var e := Located(heap, index, key);
      var p := Find(heap, index[key]);
      removed := removed + {index[key]};
      heap := RemoveAt(heap, p);
      index := index - {key};
      if p == 0 {
        RearmTimerfd(now);
      }
      return true;
    }

    method AddTimer(e: Entry, now: int)
      modifies this
      ensures View() == Added(old(View()), e, now)
      ensures heap != [] && armed == Some(if heap[0].deadline > now then heap[0].deadline else now + 1)
    {
      heap := InsertAt(heap, UpperBound(heap, e.deadline), e);
      index := index[e.key := e.id];
      nextId := nextId + 1;
      RearmTimerfd(now);
    }

    method InsertTimer(key: Key, timeoutSeconds: int, callback: Callback, now: int)
      requires Ordered(heap) && Indexed(heap, index)
      modifies this
      ensures View() == Insert(old(View()), key, timeoutSeconds, callback, now)
      ensures heap != [] && armed == Some(if heap[0].deadline > now then heap[0].deadline else now + 1)
    {
      var found := CancelTimer(key, now);
      AddTimer(Entry(nextId, now + timeoutSeconds * NANOS, key, callback), now);
    }

    method StartAckTimer(session: string, timestamp: string, timeoutSeconds: int, callback: Callback, now: int)
      requires Valid(View(), now)
      modifies this
      ensures View() == Do(old(View()), StartAck(session, timestamp, timeoutSeconds, callback), now)
      ensures Valid(View(), now)
      ensures Replaced(old(heap), heap, Entry(old(nextId), now + timeoutSeconds * 1_000_000_000,
                                              Key(Ack, session, timestamp), callback))
      ensures timeouts == old(timeouts) && callbacks == old(callbacks)
    {
      InsertValid(View(), Key(Ack, session, timestamp), timeoutSeconds, callback, now);
      InsertTimer(Key(Ack, session, timestamp), timeoutSeconds, callback, now);
    }

    method CancelAckTimer(session: string, timestamp: string, now: int) returns (found: bool)
      requires Valid(View(), now)
      modifies this
      ensures found <==> Key(Ack, session, timestamp) in old(index)
      ensures View() == Do(old(View()), CancelAck(session, timestamp), now)
      ensures Valid(View(), now)
      ensures WithoutKey(old(heap), heap, Key(Ack, session, timestamp))
      ensures timeouts == old(timeouts) && callbacks == old(callbacks)
    {
      CancelValid(View(), Key(Ack, session, timestamp), now);
      found := CancelTimer(Key(Ack, session, timestamp), now);
    }

    method CancelKeepaliveTimer(session: string, now: int)
      requires Valid(View(), now)
      modifies this
      ensures View() == Do(old(View()), CancelKa(session), now)
      ensures Valid(View(), now)
      ensures WithoutKey(old(heap), heap, Key(Keepalive, session, ""))
      ensures timeouts == old(timeouts) - {session} && callbacks == old(callbacks) - {session}
    {
      CancelKeepaliveValid(View(), session, now);
      var found := CancelTimer(KeepaliveKey(session), now);
      timeouts := timeouts - {session};
      callbacks := callbacks - {session};
    }

    method StoreKeepalive(session: string, timeoutSeconds: int, callback: Callback)
      modifies this`timeouts, this`callbacks
      ensures View() == Remember(old(View()), session, timeoutSeconds, callback)
      ensures timeouts == old(timeouts)[session := timeoutSeconds] && callbacks == old(callbacks)[session := callback]
    {
      timeouts := timeouts[session := timeoutSeconds];
      callbacks := callbacks[session := callback];
    }

    method StartKeepaliveTimer(session: string, timeoutSeconds: int, callback: Callback, now: int)
      requires Valid(View(), now)
      modifies this
      ensures View() == Do(old(View()), StartKa(session, timeoutSeconds, callback), now)
      ensures Valid(View(), now)
      ensures Replaced(old(heap), heap, Entry(old(nextId), now + timeoutSeconds * 1_000_000_000,
                                              Key(Keepalive, session, ""), callback))
      ensures timeouts == old(timeouts)[session := timeoutSeconds] && callbacks == old(callbacks)[session := callback]
    {
      ghost var t := View();
      CancelKeepaliveTimer(session, now);
      StoreKeepalive(session, timeoutSeconds, callback);
      InsertTimer(KeepaliveKey(session), timeoutSeconds, callback, now);
      ValidAfter(t, StartKa(session, timeoutSeconds, callback), View(), now);
      StartKeepaliveValid(t, session, timeoutSeconds, callback, now);
    }

    method ResetKeepaliveTimer(session: string, now: int)
      requires Valid(View(), now)
      modifies this
      ensures View() == Do(old(View()), ResetKa(session), now)
      ensures Valid(View(), now)
      ensures session in old(timeouts) && session in old(callbacks) ==>
        Replaced(old(heap), heap, Entry(old(nextId), now + old(timeouts)[session] * 1_000_000_000,
                                        Key(Keepalive, session, ""), old(callbacks)[session]))
      ensures session !in old(timeouts) || session !in old(callbacks) ==> View() == old(View())
      ensures timeouts == old(timeouts) && callbacks == old(callbacks)
    {
      ResetKeepaliveValid(View(), session, now);
      if session !in timeouts {
        return;
      }
      if session !in callbacks {
        return;
      }
      InsertTimer(KeepaliveKey(session), timeouts[session], callbacks[session], now);
    }

    method SessionKeys(session: string) returns (keys: seq<Key>)
      ensures ListsSession(index, session, keys)
    {
      keys := [];
      var todo := index.Keys;
      while todo != {}
        invariant todo <= index.Keys
        invariant forall key :: key in keys <==> key in index && key !in todo && key.session == session
        decreases todo
      {
        var key :| key in todo;
        if key.session == session {
          keys := keys + [key];
        }
        todo := todo - {key};
      }
    }

    method CancelKeys(keys: seq<Key>, now: int)
      requires Valid(View(), now)
      modifies this
      ensures View() == CancelAll(old(View()), keys, now)
    {
      ghost var t := View();
      assert keys[..0] == [];
      for i := 0 to |keys|
        invariant View() == CancelAll(t, keys[..i], now)
      {
        assert keys[..i + 1][..i] == keys[..i];
        CancelAllMembers(t, keys[..i], now);
        var found := CancelTimer(keys[i], now);
      }
      assert keys[..|keys|] == keys;
    }

    /** `keys` is the order in which the session's keys were listed and cancelled. */
    method ClearSessionTimers(session: string, now: int) returns (ghost keys: seq<Key>)
      requires Valid(View(), now)
      modifies this
      ensures Legal(old(View()), Clear(session, keys))
      ensures View() == Do(old(View()), Clear(session, keys), now)
      ensures Valid(View(), now)
      ensures WithoutSession(old(heap), heap, session)
      ensures timeouts == old(timeouts) - {session} && callbacks == old(callbacks) - {session}
    {
      var toCancel := SessionKeys(session);
      ClearSessionExact(View(), session, toCancel, now);
      keys := toCancel;
      CancelAllGrows(View(), toCancel, now);
      CancelKeys(toCancel, now);
      ghost var u := View();
      timeouts := timeouts - {session};
      callbacks := callbacks - {session};
      assert View() == Forget(u, session);
    }

    method PopExpired(now: int) returns (toFire: seq<Callback>)
      modifies this`heap, this`index, this`fired
      ensures View() == PopDue(old(View()), now) && toFire == DueCallbacks([], old(heap), now)
    {
      toFire := [];
      while heap != [] && heap[0].deadline <= now
        invariant PopDue(View(), now) == PopDue(old(View()), now)
        invariant DueCallbacks(toFire, heap, now) == DueCallbacks([], old(heap), now)
        decreases |heap|
      {
        ghost var t := View();
        index := index - {heap[0].key};
        fired := fired + [Firing(heap[0].id, heap[0].deadline, now)];
        toFire := toFire + [heap[0].callback];
        heap := heap[1..];
        assert View() == PopFirst(t, now);
      }
    }

    /** The timerfd expired: collects the callbacks of all due timers, to be run in this order. */
    method OnTimerfdReady(now: int) returns (toFire: seq<Callback>)
      modifies this
      ensures View() == Do(old(View()), Tick, now)
      ensures toFire == DueCallbacks([], old(heap), now)
      ensures old(Valid(View(), now)) ==> Valid(View(), now)
      ensures old(Valid(View(), now)) ==>
        forall k :: 0 <= k < |old(heap)| ==> (k < |toFire| <==> old(heap)[k].deadline <= now)
      ensures forall k :: 0 <= k < |toFire| ==> toFire[k] == old(heap)[k].callback
      ensures old(Valid(View(), now)) ==> armed == if heap == [] then None else Some(heap[0].deadline)
      ensures heap == old(heap)[|toFire|..] && timeouts == old(timeouts) && callbacks == old(callbacks)
    {
      ghost var t := View();
      TickTakes(t, now);
      toFire := PopExpired(now);
      ghost var u := View();
      RearmTimerfd(now);
      assert View() == u.(armed := Rearm(u.heap, now));
    }
  }
}
