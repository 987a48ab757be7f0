/**
 The timer manager as a value: an ordered multimap of deadlines, a reverse index from keys to
 its entries, stored keepalive settings, and the one armed timerfd. Times are nanoseconds.
 */
module TimerQueue {

  datatype Kind = Ack | Keepalive

  datatype Key = Key(kind: Kind, session: string, sub: string)

  /**
   What the reactor asks to be called back for. `chain` is history: it numbers the tracked
   message whose acknowledgement is awaited.
   */
  datatype Callback =
    | AckTimeout(session: string, timerKey: string, payload: string, retry: nat, maxRetries: nat, chain: nat)
    | KeepaliveTimeout(session: string)

  /** One entry of the multimap; `id` stands for the iterator that the index stores. */
  datatype Entry = Entry(id: nat, deadline: int, key: Key, callback: Callback)

  datatype Option = None | Some(value: int)

  /** A timer instance that fired: which one, what it was due, when it happened. */
  datatype Firing = Firing(id: nat, deadline: int, time: int)

  /**
   `fired` and `removed` record history: the instances that fired, in order, and those that
   were cancelled or replaced. Instances are numbered in the order of insertion.
   */
  datatype Timers = Timers(
    heap: seq<Entry>,
    index: map<Key, nat>,
    timeouts: map<string, int>,
    callbacks: map<string, Callback>,
    armed: Option,
    nextId: nat,
    fired: seq<Firing>,
    removed: set<nat>)

  const NANOS := 1_000_000_000

  function Empty(): Timers {
    Timers([], map[], map[], map[], None, 0, [], {})
  }

  // ---------- the multimap ----------

  ghost predicate Sorted(heap: seq<Entry>) {
    forall i, j :: 0 <= i < j < |heap| ==> heap[i].deadline <= heap[j].deadline
  }

  ghost predicate DistinctIds(heap: seq<Entry>) {
    forall i, j :: 0 <= i < j < |heap| ==> heap[i].id != heap[j].id
  }

  ghost predicate Ordered(heap: seq<Entry>) {
    Sorted(heap) && DistinctIds(heap)
  }

  /** Where a new deadline goes: behind all entries that are due no later. */
  function UpperBound(heap: seq<Entry>, deadline: int): (p: nat)
    ensures p <= |heap|
    ensures Sorted(heap) ==> forall i :: 0 <= i < |heap| ==> (i < p <==> heap[i].deadline <= deadline)
  {
    if heap == [] || heap[0].deadline > deadline then 0 else 1 + UpperBound(heap[1..], deadline)
  }

  function InsertAt(heap: seq<Entry>, p: nat, e: Entry): seq<Entry>
    requires p <= |heap|
  {
    heap[..p] + [e] + heap[p..]
  }

  function RemoveAt(heap: seq<Entry>, p: nat): seq<Entry>
    requires p < |heap|
  {
    heap[..p] + heap[p + 1..]
  }

  /** Position of the entry an iterator refers to; the length if there is none. */
  function Find(heap: seq<Entry>, id: nat): (p: nat)
    ensures p <= |heap| && (p < |heap| ==> heap[p].id == id)
    ensures forall i :: 0 <= i < p ==> heap[i].id != id
  {
    if heap == [] then 0 else if heap[0].id == id then 0 else 1 + Find(heap[1..], id)
  }

  // ---------- operations ----------

  /** Expiry set by timerfd_settime: the first deadline, or one nanosecond from now when it has passed. */
  function Rearm(heap: seq<Entry>, now: int): Option {
    if heap == [] then None
    else if heap[0].deadline - now <= 0 then Some(now + 1) else Some(heap[0].deadline)
  }

  function Cancel(t: Timers, key: Key, now: int): Timers {
    if key !in t.index || Find(t.heap, t.index[key]) >= |t.heap| then t
    else
      var p := Find(t.heap, t.index[key]);
      var heap := RemoveAt(t.heap, p);
      t.(heap := heap, index := t.index - {key}, removed := t.removed + {t.index[key]},
         armed := if p == 0 then Rearm(heap, now) else t.armed)
  }

  /** `e` takes its place in the multimap and the index, and the timerfd is re-armed. */
  function Added(t: Timers, e: Entry, now: int): Timers {
    var heap := InsertAt(t.heap, UpperBound(t.heap, e.deadline), e);
    t.(heap := heap, index := t.index[e.key := e.id], nextId := t.nextId + 1, armed := Rearm(heap, now))
  }

  function Insert(t: Timers, key: Key, timeout: int, callback: Callback, now: int): Timers {
    var u := Cancel(t, key, now);
    Added(u, Entry(u.nextId, now + timeout * NANOS, key, callback), now)
  }

  function KeepaliveKey(session: string): Key {
    Key(Keepalive, session, "")
  }

  function Forget(t: Timers, session: string): Timers {
    t.(timeouts := t.timeouts - {session}, callbacks := t.callbacks - {session})
  }

  function CancelKeepalive(t: Timers, session: string, now: int): Timers {
    Forget(Cancel(t, KeepaliveKey(session), now), session)
  }

  function Remember(t: Timers, session: string, timeout: int, callback: Callback): Timers {
    t.(timeouts := t.timeouts[session := timeout], callbacks := t.callbacks[session := callback])
  }

  function StartKeepalive(t: Timers, session: string, timeout: int, callback: Callback, now: int): Timers {
    Insert(Remember(CancelKeepalive(t, session, now), session, timeout, callback), KeepaliveKey(session), timeout,
           callback, now)
  }

  function ResetKeepalive(t: Timers, session: string, now: int): Timers {
    if session !in t.timeouts || session !in t.callbacks then t
    else Insert(t, KeepaliveKey(session), t.timeouts[session], t.callbacks[session], now)
  }

  /** Cancels the listed keys one after the other. */
  function CancelAll(t: Timers, keys: seq<Key>, now: int): Timers {
    if keys == [] then t else Cancel(CancelAll(t, keys[..|keys| - 1], now), keys[|keys| - 1], now)
  }

  /** `keys` lists, in some order, the keys of one session. */
  ghost predicate ListsSession(index: map<Key, nat>, session: string, keys: seq<Key>) {
    forall key :: key in keys <==> key in index && key.session == session
  }

  function ClearSession(t: Timers, session: string, keys: seq<Key>, now: int): Timers {
    Forget(CancelAll(t, keys, now), session)
  }

  function PopFirst(t: Timers, now: int): Timers
    requires t.heap != []
  {
    var e := t.heap[0];
    t.(heap := t.heap[1..], index := t.index - {e.key}, fired := t.fired + [Firing(e.id, e.deadline, now)])
  }

  /** Pops the entries that are due; their callbacks are to be run, in this order. */
  function PopDue(t: Timers, now: int): Timers
    decreases |t.heap|
  {
    if t.heap == [] || t.heap[0].deadline > now then t else PopDue(PopFirst(t, now), now)
  }

  /** `acc`, then the callbacks of the entries that are due, earliest first. */
  function DueCallbacks(acc: seq<Callback>, heap: seq<Entry>, now: int): (cs: seq<Callback>)
    ensures |cs| == |acc| + UpperBound(heap, now) && acc <= cs
    ensures forall k :: |acc| <= k < |cs| ==> cs[k] == heap[k - |acc|].callback
    decreases |heap|
  {
    if heap == [] || heap[0].deadline > now then acc else DueCallbacks(acc + [heap[0].callback], heap[1..], now)
  }

  function Expire(t: Timers, now: int): Timers {
    var u := PopDue(t, now);
    u.(armed := Rearm(u.heap, now))
  }

  // ---------- invariant ----------

  /** Index and multimap describe the same timers; as ids are distinct, there is one per key. */
  ghost predicate Indexed(heap: seq<Entry>, index: map<Key, nat>) {
    && (forall e :: e in heap ==> e.key in index && index[e.key] == e.id)
    && (forall key :: key in index ==> HasKey(heap, key))
  }

  ghost predicate HasKey(heap: seq<Entry>, key: Key) {
    exists e :: e in heap && e.key == key
  }

  /** A keepalive entry belongs to its session and has the settings it was started with on record. */
  ghost predicate Stored(e: Entry, callbacks: map<string, Callback>) {
    e.key.kind.Keepalive? ==>
      e.key == KeepaliveKey(e.key.session) && e.key.session in callbacks && callbacks[e.key.session] == e.callback
  }

  ghost predicate KeepalivesStored(heap: seq<Entry>, timeouts: map<string, int>, callbacks: map<string, Callback>) {
    timeouts.Keys == callbacks.Keys && forall e :: e in heap ==> Stored(e, callbacks)
  }

  /** The timerfd expires with the earliest deadline, or at once when that deadline has passed. */
  ghost predicate ArmedForEarliest(heap: seq<Entry>, armed: Option, now: int) {
    && (armed == None <==> heap == [])
    && (heap != [] ==> heap[0].deadline <= armed.value <= if heap[0].deadline > now + 1 then heap[0].deadline
        else now + 1)
  }

  ghost predicate HasFired(fired: seq<Firing>, id: nat) {
    exists f :: f in fired && f.id == id
  }

  ghost predicate IsLive(heap: seq<Entry>, id: nat) {
    exists e :: e in heap && e.id == id
  }

  /** No instance is live, fired or removed twice over; none fired early. */
  ghost predicate FatesExclusive(heap: seq<Entry>, nextId: nat, fired: seq<Firing>, removed: set<nat>) {
    && (forall e :: e in heap ==> e.id < nextId && e.id !in removed && !HasFired(fired, e.id))
    && (forall f :: f in fired ==> f.id < nextId && f.id !in removed && f.deadline <= f.time)
    && (forall j, k :: 0 <= j < k < |fired| ==> fired[j].id != fired[k].id)
    && (forall id :: id in removed ==> id < nextId)
  }

  ghost predicate Accounted(heap: seq<Entry>, nextId: nat, fired: seq<Firing>, removed: set<nat>) {
    forall id: nat :: id < nextId ==> id in removed || IsLive(heap, id) || HasFired(fired, id)
  }

  ghost predicate Consistent(t: Timers) {
    && Ordered(t.heap) && Indexed(t.heap, t.index) && KeepalivesStored(t.heap, t.timeouts, t.callbacks)
    && FatesExclusive(t.heap, t.nextId, t.fired, t.removed) && Accounted(t.heap, t.nextId, t.fired, t.removed)
  }

  ghost predicate Valid(t: Timers, now: int) {
    Consistent(t) && ArmedForEarliest(t.heap, t.armed, now)
  }

  // ---------- members of the multimap ----------

  lemma RemoveMembers(heap: seq<Entry>, p: nat)
    requires Ordered(heap) && p < |heap|
    ensures Ordered(RemoveAt(heap, p))
    ensures forall e :: e in RemoveAt(heap, p) <==> e in heap && e.id != heap[p].id
  {
    var r := RemoveAt(heap, p);
    forall i | 0 <= i < |r|
      ensures r[i] == heap[if i < p then i else i + 1]
    {
    }
    forall e | e in heap && e.id != heap[p].id
      ensures e in r
    {
      var i :| 0 <= i < |heap| && heap[i] == e;
      assert e == r[if i < p then i else i - 1];
    }
  }

  lemma InsertMembers(heap: seq<Entry>, p: nat, e: Entry)
    requires p <= |heap|
    ensures forall x :: x in InsertAt(heap, p, e) <==> x in heap || x == e
  {
    var h := InsertAt(heap, p, e);
    forall x | x in heap
      ensures x in h
    {
      var i :| 0 <= i < |heap| && heap[i] == x;
      assert x == h[if i < p then i else i + 1];
    }
    assert h[p] == e;
  }

  lemma InsertAtIndex(heap: seq<Entry>, p: nat, e: Entry, i: nat)
    requires p <= |heap| && i <= |heap|
    ensures InsertAt(heap, p, e)[i] == if i < p then heap[i] else if i == p then e else heap[i - 1]
  {
  }

  lemma InsertOrdered(heap: seq<Entry>, e: Entry)
    requires Ordered(heap) && forall i :: 0 <= i < |heap| ==> heap[i].id != e.id
    ensures Ordered(InsertAt(heap, UpperBound(heap, e.deadline), e))
  {
    var p := UpperBound(heap, e.deadline);
    var h := InsertAt(heap, p, e);
    forall i, j | 0 <= i < j < |h|
      ensures h[i].deadline <= h[j].deadline && h[i].id != h[j].id
    {
      InsertAtIndex(heap, p, e, i);
      InsertAtIndex(heap, p, e, j);
    }
  }

  lemma SameIdSameEntry(heap: seq<Entry>, e: Entry, f: Entry)
    requires DistinctIds(heap) && e in heap && f in heap && e.id == f.id
    ensures e == f
  {
    var i :| 0 <= i < |heap| && heap[i] == e;
    var j :| 0 <= j < |heap| && heap[j] == f;
    assert i == j;
  }

  /** The index leads to the one entry with that key. */
  lemma Located(heap: seq<Entry>, index: map<Key, nat>, key: Key) returns (e: Entry)
    requires Ordered(heap) && Indexed(heap, index) && key in index
    ensures Find(heap, index[key]) < |heap| && heap[Find(heap, index[key])] == e
    ensures e in heap && e.key == key && e.id == index[key]
  {
    assert HasKey(heap, key);
    e :| e in heap && e.key == key;
    var i :| 0 <= i < |heap| && heap[i] == e;
    SameIdSameEntry(heap, heap[Find(heap, index[key])], e);
  }

  // ---------- removing one entry ----------

  /** Taking one entry out, as the multimap and the index see it. */
  lemma OutStored(heap: seq<Entry>, rest: seq<Entry>, index: map<Key, nat>, e: Entry)
    requires Ordered(heap) && Indexed(heap, index) && e in heap
    requires forall x :: x in rest <==> x in heap && x.id != e.id
    ensures Indexed(rest, index - {e.key})
    ensures forall x :: x in rest <==> x in heap && x.key != e.key
  {
    forall x | x in heap
      ensures x.id == e.id <==> x.key == e.key
    {
      if x.id == e.id {
        SameIdSameEntry(heap, x, e);
      }
    }
    forall key | key in index - {e.key}
      ensures HasKey(rest, key)
    {
      assert HasKey(heap, key);
      var x :| x in heap && x.key == key;
      assert x in rest;
    }
  }

  lemma OutLive(heap: seq<Entry>, rest: seq<Entry>, e: Entry)
    requires forall x :: x in rest <==> x in heap && x.id != e.id
    ensures forall id: nat :: IsLive(heap, id) && id != e.id ==> IsLive(rest, id)
  {
    forall id: nat | IsLive(heap, id) && id != e.id
      ensures IsLive(rest, id)
    {
      var x :| x in heap && x.id == id;
      assert x in rest;
    }
  }

  /** A cancelled key loses its entry; every other entry stays. */
  lemma CancelMembers(t: Timers, key: Key, now: int)
    requires Ordered(t.heap) && Indexed(t.heap, t.index)
    ensures var u := Cancel(t, key, now);
            && Ordered(u.heap) && Indexed(u.heap, u.index)
            && (forall e :: e in u.heap <==> e in t.heap && e.key != key)
            && u.index == t.index - {key}
  {
    if key in t.index {
      var e := Located(t.heap, t.index, key);
      var p := Find(t.heap, t.index[key]);
      RemoveMembers(t.heap, p);
      OutStored(t.heap, RemoveAt(t.heap, p), t.index, e);
    } else {
      assert t.index - {key} == t.index;
    }
  }

  /** An entry that leaves the heap joins the removed ones. */
  lemma OutFates(heap: seq<Entry>, rest: seq<Entry>, e: Entry, nextId: nat, fired: seq<Firing>, removed: set<nat>)
    requires FatesExclusive(heap, nextId, fired, removed) && Accounted(heap, nextId, fired, removed) && e in heap
    requires forall x :: x in rest <==> x in heap && x.id != e.id
    requires forall id: nat :: IsLive(heap, id) && id != e.id ==> IsLive(rest, id)
    ensures FatesExclusive(rest, nextId, fired, removed + {e.id}) && Accounted(rest, nextId, fired, removed + {e.id})
  {
  }

  lemma CancelFates(t: Timers, key: Key, now: int)
    requires Consistent(t)
    ensures var u := Cancel(t, key, now);
            && FatesExclusive(u.heap, u.nextId, u.fired, u.removed)
            && Accounted(u.heap, u.nextId, u.fired, u.removed)
  {
    if key in t.index {
      var e := Located(t.heap, t.index, key);
      var p := Find(t.heap, t.index[key]);
      RemoveMembers(t.heap, p);
      OutLive(t.heap, RemoveAt(t.heap, p), e);
      OutFates(t.heap, RemoveAt(t.heap, p), e, t.nextId, t.fired, t.removed);
    }
  }

  /** The first deadline changes only if the first entry goes, and then the timerfd is re-armed. */
  lemma CancelArmed(t: Timers, key: Key, now: int)
    requires Valid(t, now)
    ensures ArmedForEarliest(Cancel(t, key, now).heap, Cancel(t, key, now).armed, now)
  {
    if key in t.index {
      var e := Located(t.heap, t.index, key);
      var p := Find(t.heap, t.index[key]);
      assert p > 0 ==> RemoveAt(t.heap, p)[0] == t.heap[0];
    }
  }

  /** `after` holds the entries of `before` but those with the key. */
  ghost predicate WithoutKey(before: seq<Entry>, after: seq<Entry>, key: Key) {
    forall e :: e in after <==> e in before && e.key != key
  }

  /** `after` holds the entries of `before`, with `e` in the place of those with the same key. */
  ghost predicate Replaced(before: seq<Entry>, after: seq<Entry>, e: Entry) {
    forall x :: x in after <==> (x in before && x.key != e.key) || x == e
  }

  /** `after` holds the entries of `before` but those of the session. */
  ghost predicate WithoutSession(before: seq<Entry>, after: seq<Entry>, session: string) {
    forall e :: e in after <==> e in before && e.key.session != session
  }

  /** The stored keepalive settings are the same. */
  ghost predicate SameSettings(t: Timers, u: Timers) {
    u.timeouts == t.timeouts && u.callbacks == t.callbacks
  }

  /** Cancelling keeps the queue consistent, although it re-arms only when the first entry went. */
  lemma CancelValid(t: Timers, key: Key, now: int)
    requires Valid(t, now)
    ensures Valid(Cancel(t, key, now), now)
    ensures WithoutKey(t.heap, Cancel(t, key, now).heap, key)
    ensures key !in Cancel(t, key, now).index
    ensures SameSettings(t, Cancel(t, key, now)) && Cancel(t, key, now).nextId == t.nextId
  {
    CancelMembers(t, key, now);
    CancelFates(t, key, now);
    CancelArmed(t, key, now);
  }

  // ---------- inserting ----------

  lemma AddedMembers(t: Timers, e: Entry, now: int)
    requires Consistent(t) && e.id == t.nextId
    ensures Ordered(Added(t, e, now).heap)
    ensures forall x :: x in Added(t, e, now).heap <==> x in t.heap || x == e
  {
    forall i | 0 <= i < |t.heap|
      ensures t.heap[i].id != e.id
    {
      assert t.heap[i] in t.heap;
    }
    InsertOrdered(t.heap, e);
    InsertMembers(t.heap, UpperBound(t.heap, e.deadline), e);
  }

  lemma AddedIndexed(t: Timers, e: Entry, now: int)
    requires Consistent(t) && e.id == t.nextId && e.key !in t.index
    ensures Indexed(Added(t, e, now).heap, Added(t, e, now).index)
  {
    AddedMembers(t, e, now);
    var u := Added(t, e, now);
    forall key | key in u.index
      ensures HasKey(u.heap, key)
    {
      if key == e.key {
        assert e in u.heap;
      } else {
        assert HasKey(t.heap, key);
        var x :| x in t.heap && x.key == key;
        assert x in u.heap;
      }
    }
  }

  lemma AddedAccounted(t: Timers, e: Entry, now: int)
    requires Consistent(t) && e.id == t.nextId
    ensures Accounted(Added(t, e, now).heap, t.nextId + 1, t.fired, t.removed)
  {
    AddedMembers(t, e, now);
    var heap := Added(t, e, now).heap;
    forall id: nat | id < t.nextId + 1
      ensures id in t.removed || IsLive(heap, id) || HasFired(t.fired, id)
    {
      if id == t.nextId {
        assert e in heap;
      } else if IsLive(t.heap, id) {
        var x :| x in t.heap && x.id == id;
        assert x in heap;
      }
    }
  }

  lemma AddedFates(t: Timers, e: Entry, now: int)
    requires Consistent(t) && e.id == t.nextId
    ensures FatesExclusive(Added(t, e, now).heap, t.nextId + 1, t.fired, t.removed)
  {
    AddedMembers(t, e, now);
  }

  /** Inserting keeps the queue consistent and replaces only the timer of the same key. */
  lemma InsertValid(t: Timers, key: Key, timeout: int, callback: Callback, now: int)
    requires Valid(t, now) && Stored(Entry(0, 0, key, callback), t.callbacks)
    ensures Valid(Insert(t, key, timeout, callback, now), now)
    ensures Replaced(t.heap, Insert(t, key, timeout, callback, now).heap,
                     Entry(t.nextId, now + timeout * NANOS, key, callback))
    ensures SameSettings(t, Insert(t, key, timeout, callback, now))
    ensures Insert(t, key, timeout, callback, now).nextId == t.nextId + 1
  {
    CancelValid(t, key, now);
    var u := Cancel(t, key, now);
    var e := Entry(u.nextId, now + timeout * NANOS, key, callback);
    AddedMembers(u, e, now);
    AddedIndexed(u, e, now);
    AddedFates(u, e, now);
    AddedAccounted(u, e, now);
  }

  // ---------- keepalives ----------

  /** The new entry is there, due after its timeout. */
  lemma InsertedEntry(t: Timers, key: Key, timeout: int, callback: Callback, now: int)
    ensures Entry(t.nextId, now + timeout * NANOS, key, callback) in Insert(t, key, timeout, callback, now).heap
  {
    var u, e := Cancel(t, key, now), Entry(t.nextId, now + timeout * NANOS, key, callback);
    var p := UpperBound(u.heap, e.deadline);
    assert InsertAt(u.heap, p, e)[p] == e;
  }

  /** Settings of a session without a keepalive entry can go. */
  lemma ForgetValid(t: Timers, session: string, now: int)
    requires Valid(t, now) && forall e :: e in t.heap ==> e.key != KeepaliveKey(session)
    ensures Valid(Forget(t, session), now)
  {
    var u := Forget(t, session);
    assert u.timeouts.Keys == t.timeouts.Keys - {session} && u.callbacks.Keys == t.callbacks.Keys - {session};
  }

  lemma CancelKeepaliveValid(t: Timers, session: string, now: int)
    requires Valid(t, now)
    ensures Valid(CancelKeepalive(t, session, now), now)
    ensures WithoutKey(t.heap, CancelKeepalive(t, session, now).heap, Key(Keepalive, session, ""))
    ensures CancelKeepalive(t, session, now).timeouts == t.timeouts - {session}
    ensures CancelKeepalive(t, session, now).callbacks == t.callbacks - {session}
  {
    CancelValid(t, KeepaliveKey(session), now);
    ForgetValid(Cancel(t, KeepaliveKey(session), now), session, now);
  }

  lemma StartKeepaliveValid(t: Timers, session: string, timeout: int, callback: Callback, now: int)
    requires Valid(t, now)
    ensures Valid(StartKeepalive(t, session, timeout, callback, now), now)
    ensures Replaced(t.heap, StartKeepalive(t, session, timeout, callback, now).heap,
                     Entry(t.nextId, now + timeout * NANOS, Key(Keepalive, session, ""), callback))
    ensures StartKeepalive(t, session, timeout, callback, now).timeouts == t.timeouts[session := timeout]
    ensures StartKeepalive(t, session, timeout, callback, now).callbacks == t.callbacks[session := callback]
  {
    StartKeepaliveFacts(t, session, timeout, callback, now);
    CancelKeepaliveValid(t, session, now);
    var u := CancelKeepalive(t, session, now);
    var v := u.(timeouts := u.timeouts[session := timeout], callbacks := u.callbacks[session := callback]);
    assert v.timeouts.Keys == u.timeouts.Keys + {session} && v.callbacks.Keys == u.callbacks.Keys + {session};
    assert forall e :: e in v.heap ==> Stored(e, v.callbacks);
    InsertValid(v, KeepaliveKey(session), timeout, callback, now);
  }

  lemma StartKeepaliveFacts(t: Timers, session: string, timeout: int, callback: Callback, now: int)
    ensures var u := StartKeepalive(t, session, timeout, callback, now);
            && u.fired == t.fired && t.removed <= u.removed && u.nextId == t.nextId + 1
            && u.callbacks == t.callbacks[session := callback] && u.timeouts == t.timeouts[session := timeout]
  {
  }

  lemma ResetKeepaliveValid(t: Timers, session: string, now: int)
    requires Valid(t, now)
    ensures Valid(ResetKeepalive(t, session, now), now)
    ensures session in t.timeouts && session in t.callbacks ==>
      Replaced(t.heap, ResetKeepalive(t, session, now).heap,
               Entry(t.nextId, now + t.timeouts[session] * NANOS, Key(Keepalive, session, ""), t.callbacks[session]))
    ensures SameSettings(t, ResetKeepalive(t, session, now))
    ensures session !in t.timeouts || session !in t.callbacks ==> ResetKeepalive(t, session, now) == t
  {
    if session in t.timeouts && session in t.callbacks {
      InsertValid(t, KeepaliveKey(session), t.timeouts[session], t.callbacks[session], now);
    }
  }

  // ---------- clearing a session ----------

  lemma {:induction false} CancelAllMembers(t: Timers, keys: seq<Key>, now: int)
    requires Valid(t, now)
    ensures Valid(CancelAll(t, keys, now), now)
    ensures forall e :: e in CancelAll(t, keys, now).heap <==> e in t.heap && e.key !in keys
  {
    if keys != [] {
      var init, last := keys[..|keys| - 1], keys[|keys| - 1];
      CancelAllMembers(t, init, now);
      CancelValid(CancelAll(t, init, now), last, now);
      assert keys == init + [last];
    }
  }

  /** Clearing a session removes its timers and settings and touches no other timer. */
  lemma ClearSessionExact(t: Timers, session: string, keys: seq<Key>, now: int)
    requires Valid(t, now) && ListsSession(t.index, session, keys)
    ensures Valid(ClearSession(t, session, keys, now), now)
    ensures WithoutSession(t.heap, ClearSession(t, session, keys, now).heap, session)
    ensures ClearSession(t, session, keys, now).timeouts == t.timeouts - {session}
    ensures ClearSession(t, session, keys, now).callbacks == t.callbacks - {session}
  {
    CancelAllGrows(t, keys, now);
    CancelAllMembers(t, keys, now);
    ForgetValid(CancelAll(t, keys, now), session, now);
  }

  // ---------- expiry ----------

  lemma PopFirstMembers(t: Timers, now: int)
    requires Consistent(t) && t.heap != []
    ensures Ordered(PopFirst(t, now).heap) && Indexed(PopFirst(t, now).heap, PopFirst(t, now).index)
    ensures forall x :: x in PopFirst(t, now).heap <==> x in t.heap && x.id != t.heap[0].id
  {
    assert t.heap[1..] == RemoveAt(t.heap, 0);
    RemoveMembers(t.heap, 0);
    OutStored(t.heap, t.heap[1..], t.index, t.heap[0]);
  }

  lemma PopFirstFates(t: Timers, now: int)
    requires Consistent(t) && t.heap != [] && t.heap[0].deadline <= now
    ensures var u := PopFirst(t, now);
            && FatesExclusive(u.heap, u.nextId, u.fired, u.removed)
            && Accounted(u.heap, u.nextId, u.fired, u.removed)
  {
    PopFirstMembers(t, now);
    var e, u := t.heap[0], PopFirst(t, now);
    assert e in t.heap;
    FiredNext(t.fired, Firing(e.id, e.deadline, now));
    OutLive(t.heap, u.heap, e);
  }

  lemma FiredNext(fired: seq<Firing>, f: Firing)
    requires !HasFired(fired, f.id) && forall j, k :: 0 <= j < k < |fired| ==> fired[j].id != fired[k].id
    ensures var fired' := fired + [f];
            && (forall x :: x in fired' <==> x in fired || x == f)
            && (forall id: nat :: HasFired(fired', id) <==> HasFired(fired, id) || id == f.id)
            && (forall j, k :: 0 <= j < k < |fired'| ==> fired'[j].id != fired'[k].id)
  {
    var fired' := fired + [f];
    assert f in fired';
    forall id: nat
      ensures HasFired(fired', id) <==> HasFired(fired, id) || id == f.id
    {
      if HasFired(fired, id) {
        var x :| x in fired && x.id == id;
        assert x in fired';
      }
    }
    forall j | 0 <= j < |fired|
      ensures fired[j].id != f.id
    {
      assert fired[j] in fired;
    }
  }

  /** `fired`, continued by the first p entries in order. */
  function FiredAfter(fired: seq<Firing>, heap: seq<Entry>, p: nat, now: int): (fs: seq<Firing>)
    requires p <= |heap|
    ensures |fs| == |fired| + p && fired <= fs
    ensures forall k :: |fired| <= k < |fs| ==> fs[k] == Firing(heap[k - |fired|].id, heap[k - |fired|].deadline, now)
    decreases p
  {
    if p == 0 then fired
    else FiredAfter(fired + [Firing(heap[0].id, heap[0].deadline, now)], heap[1..], p - 1, now)
  }

  lemma {:induction false} PopDueContents(t: Timers, now: int)
    ensures PopDue(t, now).heap == t.heap[UpperBound(t.heap, now)..]
    ensures PopDue(t, now).fired == FiredAfter(t.fired, t.heap, UpperBound(t.heap, now), now)
    decreases |t.heap|
  {
    if t.heap != [] && t.heap[0].deadline <= now {
      PopDueContents(PopFirst(t, now), now);
    }
  }

  lemma {:induction false} PopDueConsistent(t: Timers, now: int)
    requires Consistent(t)
    ensures Consistent(PopDue(t, now))
    decreases |t.heap|
  {
    if t.heap != [] && t.heap[0].deadline <= now {
      PopFirstMembers(t, now);
      PopFirstFates(t, now);
      PopDueConsistent(PopFirst(t, now), now);
    }
  }

  /** One tick fires exactly the timers that are due, in the order of their deadlines, and re-arms. */
  lemma ExpireExact(t: Timers, now: int)
    requires Valid(t, now)
    ensures Valid(Expire(t, now), now)
    ensures SameSettings(t, Expire(t, now)) && Expire(t, now).nextId == t.nextId
    ensures Expire(t, now).removed == t.removed
    ensures Expire(t, now).heap == t.heap[UpperBound(t.heap, now)..]
    ensures Expire(t, now).fired == FiredAfter(t.fired, t.heap, UpperBound(t.heap, now), now)
    ensures forall i :: 0 <= i < |t.heap| ==> (i < UpperBound(t.heap, now) <==> t.heap[i].deadline <= now)
  {
    PopDueContents(t, now);
    PopDueConsistent(t, now);
    PopDueGrows(t, now);
  }

  /** What a tick takes and leaves, and when the timerfd expires next. */
  lemma TickTakes(t: Timers, now: int)
    ensures var n, u := UpperBound(t.heap, now), Expire(t, now);
            && u.heap == t.heap[n..] && SameSettings(t, u)
            && (Valid(t, now) ==>
                  && Valid(u, now) && u.armed == (if u.heap == [] then None else Some(u.heap[0].deadline))
                  && forall k :: 0 <= k < |t.heap| ==> (k < n <==> t.heap[k].deadline <= now))
  {
    PopDueContents(t, now);
    PopDueGrows(t, now);
    if Valid(t, now) {
      ExpireExact(t, now);
    }
  }

  // ---------- runs ----------

  /** The operations the reactor performs; `keys` is the order in which a session's keys were listed. */
  datatype Op =
    | StartAck(session: string, sub: string, timeout: int, callback: Callback)
    | CancelAck(session: string, sub: string)
    | StartKa(session: string, timeout: int, callback: Callback)
    | ResetKa(session: string)
    | CancelKa(session: string)
    | Clear(session: string, keys: seq<Key>)
    | Tick

  ghost predicate Legal(t: Timers, op: Op) {
    op.Clear? ==> ListsSession(t.index, op.session, op.keys)
  }

  function Do(t: Timers, op: Op, now: int): Timers {
    match op
    case StartAck(session, sub, timeout, callback) => Insert(t, Key(Ack, session, sub), timeout, callback, now)
    case CancelAck(session, sub) => Cancel(t, Key(Ack, session, sub), now)
    case StartKa(session, timeout, callback) => StartKeepalive(t, session, timeout, callback, now)
    case ResetKa(session) => ResetKeepalive(t, session, now)
    case CancelKa(session) => CancelKeepalive(t, session, now)
    case Clear(session, keys) => ClearSession(t, session, keys, now)
    case Tick => Expire(t, now)
  }

  /** Operations at non-decreasing times, from the empty queue. */
  ghost predicate IsRun(ops: seq<Op>, times: seq<int>, run: seq<Timers>) {
    && |run| == |ops| + 1 == |times| + 1 && run[0] == Empty()
    && (forall i, j :: 0 <= i <= j < |times| ==> times[i] <= times[j])
    && (forall i :: 0 <= i < |ops| ==> StepAt(ops, times, run, i))
  }

  ghost predicate StepAt(ops: seq<Op>, times: seq<int>, run: seq<Timers>, i: int)
    requires |run| == |ops| + 1 == |times| + 1 && 0 <= i < |ops|
  {
    Legal(run[i], ops[i]) && run[i + 1] == Do(run[i], ops[i], times[i])
  }

  lemma DoValid(t: Timers, op: Op, now: int)
    requires Valid(t, now) && Legal(t, op)
    ensures Valid(Do(t, op, now), now)
  {
    match op
    case StartAck(session, sub, timeout, callback) => InsertValid(t, Key(Ack, session, sub), timeout, callback, now);
    case CancelAck(session, sub) => CancelValid(t, Key(Ack, session, sub), now);
    case StartKa(session, timeout, callback) => StartKeepaliveValid(t, session, timeout, callback, now);
    case ResetKa(session) => ResetKeepaliveValid(t, session, now);
    case CancelKa(session) => CancelKeepaliveValid(t, session, now);
    case Clear(session, keys) => ClearSessionExact(t, session, keys, now);
    case Tick => ExpireExact(t, now);
  }

  lemma ValidAfter(t: Timers, op: Op, u: Timers, now: int)
    requires Valid(t, now) && Legal(t, op) && u == Do(t, op, now)
    ensures Valid(u, now)
  {
    DoValid(t, op, now);
  }

  /** Time may pass: the timerfd stays armed for the earliest deadline. */
  lemma ValidLater(t: Timers, now: int, later: int)
    requires Valid(t, now) && now <= later
    ensures Valid(t, later)
  {
  }

  /** In every run, after every operation, all parts of the queue agree. */
  lemma {:induction false} RunValid(ops: seq<Op>, times: seq<int>, run: seq<Timers>, i: nat, now: int)
    requires IsRun(ops, times, run) && i < |run| && (i > 0 ==> times[i - 1] <= now)
    ensures Valid(run[i], now)
  {
    if i > 0 {
      RunValid(ops, times, run, i - 1, times[i - 1]);
      assert StepAt(ops, times, run, i - 1);
      ValidAfter(run[i - 1], ops[i - 1], run[i], times[i - 1]);
      ValidLater(run[i], times[i - 1], now);
    }
  }

  /** In every run an instance fires at most once, never early, and never after it was cancelled or replaced. */
  lemma FiresAtMostOnce(ops: seq<Op>, times: seq<int>, run: seq<Timers>, i: nat, j: nat, k: nat)
    requires IsRun(ops, times, run) && i < |run| && j < |run[i].fired| && k < |run[i].fired|
    ensures run[i].fired[j].deadline <= run[i].fired[j].time
    ensures run[i].fired[j].id !in run[i].removed
    ensures run[i].fired[j].id == run[i].fired[k].id ==> j == k
    ensures forall e :: e in run[i].heap ==> e.id != run[i].fired[j].id && e.id !in run[i].removed
  {
    RunValid(ops, times, run, i, if i == 0 then 0 else times[i - 1]);
    assert run[i].fired[j] in run[i].fired;
  }

  lemma {:induction false} CancelAllGrows(t: Timers, keys: seq<Key>, now: int)
    ensures CancelAll(t, keys, now).fired == t.fired && t.removed <= CancelAll(t, keys, now).removed
    ensures CancelAll(t, keys, now).nextId == t.nextId && SameSettings(t, CancelAll(t, keys, now))
  {
    if keys != [] {
      CancelAllGrows(t, keys[..|keys| - 1], now);
    }
  }

  lemma {:induction false} PopDueGrows(t: Timers, now: int)
    ensures PopDue(t, now).removed == t.removed && t.fired <= PopDue(t, now).fired
    ensures PopDue(t, now).nextId == t.nextId && SameSettings(t, PopDue(t, now))
    decreases |t.heap|
  {
    PopDueContents(t, now);
    if t.heap != [] && t.heap[0].deadline <= now {
      PopDueGrows(PopFirst(t, now), now);
    }
  }

  lemma DoGrows(t: Timers, op: Op, now: int)
    ensures t.fired <= Do(t, op, now).fired && t.removed <= Do(t, op, now).removed
  {
    if op.Clear? {
      CancelAllGrows(t, op.keys, now);
    } else if op.Tick? {
      PopDueGrows(t, now);
    }
  }

  /** A fate, once met, is final: what fired stays fired, what was removed stays removed. */
  lemma {:induction false} FatesAreFinal(ops: seq<Op>, times: seq<int>, run: seq<Timers>, i: nat, j: nat)
    requires IsRun(ops, times, run) && i <= j < |run|
    ensures run[i].fired <= run[j].fired && run[i].removed <= run[j].removed
  {
    if i < j {
      FatesAreFinal(ops, times, run, i, j - 1);
      assert StepAt(ops, times, run, j - 1);
      DoGrows(run[j - 1], ops[j - 1], times[j - 1]);
    }
  }

  // ---------- stored keepalive settings, in every run ----------

  /** The operation sets, replaces or drops the settings of the session. */
  predicate Concerns(op: Op, session: string) {
    (op.StartKa? || op.CancelKa? || op.Clear?) && op.session == session
  }

  /** Operation k started the session's keepalive, and no operation after it and before i concerned that. */
  ghost predicate LastStart(ops: seq<Op>, session: string, k: int, i: nat)
    requires i <= |ops|
  {
    && 0 <= k < i && ops[k].StartKa? && ops[k].session == session
    && forall j :: k < j < i ==> !Concerns(ops[j], session)
  }

  /** The stored settings of the session are those. */
  ghost predicate HasSettings(t: Timers, session: string, timeout: int, callback: Callback) {
    && session in t.timeouts && t.timeouts[session] == timeout
    && session in t.callbacks && t.callbacks[session] == callback
  }

  ghost predicate NoSettings(t: Timers, session: string) {
    session !in t.timeouts && session !in t.callbacks
  }

  /** Two queues with the same settings for the session. */
  ghost predicate SameFor(t: Timers, u: Timers, session: string) {
    && (session in u.timeouts <==> session in t.timeouts) && (session in u.callbacks <==> session in t.callbacks)
    && (session in t.timeouts ==> u.timeouts[session] == t.timeouts[session])
    && (session in t.callbacks ==> u.callbacks[session] == t.callbacks[session])
  }

  lemma DoSettings(t: Timers, op: Op, now: int, session: string)
    ensures !Concerns(op, session) ==> SameFor(t, Do(t, op, now), session)
    ensures op.StartKa? && op.session == session ==> HasSettings(Do(t, op, now), session, op.timeout, op.callback)
    ensures (op.CancelKa? || op.Clear?) && op.session == session ==> NoSettings(Do(t, op, now), session)
  {
    if op.Clear? {
      CancelAllGrows(t, op.keys, now);
    } else if op.Tick? {
      PopDueGrows(t, now);
    } else if op.StartKa? {
      StartKeepaliveFacts(t, op.session, op.timeout, op.callback, now);
    }
  }

  /** The settings on record are those of the last start that nothing has undone. */
  lemma {:induction false} SettingsOfLastStart(ops: seq<Op>, times: seq<int>, run: seq<Timers>, i: nat, session: string,
                                               k: int)
    requires IsRun(ops, times, run) && i < |run| && LastStart(ops, session, k, i)
    ensures HasSettings(run[i], session, ops[k].timeout, ops[k].callback)
  {
    assert StepAt(ops, times, run, i - 1);
    DoSettings(run[i - 1], ops[i - 1], times[i - 1], session);
    if k < i - 1 {
      SettingsOfLastStart(ops, times, run, i - 1, session, k);
    }
  }

  /** Without such a start there are no settings on record. */
  lemma {:induction false} SettingsNeedStart(ops: seq<Op>, times: seq<int>, run: seq<Timers>, i: nat, session: string)
    requires IsRun(ops, times, run) && i < |run| && forall k :: !LastStart(ops, session, k, i)
    ensures NoSettings(run[i], session)
  {
    if i > 0 {
      assert StepAt(ops, times, run, i - 1);
      DoSettings(run[i - 1], ops[i - 1], times[i - 1], session);
      assert !LastStart(ops, session, i - 1, i);
      if !Concerns(ops[i - 1], session) {
        var h: nat := i - 1;
        forall k | LastStart(ops, session, k, h)
          ensures LastStart(ops, session, k, i)
        {
        }
        SettingsNeedStart(ops, times, run, h, session);
      }
    }
  }

  /** In every run a reset restarts the keepalive timer with the timeout and callback of the last start. */
  lemma ResetUsesLastStart(ops: seq<Op>, times: seq<int>, run: seq<Timers>, i: nat, k: int)
    requires IsRun(ops, times, run) && i < |ops| && ops[i].ResetKa? && LastStart(ops, ops[i].session, k, i)
    ensures Replaced(run[i].heap, run[i + 1].heap,
                     Entry(run[i].nextId, times[i] + ops[k].timeout * 1_000_000_000,
                           Key(Keepalive, ops[i].session, ""), ops[k].callback))
  {
    RunValid(ops, times, run, i, times[i]);
    assert StepAt(ops, times, run, i);
    SettingsOfLastStart(ops, times, run, i, ops[i].session, k);
    ResetKeepaliveValid(run[i], ops[i].session, times[i]);
  }

  /** A reset before any start, or after a cancel or a clear, does nothing. */
  lemma ResetWithoutStart(ops: seq<Op>, times: seq<int>, run: seq<Timers>, i: nat)
    requires IsRun(ops, times, run) && i < |ops| && ops[i].ResetKa?
    requires forall k :: !LastStart(ops, ops[i].session, k, i)
    ensures run[i + 1] == run[i]
  {
    assert StepAt(ops, times, run, i);
    SettingsNeedStart(ops, times, run, i, ops[i].session);
  }
}
