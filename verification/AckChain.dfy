/**
 Retransmission of unacknowledged messages by the reactor: a tracked message is sent, its
 timer restarted and the message sent again until an acknowledgement cancels the timer or
 the retries are used up, which closes (TCP) or blacklists (UDP) the session.
 */
module AckChain {
  import opened TimerQueue

  /** 32-bit unsigned counters. */
  const U32 := 0x1_0000_0000

  datatype Transport = Tcp | Udp

  datatype Session = Session(transport: Transport, blacklisted: bool)

  /** How a tracked message ended, if it did. */
  datatype Ending = Running | Exhausted | SessionGone

  /**
   History of one tracked message: what was to be sent to whom, how often it was sent, which
   timer instance awaits its acknowledgement now, and how it ended.
   */
  datatype Message = Message(
    session: string, timerKey: string, payload: string, maxRetries: nat, sends: nat, timer: nat, ending: Ending)

  /** One transmission to a session. */
  datatype Packet = Packet(session: string, payload: string)

  /**
   `firing` holds the timers popped by the current tick whose callbacks have not run yet, `sent`
   all transmissions of tracked messages so far.
   */
  datatype Reactor = Reactor(
    sessions: map<string, Session>, timers: Timers, firing: seq<Entry>, messages: seq<Message>, sent: seq<Packet>)

  datatype Event =
    | Connect(session: string, transport: Transport)
    | Disconnect(session: string)
    | Send(session: string, timerKey: string, payload: string, timeout: int, maxRetries: nat)
    | StartAckTimer(session: string, timerKey: string, payload: string, timeout: int, maxRetries: nat)
    | AckReceived(session: string, timerKey: string)
    | ClearTimers(session: string, keys: seq<Key>)
    | StartKeepaliveTimer(session: string, timeout: int)
    | ResetKeepaliveTimer(session: string)
    | TimerfdReady
    | RunCallback(keys: seq<Key>)

  function Start(): Reactor {
    Reactor(map[], Empty(), [], [], [])
  }

  /** Callbacks of one tick run to the end before anything else happens on the reactor thread. */
  ghost predicate Possible(r: Reactor, ev: Event) {
    match ev
    case RunCallback(keys) =>
      r.firing != [] && ListsSession(r.timers.index, r.firing[0].callback.session, keys)
    case Send(_, _, _, timeout, maxRetries) => r.firing == [] && timeout > 0 && maxRetries < U32
    case StartAckTimer(_, _, _, _, maxRetries) => r.firing == [] && maxRetries < U32
    case ClearTimers(session, keys) => r.firing == [] && ListsSession(r.timers.index, session, keys)
    case _ => r.firing == []
  }

  /** The test `retry_count >= max_retries - 1` on unsigned 32-bit numbers. */
  predicate RetriesUsedUp(retry: nat, maxRetries: nat) {
    retry >= (maxRetries + U32 - 1) % U32
  }

  /** Starts (or restarts) the timer that awaits the acknowledgement of message `chain`. */
  function Await(r: Reactor, chain: nat, m: Message, timerKey: string, payload: string, retry: nat, timeout: int,
                 now: int): Reactor
    requires chain < |r.messages|
  {
    var key := Key(Ack, m.session, timerKey);
    r.(timers := Insert(r.timers, key, timeout, AckTimeout(m.session, timerKey, payload, retry, m.maxRetries, chain),
                        now),
       messages := r.messages[chain := m.(timer := Cancel(r.timers, key, now).nextId)])
  }

  function Transmit(r: Reactor, session: string, payload: string): Reactor {
    if session !in r.sessions then r else r.(sent := r.sent + [Packet(session, payload)])
  }

  /**
   The acknowledgement of a message that was just sent is awaited: by the same command, or by
   a separate one to start the timer, which follows the command that sent the message once.
   */
  function Dispatch(r: Reactor, session: string, timerKey: string, payload: string, timeout: int, maxRetries: nat,
                    now: int): Reactor
  {
    if session !in r.sessions then r
    else
      var m := Message(session, timerKey, payload, maxRetries, 1, r.timers.nextId, Running);
      Await(r.(messages := r.messages + [m]), |r.messages|, m, timerKey, payload, 0, timeout, now)
  }

  /** The session is gone: nothing is sent, nothing restarted. */
  function Abandon(r: Reactor, cb: Callback): Reactor
    requires cb.AckTimeout? && cb.chain < |r.messages|
  {
    r.(messages := r.messages[cb.chain := r.messages[cb.chain].(ending := SessionGone)])
  }

  /** Retries used up: the session's timers go; a TCP session is removed, a UDP session blacklisted. */
  function GiveUp(r: Reactor, cb: Callback, keys: seq<Key>, now: int): Reactor
    requires cb.AckTimeout? && cb.chain < |r.messages| && cb.session in r.sessions
  {
    r.(timers := ClearSession(r.timers, cb.session, keys, now),
       sessions :=
         if r.sessions[cb.session].transport.Tcp? then r.sessions - {cb.session}
         else r.sessions[cb.session := r.sessions[cb.session].(blacklisted := true)],
       messages := r.messages[cb.chain := r.messages[cb.chain].(ending := Exhausted)])
  }

  /** One more transmission, and the timer again with the retry count raised by one. */
  function Resend(ackTimeout: int, r: Reactor, cb: Callback, now: int): Reactor
    requires cb.AckTimeout? && cb.chain < |r.messages|
  {
    var m := r.messages[cb.chain];
    Await(Transmit(r, cb.session, cb.payload), cb.chain, m.(sends := m.sends + 1), cb.timerKey, cb.payload,
          (cb.retry + 1) % U32, ackTimeout, now)
  }

  function HandleAckTimeout(ackTimeout: int, r: Reactor, cb: Callback, keys: seq<Key>, now: int): Reactor
    requires cb.AckTimeout? && cb.chain < |r.messages|
  {
    if cb.session !in r.sessions then Abandon(r, cb)
    else if RetriesUsedUp(cb.retry, cb.maxRetries) then GiveUp(r, cb, keys, now)
    else Resend(ackTimeout, r, cb, now)
  }

  function HandleKeepaliveTimeout(r: Reactor, session: string, keys: seq<Key>, now: int): Reactor {
    r.(timers := ClearSession(r.timers, session, keys, now), sessions := r.sessions - {session})
  }

  function Next(ackTimeout: int, r: Reactor, ev: Event, now: int): Reactor {
    match ev
    case Connect(session, transport) => r.(sessions := r.sessions[session := Session(transport, false)])
    case Disconnect(session) => r.(sessions := r.sessions - {session})
    case Send(session, timerKey, payload, timeout, maxRetries) =>
      Dispatch(Transmit(r, session, payload), session, timerKey, payload, timeout, maxRetries, now)
    case StartAckTimer(session, timerKey, payload, timeout, maxRetries) =>
      Dispatch(r, session, timerKey, payload, timeout, maxRetries, now)
    case AckReceived(session, timerKey) =>
      if session !in r.sessions then r else r.(timers := Cancel(r.timers, Key(Ack, session, timerKey), now))
    case ClearTimers(session, keys) =>
      if session !in r.sessions then r else r.(timers := ClearSession(r.timers, session, keys, now))
    case StartKeepaliveTimer(session, timeout) =>
      if session !in r.sessions then r
      else r.(timers := StartKeepalive(r.timers, session, timeout, KeepaliveTimeout(session), now))
    case ResetKeepaliveTimer(session) =>
      if session !in r.sessions then r else r.(timers := ResetKeepalive(r.timers, session, now))
    case TimerfdReady =>
      r.(timers := Expire(r.timers, now), firing := r.timers.heap[..UpperBound(r.timers.heap, now)])
    case RunCallback(keys) =>
      if r.firing == [] then r
      else
        var cb := r.firing[0].callback;
        var q := r.(firing := r.firing[1..]);
        if cb.KeepaliveTimeout? then HandleKeepaliveTimeout(q, cb.session, keys, now)
        else if cb.chain < |q.messages| then HandleAckTimeout(ackTimeout, q, cb, keys, now)
        else q
  }

  // ---------- invariant ----------

  /** How often a message can be sent: `maxRetries` times, or 2^32 times when that is zero. */
  function Limit(maxRetries: nat): nat {
    (maxRetries + U32 - 1) % U32 + 1
  }

  /** The callback repeats what the message is about. */
  predicate Repeats(cb: Callback, m: Message)
    requires cb.AckTimeout?
  {
    && m.session == cb.session && m.timerKey == cb.timerKey && m.payload == cb.payload
    && m.maxRetries == cb.maxRetries
  }

  /**
   A timer that awaits an acknowledgement is its message's current one, is filed under its
   message's key and knows its send count; any other timer is a session's keepalive.
   */
  ghost predicate Matches(e: Entry, messages: seq<Message>) {
    match e.callback
    case KeepaliveTimeout(session) => e.key == KeepaliveKey(session)
    case AckTimeout(session, timerKey, _, retry, _, chain) =>
      && e.key == Key(Ack, session, timerKey) && chain < |messages| && Repeats(e.callback, messages[chain])
      && var m := messages[chain];
         m.timer == e.id && m.sends == retry + 1 && m.ending == Running && m.maxRetries < U32
  }

  /** No message but the one it matches claims this timer. */
  ghost predicate Current(e: Entry, messages: seq<Message>) {
    && Matches(e, messages)
    && forall c :: 0 <= c < |messages| && messages[c].timer == e.id ==> e.callback.AckTimeout? && e.callback.chain == c
  }

  ghost predicate MessageOk(m: Message) {
    && 1 <= m.sends <= Limit(m.maxRetries) && m.maxRetries < U32
    && (m.ending == Exhausted ==> m.sends == Limit(m.maxRetries))
  }

  /** A running message has a live timer, or its timer was taken away, or its callback is about to run. */
  ghost predicate Awaited(m: Message, t: Timers, firing: seq<Entry>) {
    && m.timer < t.nextId
    && (m.ending == Running ==> IsLive(t.heap, m.timer) || m.timer in t.removed || IsLive(firing, m.timer))
  }

  ghost predicate FiringOk(t: Timers, firing: seq<Entry>) {
    DistinctIds(firing) && forall e :: e in firing ==> HasFired(t.fired, e.id)
  }

  /** Everything but message `skip` is tracked, and nothing is under way for that one. */
  ghost predicate TrackingBut(t: Timers, firing: seq<Entry>, messages: seq<Message>, skip: int) {
    && FiringOk(t, firing)
    && (forall e :: e in t.heap ==> Current(e, messages) && ChainOf(e) != skip)
    && (forall e :: e in firing ==> Current(e, messages) && ChainOf(e) != skip)
    && (forall c :: 0 <= c < |messages| ==> MessageOk(messages[c]))
    && (forall c :: 0 <= c < |messages| && c != skip ==> Awaited(messages[c], t, firing))
  }

  /** The message a timer awaits; -1 for keepalive timers. */
  function ChainOf(e: Entry): int {
    if e.callback.AckTimeout? then e.callback.chain else -1
  }

  ghost predicate Tracking(t: Timers, firing: seq<Entry>, messages: seq<Message>) {
    TrackingBut(t, firing, messages, -2)
  }

  ghost predicate KeepalivesOnly(callbacks: map<string, Callback>) {
    forall session :: session in callbacks ==> callbacks[session] == KeepaliveTimeout(session)
  }

  ghost predicate Inv(r: Reactor, now: int) {
    Valid(r.timers, now) && KeepalivesOnly(r.timers.callbacks) && Tracking(r.timers, r.firing, r.messages)
  }

  lemma LimitIsMaxRetries(maxRetries: nat)
    requires maxRetries < U32
    ensures Limit(maxRetries) == if maxRetries == 0 then U32 else maxRetries
  {
    if maxRetries == 0 {
      assert (U32 - 1) % U32 == U32 - 1;
    } else {
      assert maxRetries + U32 - 1 == U32 + (maxRetries - 1);
      assert (U32 + (maxRetries - 1)) % U32 == maxRetries - 1;
    }
  }

  // ---------- the queue loses timers ----------

  lemma StillAwaited(t: Timers, u: Timers, firing: seq<Entry>, m: Message, now: int)
    requires Valid(t, now) && Valid(u, now) && Awaited(m, t, firing)
    requires u.fired == t.fired && t.removed <= u.removed && t.nextId <= u.nextId
    ensures Awaited(m, u, firing)
  {
    if m.ending == Running && IsLive(t.heap, m.timer) {
      var e :| e in t.heap && e.id == m.timer;
      assert !HasFired(t.fired, e.id);
    }
  }

  /** Timers may go: what went is accounted for by the queue itself. */
  lemma FewerTimers(t: Timers, u: Timers, firing: seq<Entry>, messages: seq<Message>, skip: int, now: int)
    requires Valid(t, now) && Valid(u, now) && TrackingBut(t, firing, messages, skip)
    requires (forall e :: e in u.heap ==> e in t.heap) && u.fired == t.fired && t.removed <= u.removed &&
      u.nextId == t.nextId
    ensures TrackingBut(u, firing, messages, skip)
  {
    AwaitedStays(t, u, firing, messages, skip, now);
  }

  lemma AwaitedStays(t: Timers, u: Timers, firing: seq<Entry>, messages: seq<Message>, skip: int, now: int)
    requires Valid(t, now) && Valid(u, now) && u.fired == t.fired && t.removed <= u.removed && t.nextId <= u.nextId
    requires forall c :: 0 <= c < |messages| && c != skip ==> Awaited(messages[c], t, firing)
    ensures forall c :: 0 <= c < |messages| && c != skip ==> Awaited(messages[c], u, firing)
  {
    forall c | 0 <= c < |messages| && c != skip
      ensures Awaited(messages[c], u, firing)
    {
      StillAwaited(t, u, firing, messages[c], now);
    }
  }

  lemma ClearSessionTracking(t: Timers, session: string, keys: seq<Key>, firing: seq<Entry>, messages: seq<Message>,
                             skip: int, now: int)
    requires Valid(t, now) && TrackingBut(t, firing, messages, skip) && ListsSession(t.index, session, keys)
    ensures var u := ClearSession(t, session, keys, now);
            && Valid(u, now) && TrackingBut(u, firing, messages, skip)
            && forall e :: e in u.heap <==> e in t.heap && e.key.session != session
  {
    ClearSessionExact(t, session, keys, now);
    CancelAllGrows(t, keys, now);
    FewerTimers(t, ClearSession(t, session, keys, now), firing, messages, skip, now);
  }

  // ---------- the queue gains a timer ----------

  /** A fresh timer for anything but a tracked message disturbs nothing. */
  lemma KeepaliveTracking(t: Timers, u: Timers, e: Entry, firing: seq<Entry>, messages: seq<Message>, now: int)
    requires Valid(t, now) && Valid(u, now) && Tracking(t, firing, messages)
    requires e.id == t.nextId && e.callback.KeepaliveTimeout? && e.key == KeepaliveKey(e.callback.session)
    requires u.nextId == t.nextId + 1
    requires (forall x :: x in u.heap ==> x in t.heap || x == e) && u.fired == t.fired && t.removed <= u.removed
    ensures Tracking(u, firing, messages)
  {
    AwaitedStays(t, u, firing, messages, -2, now);
    assert Current(e, messages) && ChainOf(e) == -1;
  }

  /** `e` is a fresh timer for a message that nothing else is under way for; `u` is the queue with it. */
  ghost predicate Gains(t: Timers, u: Timers, e: Entry, firing: seq<Entry>, messages: seq<Message>, m: Message) {
    && e.id == t.nextId && e.callback.AckTimeout? && e.callback.chain < |messages|
    && TrackingBut(t, firing, messages, e.callback.chain)
    && e.key == Key(Ack, e.callback.session, e.callback.timerKey)
    && MessageOk(m) && m.ending == Running && m.sends == e.callback.retry + 1
    && m.timer == e.id && Repeats(e.callback, m)
    && (forall x :: x in u.heap <==> (x in t.heap && x.key != e.key) || x == e)
    && u.nextId == t.nextId + 1 && u.fired == t.fired && t.removed <= u.removed
  }

  lemma GainsCurrent(t: Timers, u: Timers, e: Entry, firing: seq<Entry>, messages: seq<Message>, m: Message, now: int)
    requires Valid(t, now) && Gains(t, u, e, firing, messages, m)
    ensures forall x :: x in u.heap || x in firing ==> Current(x, messages[e.callback.chain := m])
  {
    FreshId(t, firing, now);
    forall x | x in u.heap || x in firing
      ensures Current(x, messages[e.callback.chain := m])
    {
      assert x == e || (Current(x, messages) && ChainOf(x) != e.callback.chain && x.id != m.timer);
    }
  }

  lemma GainsAwaited(t: Timers, u: Timers, e: Entry, firing: seq<Entry>, messages: seq<Message>, m: Message,
                     messages': seq<Message>, now: int)
    requires Valid(t, now) && Valid(u, now) && Gains(t, u, e, firing, messages, m)
    requires messages' == messages[e.callback.chain := m]
    ensures forall c :: 0 <= c < |messages'| ==> MessageOk(messages'[c]) && Awaited(messages'[c], u, firing)
    ensures FiringOk(u, firing)
  {
    forall c | 0 <= c < |messages'|
      ensures MessageOk(messages'[c]) && Awaited(messages'[c], u, firing)
    {
      if c == e.callback.chain {
        assert e in u.heap;
      } else {
        StillAwaited(t, u, firing, messages[c], now);
      }
    }
  }

  lemma GainsTracking(t: Timers, u: Timers, e: Entry, firing: seq<Entry>, messages: seq<Message>, m: Message, now: int)
    requires Valid(t, now) && Valid(u, now) && Gains(t, u, e, firing, messages, m)
    ensures Tracking(u, firing, messages[e.callback.chain := m])
  {
    var messages' := messages[e.callback.chain := m];
    GainsCurrent(t, u, e, firing, messages, m, now);
    GainsAwaited(t, u, e, firing, messages, m, messages', now);
    Tracked(u, firing, messages');
  }

  lemma Tracked(u: Timers, firing: seq<Entry>, messages: seq<Message>)
    requires FiringOk(u, firing) && (forall e :: e in u.heap || e in firing ==> Current(e, messages))
    requires forall c :: 0 <= c < |messages| ==> MessageOk(messages[c]) && Awaited(messages[c], u, firing)
    ensures Tracking(u, firing, messages)
  {
  }

  /** Inserting the timer for `cb` gives its message, which nothing else is under way for, a fresh timer. */
  lemma InsertTracking(t: Timers, key: Key, timeout: int, cb: Callback, firing: seq<Entry>, messages: seq<Message>,
                       m: Message, now: int)
    requires Valid(t, now) && cb.AckTimeout? && cb.chain < |messages| && key == Key(Ack, cb.session, cb.timerKey)
    requires TrackingBut(t, firing, messages, cb.chain)
    requires MessageOk(m) && m.ending == Running && m.sends == cb.retry + 1 && Repeats(cb, m)
    requires m.timer == t.nextId
    ensures var u := Insert(t, key, timeout, cb, now);
            Valid(u, now) && u.callbacks == t.callbacks && Tracking(u, firing, messages[cb.chain := m])
  {
    InsertValid(t, key, timeout, cb, now);
    var u, e := Insert(t, key, timeout, cb, now), Entry(t.nextId, now + timeout * NANOS, key, cb);
    assert Gains(t, u, e, firing, messages, m);
    GainsTracking(t, u, e, firing, messages, m, now);
  }

  /** The next instance number is new to the queue, to the pending callbacks and to all messages. */
  lemma FreshId(t: Timers, firing: seq<Entry>, now: int)
    requires Valid(t, now) && FiringOk(t, firing)
    ensures forall e :: e in t.heap ==> e.id < t.nextId
    ensures forall e :: e in firing ==> e.id < t.nextId
  {
    forall e | e in firing
      ensures e.id < t.nextId
    {
      assert HasFired(t.fired, e.id);
    }
  }

  // ---------- events ----------

  /** A new message joins; nothing is under way for it yet. */
  lemma NewMessage(t: Timers, messages: seq<Message>, m: Message, now: int)
    requires Valid(t, now) && Tracking(t, [], messages) && MessageOk(m) && m.timer == t.nextId
    ensures TrackingBut(t, [], messages + [m], |messages|)
  {
    FreshId(t, [], now);
    forall e | e in t.heap
      ensures Current(e, messages + [m])
    {
    }
    forall c | 0 <= c < |messages|
      ensures Awaited((messages + [m])[c], t, [])
    {
      assert (messages + [m])[c] == messages[c];
    }
  }

  lemma DispatchInv(r: Reactor, session: string, timerKey: string, payload: string, timeout: int, maxRetries: nat,
                    now: int, r': Reactor)
    requires Inv(r, now) && r.firing == [] && maxRetries < U32
    requires r' == Dispatch(r, session, timerKey, payload, timeout, maxRetries, now)
    ensures Inv(r', now)
  {
    if session in r.sessions {
      var m := Message(session, timerKey, payload, maxRetries, 1, r.timers.nextId, Running);
      NewMessage(r.timers, r.messages, m, now);
      var key := Key(Ack, session, timerKey);
      var cb := AckTimeout(session, timerKey, payload, 0, maxRetries, |r.messages|);
      InsertTracking(r.timers, key, timeout, cb, [], r.messages + [m], m, now);
    }
  }

  lemma TickFiring(t: Timers, now: int)
    requires Valid(t, now)
    ensures FiringOk(Expire(t, now), t.heap[..UpperBound(t.heap, now)])
    ensures forall e :: e in t.heap <==> e in t.heap[..UpperBound(t.heap, now)] || e in Expire(t, now).heap
  {
    PopDueContents(t, now);
    DueHaveFired(t.fired, t.heap, UpperBound(t.heap, now), now);
    assert t.heap == t.heap[..UpperBound(t.heap, now)] + Expire(t, now).heap;
  }

  lemma DueHaveFired(fired: seq<Firing>, heap: seq<Entry>, p: nat, now: int)
    requires p <= |heap|
    ensures forall e :: e in heap[..p] ==> HasFired(FiredAfter(fired, heap, p, now), e.id)
  {
    var after := FiredAfter(fired, heap, p, now);
    forall e | e in heap[..p]
      ensures HasFired(after, e.id)
    {
      var i :| 0 <= i < p && heap[i] == e;
      assert after[|fired| + i] in after;
    }
  }

  lemma TickAwaited(t: Timers, messages: seq<Message>, now: int)
    requires Valid(t, now) && forall c :: 0 <= c < |messages| ==> Awaited(messages[c], t, [])
    ensures forall c :: 0 <= c < |messages| ==> Awaited(messages[c], Expire(t, now), t.heap[..UpperBound(t.heap, now)])
  {
    var u, due := Expire(t, now), t.heap[..UpperBound(t.heap, now)];
    TickFiring(t, now);
    PopDueGrows(t, now);
    forall c | 0 <= c < |messages|
      ensures Awaited(messages[c], u, due)
    {
      if messages[c].ending == Running && IsLive(t.heap, messages[c].timer) {
        var e :| e in t.heap && e.id == messages[c].timer;
        assert e in due || e in u.heap;
      }
    }
  }

  /** The tick's timers move from the queue to the pending callbacks. */
  lemma TickTracking(t: Timers, messages: seq<Message>, now: int)
    requires Valid(t, now) && Tracking(t, [], messages)
    ensures Valid(Expire(t, now), now) && Tracking(Expire(t, now), t.heap[..UpperBound(t.heap, now)], messages)
  {
    ExpireExact(t, now);
    TickFiring(t, now);
    TickAwaited(t, messages, now);
  }

  /** Taking the first pending callback leaves nothing under way for its message. */
  lemma TakeFirst(t: Timers, firing: seq<Entry>, messages: seq<Message>, now: int)
    requires Valid(t, now) && firing != [] && Tracking(t, firing, messages)
    ensures TrackingBut(t, firing[1..], messages, if firing[0].callback.AckTimeout? then ChainOf(firing[0]) else -2)
  {
    var e0, rest := firing[0], firing[1..];
    assert forall e :: e in firing <==> e == e0 || e in rest;
    assert Current(e0, messages);
    forall e | e in rest
      ensures e.id != e0.id
    {
      var i :| 0 <= i < |rest| && rest[i] == e;
      assert firing[i + 1] == e;
    }
    forall c | 0 <= c < |messages| && c != ChainOf(e0)
      ensures Awaited(messages[c], t, rest)
    {
      if IsLive(firing, messages[c].timer) {
        var e :| e in firing && e.id == messages[c].timer;
        assert e in rest;
      }
    }
  }

  /** Ending a message that nothing is under way for. */
  lemma EndMessage(t: Timers, firing: seq<Entry>, messages: seq<Message>, chain: nat, m: Message)
    requires chain < |messages| && TrackingBut(t, firing, messages, chain)
    requires MessageOk(m) && m.ending != Running && m.timer == messages[chain].timer && m.timer < t.nextId
    ensures Tracking(t, firing, messages[chain := m])
  {
    forall e | e in t.heap || e in firing
      ensures Current(e, messages[chain := m])
    {
    }
  }

  /** A callback of the current tick whose turn has come. */
  ghost predicate Due(r: Reactor, e: Entry, now: int) {
    && Valid(r.timers, now) && KeepalivesOnly(r.timers.callbacks)
    && e.callback.AckTimeout? && e.id < r.timers.nextId
    && Matches(e, r.messages) && TrackingBut(r.timers, r.firing, r.messages, ChainOf(e))
  }

  lemma AbandonInv(r: Reactor, e: Entry, now: int)
    requires Due(r, e, now)
    ensures Inv(Abandon(r, e.callback), now)
  {
    EndMessage(r.timers, r.firing, r.messages, e.callback.chain, r.messages[e.callback.chain].(ending := SessionGone));
  }

  lemma GiveUpInv(r: Reactor, e: Entry, keys: seq<Key>, now: int)
    requires Due(r, e, now) && ListsSession(r.timers.index, e.callback.session, keys) &&
      e.callback.session in r.sessions
    requires RetriesUsedUp(e.callback.retry, e.callback.maxRetries)
    ensures Inv(GiveUp(r, e.callback, keys, now), now)
  {
    var m := r.messages[e.callback.chain].(ending := Exhausted);
    assert MessageOk(m);
    ClearSessionTracking(r.timers, e.callback.session, keys, r.firing, r.messages, e.callback.chain, now);
    CancelAllGrows(r.timers, keys, now);
    EndMessage(ClearSession(r.timers, e.callback.session, keys, now), r.firing, r.messages, e.callback.chain, m);
  }

  /** The callback and the message record of the next attempt. */
  function NextAttempt(cb: Callback, m: Message): Callback
    requires cb.AckTimeout?
  {
    AckTimeout(m.session, cb.timerKey, cb.payload, (cb.retry + 1) % U32, m.maxRetries, cb.chain)
  }

  function SentAgain(m: Message, timer: nat): Message {
    m.(sends := m.sends + 1, timer := timer)
  }

  /** The record and the timer of the next attempt belong together. */
  lemma AttemptFits(cb: Callback, m: Message, timer: nat)
    requires cb.AckTimeout? && !RetriesUsedUp(cb.retry, cb.maxRetries)
    requires m.sends == cb.retry + 1 && Repeats(cb, m)
    ensures NextAttempt(cb, m) == cb.(retry := cb.retry + 1)
    ensures m.sends + 1 <= Limit(m.maxRetries)
  {
  }

  lemma ResendTracking(ackTimeout: int, r: Reactor, e: Entry, now: int)
    requires Due(r, e, now) && !RetriesUsedUp(e.callback.retry, e.callback.maxRetries)
    ensures var m := r.messages[e.callback.chain];
            var u := Insert(r.timers, Key(Ack, m.session, e.callback.timerKey), ackTimeout,
                            NextAttempt(e.callback, m), now);
            && Valid(u, now) && KeepalivesOnly(u.callbacks)
            && Tracking(u, r.firing, r.messages[e.callback.chain := SentAgain(m, r.timers.nextId)])
  {
    var m := r.messages[e.callback.chain];
    AttemptFits(e.callback, m, r.timers.nextId);
    assert MessageOk(m);
    InsertTracking(r.timers, Key(Ack, m.session, e.callback.timerKey), ackTimeout, NextAttempt(e.callback, m),
                   r.firing, r.messages, SentAgain(m, r.timers.nextId), now);
  }

  /** Resending transmits the payload once and touches the queue and the one message only. */
  lemma ResendParts(ackTimeout: int, r: Reactor, cb: Callback, now: int)
    requires cb.AckTimeout? && cb.chain < |r.messages|
    ensures var m, r' := r.messages[cb.chain], Resend(ackTimeout, r, cb, now);
            && r'.timers == Insert(r.timers, Key(Ack, m.session, cb.timerKey), ackTimeout, NextAttempt(cb, m), now)
            && r'.firing == r.firing && r'.sessions == r.sessions
            && r'.sent == (if cb.session in r.sessions then r.sent + [Packet(cb.session, cb.payload)] else r.sent)
            && r'.messages == r.messages[cb.chain := SentAgain(m, r.timers.nextId)]
  {
  }

  lemma ResendInv(ackTimeout: int, r: Reactor, e: Entry, now: int)
    requires Due(r, e, now) && !RetriesUsedUp(e.callback.retry, e.callback.maxRetries)
    ensures Inv(Resend(ackTimeout, r, e.callback, now), now)
  {
    ResendTracking(ackTimeout, r, e, now);
    ResendParts(ackTimeout, r, e.callback, now);
  }

  lemma HandleAckTimeoutInv(ackTimeout: int, r: Reactor, e: Entry, keys: seq<Key>, now: int)
    requires Due(r, e, now) && ListsSession(r.timers.index, e.callback.session, keys)
    ensures Inv(HandleAckTimeout(ackTimeout, r, e.callback, keys, now), now)
  {
    if e.callback.session !in r.sessions {
      AbandonInv(r, e, now);
    } else if RetriesUsedUp(e.callback.retry, e.callback.maxRetries) {
      GiveUpInv(r, e, keys, now);
    } else {
      ResendInv(ackTimeout, r, e, now);
    }
  }

  lemma RunCallbackInv(ackTimeout: int, r: Reactor, keys: seq<Key>, now: int)
    requires Inv(r, now) && Possible(r, RunCallback(keys))
    ensures Inv(Next(ackTimeout, r, RunCallback(keys), now), now)
  {
    var e, q := r.firing[0], r.(firing := r.firing[1..]);
    TakeFirst(r.timers, r.firing, r.messages, now);
    FreshId(r.timers, r.firing, now);
    assert Current(e, r.messages);
    if e.callback.KeepaliveTimeout? {
      ClearSessionTracking(q.timers, e.callback.session, keys, q.firing, q.messages, -2, now);
      CancelAllGrows(q.timers, keys, now);
    } else {
      HandleAckTimeoutInv(ackTimeout, q, e, keys, now);
    }
  }

  lemma KeepaliveInv(r: Reactor, session: string, timeout: int, callback: Callback, now: int, u: Timers)
    requires Inv(r, now) && callback == KeepaliveTimeout(session)
    requires u == StartKeepalive(r.timers, session, timeout, callback, now)
    ensures Inv(r.(timers := u), now)
  {
    StartKeepaliveValid(r.timers, session, timeout, callback, now);
    StartKeepaliveFacts(r.timers, session, timeout, callback, now);
    var e := Entry(r.timers.nextId, now + timeout * NANOS, KeepaliveKey(session), callback);
    KeepaliveTracking(r.timers, u, e, r.firing, r.messages, now);
  }

  lemma ResetInv(r: Reactor, session: string, now: int)
    requires Inv(r, now)
    ensures Inv(r.(timers := ResetKeepalive(r.timers, session, now)), now)
  {
    var t := r.timers;
    if session in t.timeouts && session in t.callbacks {
      var key, timeout, callback := KeepaliveKey(session), t.timeouts[session], t.callbacks[session];
      InsertValid(t, key, timeout, callback, now);
      KeepaliveTracking(t, Insert(t, key, timeout, callback, now),
                        Entry(t.nextId, now + timeout * NANOS, key, callback), r.firing, r.messages, now);
    }
  }

  lemma AckInv(r: Reactor, key: Key, now: int)
    requires Inv(r, now)
    ensures Inv(r.(timers := Cancel(r.timers, key, now)), now)
  {
    CancelValid(r.timers, key, now);
    FewerTimers(r.timers, Cancel(r.timers, key, now), r.firing, r.messages, -2, now);
  }

  lemma ClearInv(r: Reactor, session: string, keys: seq<Key>, now: int)
    requires Inv(r, now) && ListsSession(r.timers.index, session, keys)
    ensures Inv(r.(timers := ClearSession(r.timers, session, keys, now)), now)
  {
    ClearSessionTracking(r.timers, session, keys, r.firing, r.messages, -2, now);
    CancelAllGrows(r.timers, keys, now);
  }

  lemma TickInv(r: Reactor, now: int)
    requires Inv(r, now) && r.firing == []
    ensures Inv(r.(timers := Expire(r.timers, now), firing := r.timers.heap[..UpperBound(r.timers.heap, now)]), now)
  {
    TickTracking(r.timers, r.messages, now);
    PopDueGrows(r.timers, now);
  }

  lemma NextInv(ackTimeout: int, r: Reactor, ev: Event, now: int)
    requires Inv(r, now) && Possible(r, ev)
    ensures Inv(Next(ackTimeout, r, ev, now), now)
  {
    match ev
    case Connect(_, _) =>
    case Disconnect(_) =>
    case Send(session, timerKey, payload, timeout, maxRetries) =>
      DispatchInv(Transmit(r, session, payload), session, timerKey, payload, timeout, maxRetries, now,
                  Next(ackTimeout, r, ev, now));
    case StartAckTimer(session, timerKey, payload, timeout, maxRetries) =>
      DispatchInv(r, session, timerKey, payload, timeout, maxRetries, now, Next(ackTimeout, r, ev, now));
    case AckReceived(session, timerKey) => AckInv(r, Key(Ack, session, timerKey), now);
    case ClearTimers(session, keys) => ClearInv(r, session, keys, now);
    case StartKeepaliveTimer(session, timeout) =>
      KeepaliveInv(r, session, timeout, KeepaliveTimeout(session), now,
                   StartKeepalive(r.timers, session, timeout, KeepaliveTimeout(session), now));
    case ResetKeepaliveTimer(session) => ResetInv(r, session, now);
    case TimerfdReady => TickInv(r, now);
    case RunCallback(keys) => RunCallbackInv(ackTimeout, r, keys, now);
  }
}
