/**
 What the retransmission protocol guarantees over whole runs: how often a message is sent, what
 every expiry of its timer does, what an acknowledgement stops, and how giving up ends a session.
 */
module AckRuns {
  import opened TimerQueue
  import opened AckChain

  // ---------- runs ----------

  ghost predicate IsRun(ackTimeout: int, evs: seq<Event>, times: seq<int>, run: seq<Reactor>) {
    && |run| == |evs| + 1 == |times| + 1 && run[0] == Start()
    && (forall i, j :: 0 <= i <= j < |times| ==> times[i] <= times[j])
    && (forall i :: 0 <= i < |evs| ==> StepAt(ackTimeout, evs, times, run, i))
  }

  ghost predicate StepAt(ackTimeout: int, evs: seq<Event>, times: seq<int>, run: seq<Reactor>, i: int)
    requires |run| == |evs| + 1 == |times| + 1 && 0 <= i < |evs|
  {
    Possible(run[i], evs[i]) && run[i + 1] == Next(ackTimeout, run[i], evs[i], times[i])
  }

  lemma {:induction false} RunInv(ackTimeout: int, evs: seq<Event>, times: seq<int>, run: seq<Reactor>, i: nat,
                                  now: int)
    requires IsRun(ackTimeout, evs, times, run) && i < |run| && (i > 0 ==> times[i - 1] <= now)
    ensures Inv(run[i], now)
  {
    if i > 0 {
      RunInv(ackTimeout, evs, times, run, i - 1, times[i - 1]);
      assert StepAt(ackTimeout, evs, times, run, i - 1);
      NextInv(ackTimeout, run[i - 1], evs[i - 1], times[i - 1]);
    }
  }

  // ---------- whose turn it is ----------

  /** The event runs the callback of a timer that awaits message c. */
  predicate TakesTurn(r: Reactor, ev: Event, c: nat) {
    && ev.RunCallback? && r.firing != []
    && r.firing[0].callback.AckTimeout? && r.firing[0].callback.chain == c
  }

  /** The timer of message c expires while its session is there. */
  predicate Expires(r: Reactor, ev: Event, c: nat) {
    TakesTurn(r, ev, c) && r.firing[0].callback.session in r.sessions
  }

  lemma OthersStay(ackTimeout: int, r: Reactor, ev: Event, now: int, c: nat)
    requires c < |r.messages| && !TakesTurn(r, ev, c)
    ensures var r' := Next(ackTimeout, r, ev, now);
            c < |r'.messages| && r'.messages[c] == r.messages[c]
  {
  }

  /** What becomes of a message whose timer expired. */
  function AfterTurn(m: Message, cb: Callback, present: bool, timer: nat): Message
    requires cb.AckTimeout?
  {
    if !present then m.(ending := SessionGone)
    else if RetriesUsedUp(cb.retry, cb.maxRetries) then m.(ending := Exhausted)
    else SentAgain(m, timer)
  }

  lemma TurnOutcome(ackTimeout: int, r: Reactor, ev: Event, now: int, c: nat)
    requires c < |r.messages| && TakesTurn(r, ev, c)
    ensures var r', cb := Next(ackTimeout, r, ev, now), r.firing[0].callback;
            && |r'.messages| == |r.messages|
            && r'.messages[c] == AfterTurn(r.messages[c], cb, cb.session in r.sessions, r.timers.nextId)
  {
  }

  // ---------- histories ----------

  lemma TurnGrows(ackTimeout: int, r: Reactor, keys: seq<Key>, now: int)
    ensures Lasts(r.timers, Next(ackTimeout, r, RunCallback(keys), now).timers)
  {
    if r.firing != [] {
      ClearGrows(r.timers, r.firing[0].callback.session, keys, now);
    }
  }

  lemma ClearGrows(t: Timers, session: string, keys: seq<Key>, now: int)
    ensures Lasts(t, ClearSession(t, session, keys, now))
  {
    DoGrows(t, Clear(session, keys), now);
  }

  ghost predicate Lasts(t: Timers, u: Timers) {
    t.fired <= u.fired && t.removed <= u.removed
  }

  lemma SendGrows(r: Reactor, session: string, timerKey: string, payload: string, timeout: int, maxRetries: nat,
                  now: int)
    ensures Lasts(r.timers, Dispatch(r, session, timerKey, payload, timeout, maxRetries, now).timers)
  {
    var cb := AckTimeout(session, timerKey, payload, 0, maxRetries, |r.messages|);
    DoGrows(r.timers, StartAck(session, timerKey, timeout, cb), now);
  }

  /** What fired or was removed stays so. */
  lemma TimersGrow(ackTimeout: int, r: Reactor, ev: Event, now: int)
    ensures Lasts(r.timers, Next(ackTimeout, r, ev, now).timers)
  {
    match ev
    case Connect(_, _) =>
    case Disconnect(_) =>
    case Send(session, timerKey, payload, timeout, maxRetries) =>
      SendGrows(r, session, timerKey, payload, timeout, maxRetries, now);
    case StartAckTimer(session, timerKey, payload, timeout, maxRetries) =>
      SendGrows(r, session, timerKey, payload, timeout, maxRetries, now);
    case AckReceived(session, timerKey) => DoGrows(r.timers, CancelAck(session, timerKey), now);
    case ClearTimers(session, keys) => ClearGrows(r.timers, session, keys, now);
    case StartKeepaliveTimer(session, timeout) =>
      DoGrows(r.timers, StartKa(session, timeout, KeepaliveTimeout(session)), now);
    case ResetKeepaliveTimer(session) => DoGrows(r.timers, ResetKa(session), now);
    case TimerfdReady => DoGrows(r.timers, Tick, now);
    case RunCallback(keys) => TurnGrows(ackTimeout, r, keys, now);
  }

  lemma RunStep(ackTimeout: int, evs: seq<Event>, times: seq<int>, run: seq<Reactor>, i: nat)
    requires IsRun(ackTimeout, evs, times, run) && i < |evs|
    ensures Inv(run[i], times[i]) && Possible(run[i], evs[i])
    ensures run[i + 1] == Next(ackTimeout, run[i], evs[i], times[i])
  {
    RunInv(ackTimeout, evs, times, run, i, times[i]);
    assert StepAt(ackTimeout, evs, times, run, i);
  }

  lemma RunInvAt(ackTimeout: int, evs: seq<Event>, times: seq<int>, run: seq<Reactor>, i: nat) returns (now: int)
    requires IsRun(ackTimeout, evs, times, run) && i < |run|
    ensures Inv(run[i], now)
  {
    now := if i == 0 then 0 else times[i - 1];
    RunInv(ackTimeout, evs, times, run, i, now);
  }

  /** Message c as the event leaves it. */
  function Afterwards(r: Reactor, ev: Event, c: nat): Message
    requires c < |r.messages|
  {
    if TakesTurn(r, ev, c) then
      var cb := r.firing[0].callback;
      AfterTurn(r.messages[c], cb, cb.session in r.sessions, r.timers.nextId)
    else r.messages[c]
  }

  /** A callback whose turn has come belongs to a running message, repeats it and knows its send count. */
  ghost predicate TurnIsDue(r: Reactor, c: nat)
    requires r.firing != [] && r.firing[0].callback.AckTimeout?
  {
    && c < |r.messages|
    && var m, cb := r.messages[c], r.firing[0].callback;
       && m.ending == Running && m.timer !in r.timers.removed && m.sends == cb.retry + 1
       && Repeats(cb, m) && m.sends <= Limit(m.maxRetries)
  }

  lemma TurnDue(r: Reactor, ev: Event, now: int, c: nat)
    requires Inv(r, now) && TakesTurn(r, ev, c)
    ensures TurnIsDue(r, c)
  {
    var e := r.firing[0];
    assert Current(e, r.messages) && HasFired(r.timers.fired, e.id) && MessageOk(r.messages[c]);
  }

  /** One step of a run, as message c sees it. */
  lemma StepFacts(ackTimeout: int, evs: seq<Event>, times: seq<int>, run: seq<Reactor>, i: nat, c: nat)
    requires IsRun(ackTimeout, evs, times, run) && i < |evs|
    ensures |run[i].messages| <= |run[i + 1].messages| && Lasts(run[i].timers, run[i + 1].timers)
    ensures TakesTurn(run[i], evs[i], c) ==> TurnIsDue(run[i], c)
    ensures c < |run[i].messages| ==> run[i + 1].messages[c] == Afterwards(run[i], evs[i], c)
    ensures |run[i].messages| <= c < |run[i + 1].messages| ==>
      run[i + 1].messages[c].sends == 1 && run[i + 1].messages[c].ending == Running
  {
    RunStep(ackTimeout, evs, times, run, i);
    StepAsSeen(ackTimeout, run[i], evs[i], times[i], c);
  }

  /** Messages join at the end, sent once; none leaves. */
  lemma MessagesJoin(ackTimeout: int, r: Reactor, ev: Event, now: int, c: nat)
    ensures var r' := Next(ackTimeout, r, ev, now);
            && |r.messages| <= |r'.messages|
            && (|r.messages| <= c < |r'.messages| ==> r'.messages[c].sends == 1 && r'.messages[c].ending == Running)
  {
  }

  lemma StepAsSeen(ackTimeout: int, r: Reactor, ev: Event, now: int, c: nat)
    requires Inv(r, now)
    ensures var r' := Next(ackTimeout, r, ev, now);
            && |r.messages| <= |r'.messages| && Lasts(r.timers, r'.timers)
            && (TakesTurn(r, ev, c) ==> TurnIsDue(r, c))
            && (c < |r.messages| ==> r'.messages[c] == Afterwards(r, ev, c))
            && (|r.messages| <= c < |r'.messages| ==> r'.messages[c].sends == 1 && r'.messages[c].ending == Running)
  {
    TimersGrow(ackTimeout, r, ev, now);
    MessagesJoin(ackTimeout, r, ev, now, c);
    if TakesTurn(r, ev, c) {
      TurnDue(r, ev, now, c);
      TurnOutcome(ackTimeout, r, ev, now, c);
    } else if c < |r.messages| {
      OthersStay(ackTimeout, r, ev, now, c);
    }
  }

  // ---------- how often a message is sent ----------

  /** No message is ever sent more often than its limit allows. */
  lemma SendsBounded(ackTimeout: int, evs: seq<Event>, times: seq<int>, run: seq<Reactor>, i: nat, c: nat)
    requires IsRun(ackTimeout, evs, times, run) && i < |run| && c < |run[i].messages|
    ensures 1 <= run[i].messages[c].sends <= Limit(run[i].messages[c].maxRetries)
    ensures run[i].messages[c].maxRetries >= 1 ==> run[i].messages[c].sends <= run[i].messages[c].maxRetries
  {
    var now := RunInvAt(ackTimeout, evs, times, run, i);
    LimitIsMaxRetries(run[i].messages[c].maxRetries);
  }

  /** The timer that awaits message m, which was sent again as attempt `retry`. */
  function AttemptTimer(m: Message, c: nat, id: nat, retry: nat, due: int): Entry {
    Entry(id, due, Key(Ack, m.session, m.timerKey),
          AckTimeout(m.session, m.timerKey, m.payload, retry, m.maxRetries, c))
  }

  /** Before the limit, every expiry sends the message once more and leaves a live timer for it. */
  lemma ExpiryResends(ackTimeout: int, evs: seq<Event>, times: seq<int>, run: seq<Reactor>, i: nat, c: nat)
    requires IsRun(ackTimeout, evs, times, run) && i < |evs| && Expires(run[i], evs[i], c)
    requires !RetriesUsedUp(run[i].firing[0].callback.retry, run[i].firing[0].callback.maxRetries)
    ensures c < |run[i].messages| && |run[i + 1].messages| == |run[i].messages|
    ensures run[i + 1].messages[c] == SentAgain(run[i].messages[c], run[i].timers.nextId)
    ensures run[i + 1].messages[c].sends == run[i].messages[c].sends + 1
    ensures var m := run[i].messages[c];
            && run[i + 1].sent == run[i].sent + [Packet(m.session, m.payload)]
            && Replaced(run[i].timers.heap, run[i + 1].timers.heap,
                        AttemptTimer(m, c, run[i].timers.nextId, m.sends, times[i] + ackTimeout * 1_000_000_000))
  {
    StepFacts(ackTimeout, evs, times, run, i, c);
    RunStep(ackTimeout, evs, times, run, i);
    var cb, q := run[i].firing[0].callback, run[i].(firing := run[i].firing[1..]);
    ResendParts(ackTimeout, q, cb, times[i]);
    NextTimer(q.timers, cb, q.messages[c], ackTimeout, times[i]);
  }

  lemma NextTimer(t: Timers, cb: Callback, m: Message, ackTimeout: int, now: int)
    requires Valid(t, now) && cb.AckTimeout? && !RetriesUsedUp(cb.retry, cb.maxRetries)
    requires Repeats(cb, m) && m.sends == cb.retry + 1
    ensures var u := Insert(t, Key(Ack, m.session, cb.timerKey), ackTimeout, NextAttempt(cb, m), now);
            Replaced(t.heap, u.heap, AttemptTimer(m, cb.chain, t.nextId, m.sends, now + ackTimeout * 1_000_000_000))
  {
    AttemptFits(cb, m, t.nextId);
    InsertValid(t, Key(Ack, m.session, cb.timerKey), ackTimeout, NextAttempt(cb, m), now);
  }

  /** How many of the first n events were expiries of message c. */
  ghost function Expiries(evs: seq<Event>, run: seq<Reactor>, c: nat, n: nat): nat
    requires |run| == |evs| + 1 && n <= |evs|
  {
    if n == 0 then 0
    else Expiries(evs, run, c, n - 1) + if Expires(run[n - 1], evs[n - 1], c) then 1 else 0
  }

  ghost predicate CountsExpiries(r: Reactor, c: nat, k: nat) {
    if c >= |r.messages| then k == 0
    else k == if r.messages[c].ending == Exhausted then r.messages[c].sends else r.messages[c].sends - 1
  }

  /** In every run each transmission after the first answers exactly one expiry; only the last expiry sends nothing. */
  lemma {:induction false} ExpiriesExact(ackTimeout: int, evs: seq<Event>, times: seq<int>, run: seq<Reactor>, i: nat,
                                         c: nat)
    requires IsRun(ackTimeout, evs, times, run) && i < |run|
    ensures CountsExpiries(run[i], c, Expiries(evs, run, c, i))
  {
    if i > 0 {
      ExpiriesExact(ackTimeout, evs, times, run, i - 1, c);
      StepFacts(ackTimeout, evs, times, run, i - 1, c);
    }
  }

  /** After k expiries a message was sent 1 + k times, up to the limit; the expiry that reaches it gives up. */
  lemma SentOncePerExpiry(ackTimeout: int, evs: seq<Event>, times: seq<int>, run: seq<Reactor>, i: nat, c: nat)
    requires IsRun(ackTimeout, evs, times, run) && i < |run| && c < |run[i].messages|
    ensures var m, k := run[i].messages[c], Expiries(evs, run, c, i);
            && k <= Limit(m.maxRetries)
            && (k < Limit(m.maxRetries) ==> m.sends == 1 + k && m.ending != Exhausted)
            && (k == Limit(m.maxRetries) ==> m.sends == k && m.ending == Exhausted)
  {
    ExpiriesExact(ackTimeout, evs, times, run, i, c);
    var now := RunInvAt(ackTimeout, evs, times, run, i);
  }

  // ---------- every transmission is accounted for ----------

  /** The event makes the reactor transmit for message c: it begins the message, or is an expiry before the limit. */
  predicate Transmits(r: Reactor, ev: Event, c: nat) {
    || (ev.Send? && ev.session in r.sessions && c == |r.messages|)
    || (Expires(r, ev, c) && !RetriesUsedUp(r.firing[0].callback.retry, r.firing[0].callback.maxRetries))
  }

  /** Nothing but those events puts a packet on the wire, and the packet is the message's payload to its session. */
  lemma TransmissionsExact(ackTimeout: int, evs: seq<Event>, times: seq<int>, run: seq<Reactor>, i: nat)
    requires IsRun(ackTimeout, evs, times, run) && i < |evs|
    ensures forall c: nat :: Transmits(run[i], evs[i], c) ==>
      && c < |run[i + 1].messages|
      && run[i + 1].sent == run[i].sent + [Packet(run[i + 1].messages[c].session, run[i + 1].messages[c].payload)]
    ensures (forall c: nat :: !Transmits(run[i], evs[i], c)) ==> run[i + 1].sent == run[i].sent
  {
    RunStep(ackTimeout, evs, times, run, i);
    forall c: nat | Transmits(run[i], evs[i], c)
      ensures c < |run[i + 1].messages|
      ensures run[i + 1].sent == run[i].sent + [Packet(run[i + 1].messages[c].session, run[i + 1].messages[c].payload)]
    {
      if evs[i].Send? {
        FirstTimer(ackTimeout, evs, times, run, i);
      } else {
        ExpiryResends(ackTimeout, evs, times, run, i, c);
      }
    }
    if forall c: nat :: !Transmits(run[i], evs[i], c) {
      Silent(ackTimeout, run[i], evs[i], times[i]);
    }
  }

  lemma Silent(ackTimeout: int, r: Reactor, ev: Event, now: int)
    requires forall c: nat :: !Transmits(r, ev, c)
    ensures Next(ackTimeout, r, ev, now).sent == r.sent
  {
    if ev.Send? {
      assert !Transmits(r, ev, |r.messages|);
    } else if ev.RunCallback? && r.firing != [] && r.firing[0].callback.AckTimeout? {
      assert !Transmits(r, ev, r.firing[0].callback.chain);
    }
  }

  // ---------- giving up ----------

  /** The session loses its timers and keepalive settings, and no other does. */
  ghost predicate Cleared(t: Timers, u: Timers, session: string) {
    && WithoutSession(t.heap, u.heap, session)
    && u.timeouts == t.timeouts - {session} && u.callbacks == t.callbacks - {session}
  }

  /** The session has no timer left, and is removed (TCP) or blacklisted (UDP); the others stay as they are. */
  ghost predicate EndsSession(r: Reactor, r': Reactor, session: string) {
    && session in r.sessions && Cleared(r.timers, r'.timers, session)
    && (if r.sessions[session].transport.Tcp? then r'.sessions == r.sessions - {session}
        else r'.sessions == r.sessions[session := Session(Udp, true)])
  }

  lemma GiveUpEnds(r: Reactor, cb: Callback, keys: seq<Key>, now: int)
    requires Valid(r.timers, now) && cb.AckTimeout? && cb.chain < |r.messages| && cb.session in r.sessions
    requires ListsSession(r.timers.index, cb.session, keys)
    ensures EndsSession(r, GiveUp(r, cb, keys, now), cb.session)
  {
    ClearSessionExact(r.timers, cb.session, keys, now);
  }

  lemma TurnGivesUp(ackTimeout: int, r: Reactor, ev: Event, now: int, c: nat)
    requires Valid(r.timers, now) && Possible(r, ev) && Expires(r, ev, c) && c < |r.messages|
    requires RetriesUsedUp(r.firing[0].callback.retry, r.firing[0].callback.maxRetries)
    ensures var r' := Next(ackTimeout, r, ev, now);
            && EndsSession(r, r', r.firing[0].callback.session)
            && |r'.messages| == |r.messages| && r'.sent == r.sent
  {
    var q, cb := r.(firing := r.firing[1..]), r.firing[0].callback;
    GiveUpEnds(q, cb, ev.keys, now);
    assert Next(ackTimeout, r, ev, now) == GiveUp(q, cb, ev.keys, now);
    assert q.timers == r.timers && q.sessions == r.sessions;
  }

  lemma RunGivesUp(ackTimeout: int, evs: seq<Event>, times: seq<int>, run: seq<Reactor>, i: nat, c: nat)
    requires IsRun(ackTimeout, evs, times, run) && i < |evs| && Expires(run[i], evs[i], c) && c < |run[i].messages|
    requires RetriesUsedUp(run[i].firing[0].callback.retry, run[i].firing[0].callback.maxRetries)
    ensures EndsSession(run[i], run[i + 1], run[i].firing[0].callback.session)
    ensures |run[i + 1].messages| == |run[i].messages| && run[i + 1].sent == run[i].sent
  {
    RunStep(ackTimeout, evs, times, run, i);
    TurnGivesUp(ackTimeout, run[i], evs[i], times[i], c);
  }

  /** An expiry with no retries left gives up: the message was sent to its limit and the session ends. */
  lemma GivingUpEndsSession(ackTimeout: int, evs: seq<Event>, times: seq<int>, run: seq<Reactor>, i: nat, c: nat)
    requires IsRun(ackTimeout, evs, times, run) && i < |evs| && Expires(run[i], evs[i], c)
    requires RetriesUsedUp(run[i].firing[0].callback.retry, run[i].firing[0].callback.maxRetries)
    ensures c < |run[i].messages| == |run[i + 1].messages|
    ensures run[i + 1].messages[c] == run[i].messages[c].(ending := Exhausted)
    ensures run[i + 1].messages[c].sends == Limit(run[i].messages[c].maxRetries)
    ensures EndsSession(run[i], run[i + 1], run[i].messages[c].session) && run[i + 1].sent == run[i].sent
  {
    StepFacts(ackTimeout, evs, times, run, i, c);
    RunGivesUp(ackTimeout, evs, times, run, i, c);
  }

  /** The expiry that completes the limit is the one that gives up. */
  lemma LastExpiryGivesUp(ackTimeout: int, evs: seq<Event>, times: seq<int>, run: seq<Reactor>, i: nat, c: nat)
    requires IsRun(ackTimeout, evs, times, run) && i < |evs| && Expires(run[i], evs[i], c)
    ensures c < |run[i].messages| && c < |run[i + 1].messages|
    ensures var m := run[i].messages[c];
            Expiries(evs, run, c, i) + 1 == Limit(m.maxRetries) <==>
            run[i + 1].messages[c].ending == Exhausted && EndsSession(run[i], run[i + 1], m.session)
  {
    StepFacts(ackTimeout, evs, times, run, i, c);
    ExpiriesExact(ackTimeout, evs, times, run, i, c);
    if RetriesUsedUp(run[i].firing[0].callback.retry, run[i].firing[0].callback.maxRetries) {
      GivingUpEndsSession(ackTimeout, evs, times, run, i, c);
    }
  }

  /** A message that used up its retries did so at an expiry that ended its session. */
  lemma {:induction false} ExhaustedHow(ackTimeout: int, evs: seq<Event>, times: seq<int>, run: seq<Reactor>, i: nat,
                                        c: nat)
    returns (k: nat)
    requires IsRun(ackTimeout, evs, times, run) && i < |run|
    requires c < |run[i].messages| && run[i].messages[c].ending == Exhausted
    ensures k < i && Expires(run[k], evs[k], c) && EndsSession(run[k], run[k + 1], run[i].messages[c].session)
  {
    assert i > 0;
    k := i - 1;
    StepFacts(ackTimeout, evs, times, run, k, c);
    if Expires(run[k], evs[k], c) {
      GivingUpEndsSession(ackTimeout, evs, times, run, k, c);
    } else {
      k := ExhaustedHow(ackTimeout, evs, times, run, k, c);
    }
  }

  // ---------- what stops a message ----------

  /** Nothing will be sent for message c again: it ended, or its timer was taken away. */
  ghost predicate Stopped(r: Reactor, c: nat) {
    c < |r.messages| && (r.messages[c].ending != Running || r.messages[c].timer in r.timers.removed)
  }

  /** Once stopped, a message stays as it is for the rest of the run. */
  lemma {:induction false} StoppedForGood(ackTimeout: int, evs: seq<Event>, times: seq<int>, run: seq<Reactor>,
                                          i: nat, j: nat, c: nat)
    requires IsRun(ackTimeout, evs, times, run) && i <= j < |run| && Stopped(run[i], c)
    ensures Stopped(run[j], c) && run[j].messages[c] == run[i].messages[c]
  {
    if i < j {
      StoppedForGood(ackTimeout, evs, times, run, i, j - 1, c);
      StepFacts(ackTimeout, evs, times, run, j - 1, c);
    }
  }

  /** What a message is about never changes. */
  lemma {:induction false} SameMessage(ackTimeout: int, evs: seq<Event>, times: seq<int>, run: seq<Reactor>,
                                       i: nat, j: nat, c: nat)
    requires IsRun(ackTimeout, evs, times, run) && i <= j < |run| && c < |run[i].messages|
    ensures c < |run[j].messages|
    ensures var m, n := run[i].messages[c], run[j].messages[c];
            n == m.(sends := n.sends, timer := n.timer, ending := n.ending)
  {
    if i < j {
      SameMessage(ackTimeout, evs, times, run, i, j - 1, c);
      StepFacts(ackTimeout, evs, times, run, j - 1, c);
    }
  }

  /** While the reactor handles commands, a message that is not stopped has its timer under its own key. */
  lemma TimerOfMessage(r: Reactor, now: int, c: nat) returns (e: Entry)
    requires Inv(r, now) && r.firing == [] && c < |r.messages| && !Stopped(r, c)
    ensures e in r.timers.heap && e.id == r.messages[c].timer
    ensures e.key == Key(Ack, r.messages[c].session, r.messages[c].timerKey)
    ensures e.callback.AckTimeout? && e.callback.chain == c
  {
    assert Awaited(r.messages[c], r.timers, r.firing);
    e :| e in r.timers.heap && e.id == r.messages[c].timer;
    assert Current(e, r.messages);
  }

  /** An acknowledgement stops every message it is for: none of them is ever sent again. */
  lemma AcknowledgedNeverResent(ackTimeout: int, evs: seq<Event>, times: seq<int>, run: seq<Reactor>,
                                i: nat, j: nat, c: nat)
    requires IsRun(ackTimeout, evs, times, run) && i < j < |run| && c < |run[i].messages|
    requires evs[i].AckReceived? && evs[i].session in run[i].sessions
    requires run[i].messages[c].session == evs[i].session && run[i].messages[c].timerKey == evs[i].timerKey
    ensures c < |run[j].messages| && run[j].messages[c] == run[i].messages[c]
  {
    if Stopped(run[i], c) {
      StoppedForGood(ackTimeout, evs, times, run, i, j, c);
    } else {
      RunStep(ackTimeout, evs, times, run, i);
      var e := TimerOfMessage(run[i], times[i], c);
      AckStep(ackTimeout, evs, times, run, i, e);
      StoppedForGood(ackTimeout, evs, times, run, i + 1, j, c);
    }
  }

  /** The command begins to track a message. */
  predicate Begins(ev: Event) {
    ev.Send? || ev.StartAckTimer?
  }

  /**
   A tracked message gets its first timer: under the session and key of the command, due after
   its timeout, for no retry yet. A command to send also transmits the payload, once.
   */
  lemma FirstTimer(ackTimeout: int, evs: seq<Event>, times: seq<int>, run: seq<Reactor>, i: nat)
    requires IsRun(ackTimeout, evs, times, run) && i < |evs| && Begins(evs[i])
    ensures evs[i].session in run[i].sessions ==>
      var ev, r, r' := evs[i], run[i], run[i + 1];
      && Replaced(r.timers.heap, r'.timers.heap,
                  Entry(r.timers.nextId, times[i] + ev.timeout * 1_000_000_000, Key(Ack, ev.session, ev.timerKey),
                        AckTimeout(ev.session, ev.timerKey, ev.payload, 0, ev.maxRetries, |r.messages|)))
      && r'.messages == r.messages +
           [Message(ev.session, ev.timerKey, ev.payload, ev.maxRetries, 1, r.timers.nextId, Running)]
      && r'.sent == r.sent + (if ev.Send? then [Packet(ev.session, ev.payload)] else [])
      && r'.sessions == r.sessions && r'.firing == r.firing && SameSettings(r.timers, r'.timers)
    ensures evs[i].session !in run[i].sessions ==> run[i + 1] == run[i]
  {
    RunStep(ackTimeout, evs, times, run, i);
    var ev, r := evs[i], run[i];
    FirstTimerInserted(r.timers, ev, |r.messages|, times[i]);
  }

  lemma FirstTimerInserted(t: Timers, ev: Event, chain: nat, now: int)
    requires Valid(t, now) && Begins(ev)
    ensures var cb := AckTimeout(ev.session, ev.timerKey, ev.payload, 0, ev.maxRetries, chain);
            var u := Insert(t, Key(Ack, ev.session, ev.timerKey), ev.timeout, cb, now);
            && Replaced(t.heap, u.heap, Entry(t.nextId, now + ev.timeout * 1_000_000_000,
                                              Key(Ack, ev.session, ev.timerKey), cb))
            && SameSettings(t, u)
  {
    var cb := AckTimeout(ev.session, ev.timerKey, ev.payload, 0, ev.maxRetries, chain);
    InsertValid(t, Key(Ack, ev.session, ev.timerKey), ev.timeout, cb, now);
  }

  /** From sending to acknowledgement: the acknowledgement of a tracked message ends its transmissions. */
  lemma SentThenAcknowledged(ackTimeout: int, evs: seq<Event>, times: seq<int>, run: seq<Reactor>,
                             i: nat, j: nat, k: nat)
    requires IsRun(ackTimeout, evs, times, run) && i < j < k < |run|
    requires Begins(evs[i]) && evs[i].session in run[i].sessions
    requires evs[j] == AckReceived(evs[i].session, evs[i].timerKey) && evs[j].session in run[j].sessions
    ensures var c := |run[i].messages|;
            c < |run[j].messages| && c < |run[k].messages| && run[k].messages[c] == run[j].messages[c]
  {
    var c := |run[i].messages|;
    FirstTimer(ackTimeout, evs, times, run, i);
    SameMessage(ackTimeout, evs, times, run, i + 1, j, c);
    AcknowledgedNeverResent(ackTimeout, evs, times, run, j, k, c);
  }

  lemma AckStep(ackTimeout: int, evs: seq<Event>, times: seq<int>, run: seq<Reactor>, i: nat, e: Entry)
    requires IsRun(ackTimeout, evs, times, run) && i < |evs|
    requires evs[i].AckReceived? && evs[i].session in run[i].sessions
    requires e in run[i].timers.heap && e.key == Key(Ack, evs[i].session, evs[i].timerKey) && e.callback.AckTimeout?
    ensures e.id in run[i + 1].timers.removed && !IsLive(run[i + 1].timers.heap, e.id)
    ensures e.callback.chain < |run[i].messages| && run[i + 1].messages == run[i].messages
    ensures Stopped(run[i + 1], e.callback.chain)
  {
    RunStep(ackTimeout, evs, times, run, i);
  }

  // ---------- time drives a message to its limit ----------

  /** The timerfd expires when every timer of message c is due. */
  ghost predicate DueTick(r: Reactor, ev: Event, now: int, c: nat) {
    ev.TimerfdReady? && forall e :: e in r.timers.heap && ChainOf(e) == c ==> e.deadline <= now
  }

  /** How many of the events from i up to j were such ticks. */
  ghost function DueTicks(evs: seq<Event>, times: seq<int>, run: seq<Reactor>, c: nat, i: nat, j: nat): nat
    requires |run| == |evs| + 1 == |times| + 1 && i <= j <= |evs|
    decreases j
  {
    if i == j then 0
    else DueTicks(evs, times, run, c, i, j - 1) + if DueTick(run[j - 1], evs[j - 1], times[j - 1], c) then 1 else 0
  }

  /** An expired timer of message c whose callback has not run yet. */
  ghost function Pending(r: Reactor, c: nat): nat
    requires c < |r.messages|
  {
    if IsLive(r.firing, r.messages[c].timer) then 1 else 0
  }

  /** Every due tick is answered: by a transmission, or by a callback that is about to run. */
  lemma {:induction false} TicksDrive(ackTimeout: int, evs: seq<Event>, times: seq<int>, run: seq<Reactor>,
                                      i: nat, j: nat, c: nat)
    requires IsRun(ackTimeout, evs, times, run) && i <= j < |run| && c < |run[i].messages|
    ensures c < |run[j].messages|
    ensures Stopped(run[j], c) || run[j].messages[c].sends + Pending(run[j], c)
                                  >= run[i].messages[c].sends + DueTicks(evs, times, run, c, i, j)
  {
    if i < j {
      TicksDrive(ackTimeout, evs, times, run, i, j - 1, c);
      if Stopped(run[j - 1], c) {
        StoppedForGood(ackTimeout, evs, times, run, j - 1, j, c);
      } else {
        RunStepDrives(ackTimeout, evs, times, run, j - 1, c);
      }
    }
  }

  lemma RunStepDrives(ackTimeout: int, evs: seq<Event>, times: seq<int>, run: seq<Reactor>, i: nat, c: nat)
    requires IsRun(ackTimeout, evs, times, run) && i < |evs| && c < |run[i].messages| && !Stopped(run[i], c)
    ensures c < |run[i + 1].messages|
    ensures Stopped(run[i + 1], c) || run[i + 1].messages[c].sends + Pending(run[i + 1], c)
      >= run[i].messages[c].sends + Pending(run[i], c) + if DueTick(run[i], evs[i], times[i], c) then 1 else 0
  {
    RunStep(ackTimeout, evs, times, run, i);
    StepDrives(ackTimeout, run[i], evs[i], times[i], c);
  }

  lemma StepDrives(ackTimeout: int, r: Reactor, ev: Event, now: int, c: nat)
    requires Inv(r, now) && Possible(r, ev) && c < |r.messages| && !Stopped(r, c)
    ensures var r' := Next(ackTimeout, r, ev, now);
            && c < |r'.messages|
            && (Stopped(r', c) || r'.messages[c].sends + Pending(r', c)
                                  >= r.messages[c].sends + Pending(r, c) + if DueTick(r, ev, now, c) then 1 else 0)
  {
    if TakesTurn(r, ev, c) {
      TurnOutcome(ackTimeout, r, ev, now, c);
    } else {
      OthersStay(ackTimeout, r, ev, now, c);
    }
  }

  /**
   If nobody takes the timer away and the session stays, a message is sent exactly to its limit:
   `Limit` due ticks, with their callbacks run, exhaust it, and the expiry that did so ended its session.
   */
  lemma SentExactlyLimit(ackTimeout: int, evs: seq<Event>, times: seq<int>, run: seq<Reactor>, i: nat, j: nat, c: nat)
    returns (k: nat)
    requires IsRun(ackTimeout, evs, times, run) && i <= j < |run| && c < |run[i].messages| && run[j].firing == []
    requires DueTicks(evs, times, run, c, i, j) >= Limit(run[i].messages[c].maxRetries)
    ensures c < |run[j].messages|
    ensures var m := run[j].messages[c];
            m.timer !in run[j].timers.removed && m.ending != SessionGone ==>
              && m.ending == Exhausted && m.sends == Limit(m.maxRetries)
              && (m.maxRetries >= 1 ==> m.sends == m.maxRetries)
              && k < j && Expires(run[k], evs[k], c) && EndsSession(run[k], run[k + 1], m.session)
  {
    k := 0;
    TicksDrive(ackTimeout, evs, times, run, i, j, c);
    SameMessage(ackTimeout, evs, times, run, i, j, c);
    SendsBounded(ackTimeout, evs, times, run, i, c);
    SendsBounded(ackTimeout, evs, times, run, j, c);
    var m := run[j].messages[c];
    if m.timer !in run[j].timers.removed && m.ending != SessionGone {
      var now := RunInvAt(ackTimeout, evs, times, run, j);
      LimitIsMaxRetries(m.maxRetries);
      k := ExhaustedHow(ackTimeout, evs, times, run, j, c);
    }
  }

  // ---------- every limit is reached ----------

  ghost predicate Reachable(ackTimeout: int, r: Reactor) {
    exists now :: ReachableBy(ackTimeout, r, now)
  }

  /** Some run ends in r, at or before the given time. */
  ghost predicate ReachableBy(ackTimeout: int, r: Reactor, now: int) {
    exists evs, times, run :: EndsIn(ackTimeout, evs, times, run, r, now)
  }

  ghost predicate EndsIn(ackTimeout: int, evs: seq<Event>, times: seq<int>, run: seq<Reactor>, r: Reactor, now: int) {
    && IsRun(ackTimeout, evs, times, run) && run[|run| - 1] == r
    && (|times| > 0 ==> times[|times| - 1] <= now)
  }

  lemma ReachStart(ackTimeout: int)
    ensures ReachableBy(ackTimeout, Start(), 0)
  {
    assert EndsIn(ackTimeout, [], [], [Start()], Start(), 0);
  }

  lemma ReachNext(ackTimeout: int, r: Reactor, ev: Event, now: int, later: int)
    requires ReachableBy(ackTimeout, r, now) && now <= later && Possible(r, ev)
    ensures ReachableBy(ackTimeout, Next(ackTimeout, r, ev, later), later)
  {
    var evs, times, run :| EndsIn(ackTimeout, evs, times, run, r, now);
    Longer(ackTimeout, evs, times, run, ev, later, Next(ackTimeout, r, ev, later));
    assert EndsIn(ackTimeout, evs + [ev], times + [later], run + [Next(ackTimeout, r, ev, later)],
                  Next(ackTimeout, r, ev, later), later);
  }

  lemma Longer(ackTimeout: int, evs: seq<Event>, times: seq<int>, run: seq<Reactor>, ev: Event, later: int,
               next: Reactor)
    requires IsRun(ackTimeout, evs, times, run) && (|times| > 0 ==> times[|times| - 1] <= later)
    requires Possible(run[|run| - 1], ev) && next == Next(ackTimeout, run[|run| - 1], ev, later)
    ensures IsRun(ackTimeout, evs + [ev], times + [later], run + [next])
  {
    var evs', times', run' := evs + [ev], times + [later], run + [next];
    forall i | 0 <= i < |evs'|
      ensures StepAt(ackTimeout, evs', times', run', i)
    {
      if i < |evs| {
        assert StepAt(ackTimeout, evs, times, run, i);
        assert run'[i] == run[i] && run'[i + 1] == run[i + 1] && evs'[i] == evs[i] && times'[i] == times[i];
      }
    }
  }

  lemma ReachableInv(ackTimeout: int, r: Reactor, now: int)
    requires ReachableBy(ackTimeout, r, now)
    ensures Inv(r, now)
  {
    var evs, times, run :| EndsIn(ackTimeout, evs, times, run, r, now);
    RunInv(ackTimeout, evs, times, run, |run| - 1, now);
  }

  /** One session "s" and one message to it, sent k times, whose one timer is e. */
  ghost predicate Alone(r: Reactor, transport: Transport, maxRetries: nat, k: nat, e: Entry) {
    && r.firing == [] && r.sessions == map["s" := Session(transport, false)]
    && r.timers.heap == [e] && r.messages == [Message("s", "t", "p", maxRetries, k, e.id, Running)]
    && k >= 1 && e.callback == AckTimeout("s", "t", "p", k - 1, maxRetries, 0)
  }

  /** The same, with the timer expired and its callback about to run. */
  ghost predicate AloneDue(r: Reactor, transport: Transport, maxRetries: nat, k: nat, e: Entry) {
    && r.firing == [e] && r.sessions == map["s" := Session(transport, false)]
    && r.timers.heap == [] && r.timers.index == map[]
    && r.messages == [Message("s", "t", "p", maxRetries, k, e.id, Running)]
    && k >= 1 && e.callback == AckTimeout("s", "t", "p", k - 1, maxRetries, 0)
  }

  lemma NoTimersNoIndex(t: Timers, now: int)
    requires Valid(t, now) && t.heap == []
    ensures t.index == map[]
  {
    forall key
      ensures key !in t.index
    {
      assert !HasKey(t.heap, key);
    }
  }

  lemma FirstSend(ackTimeout: int, transport: Transport, maxRetries: nat) returns (r: Reactor, e: Entry)
    requires maxRetries < U32
    ensures ReachableBy(ackTimeout, r, 0) && Alone(r, transport, maxRetries, 1, e)
  {
    var connect, send := Connect("s", transport), Send("s", "t", "p", 1, maxRetries);
    ReachStart(ackTimeout);
    ReachNext(ackTimeout, Start(), connect, 0, 0);
    var r1 := Next(ackTimeout, Start(), connect, 0);
    ReachNext(ackTimeout, r1, send, 0, 0);
    r := Next(ackTimeout, r1, send, 0);
    e := DispatchAlone(Transmit(r1, "s", "p"), transport, maxRetries);
  }

  lemma DispatchAlone(r: Reactor, transport: Transport, maxRetries: nat) returns (e: Entry)
    requires r == Reactor(map["s" := Session(transport, false)], Empty(), [], [], [Packet("s", "p")])
    ensures Alone(Dispatch(r, "s", "t", "p", 1, maxRetries, 0), transport, maxRetries, 1, e)
  {
    var key, cb := Key(Ack, "s", "t"), AckTimeout("s", "t", "p", 0, maxRetries, 0);
    e := Entry(0, NANOS, key, cb);
  }

  lemma ExpireAlone(ackTimeout: int, r: Reactor, transport: Transport, maxRetries: nat, k: nat, e: Entry, now: int)
    returns (r': Reactor, later: int)
    requires ReachableBy(ackTimeout, r, now) && Alone(r, transport, maxRetries, k, e)
    ensures ReachableBy(ackTimeout, r', later) && AloneDue(r', transport, maxRetries, k, e)
  {
    later := if e.deadline <= now then now else e.deadline;
    ReachNext(ackTimeout, r, TimerfdReady, now, later);
    r' := Next(ackTimeout, r, TimerfdReady, later);
    assert UpperBound([e], later) == 1 && [e][..1] == [e] && [e][1..] == [];
    PopDueContents(r.timers, later);
    ReachableInv(ackTimeout, r', later);
    NoTimersNoIndex(r'.timers, later);
  }

  lemma ResendAlone(ackTimeout: int, r: Reactor, transport: Transport, maxRetries: nat, k: nat, e: Entry, now: int)
    returns (r': Reactor, e': Entry)
    requires ReachableBy(ackTimeout, r, now) && AloneDue(r, transport, maxRetries, k, e)
    requires maxRetries < U32 && k < Limit(maxRetries)
    ensures ReachableBy(ackTimeout, r', now) && Alone(r', transport, maxRetries, k + 1, e')
  {
    assert ListsSession(r.timers.index, "s", []);
    ReachNext(ackTimeout, r, RunCallback([]), now, now);
    r' := Next(ackTimeout, r, RunCallback([]), now);
    var key, next := Key(Ack, "s", "t"), NextAttempt(e.callback, r.messages[0]);
    e' := Entry(r.timers.nextId, now + ackTimeout * NANOS, key, next);
  }

  /** For every number of transmissions up to the limit there is a run that reaches it. */
  lemma {:induction false} EverySendReached(ackTimeout: int, transport: Transport, maxRetries: nat, k: nat)
    returns (r: Reactor, e: Entry, now: int)
    requires maxRetries < U32 && 1 <= k <= Limit(maxRetries)
    ensures ReachableBy(ackTimeout, r, now) && Alone(r, transport, maxRetries, k, e)
  {
    if k == 1 {
      r, e := FirstSend(ackTimeout, transport, maxRetries);
      now := 0;
    } else {
      var r1, e1, now1 := EverySendReached(ackTimeout, transport, maxRetries, k - 1);
      var r2, now2 := ExpireAlone(ackTimeout, r1, transport, maxRetries, k - 1, e1, now1);
      now := now2;
      r, e := ResendAlone(ackTimeout, r2, transport, maxRetries, k - 1, e1, now);
    }
  }

  /** Every limit is reached, over either transport, and the session then ended. */
  lemma LimitReached(ackTimeout: int, transport: Transport, maxRetries: nat) returns (r: Reactor)
    requires maxRetries < U32
    ensures Reachable(ackTimeout, r) && |r.messages| == 1 && r.messages[0].maxRetries == maxRetries
    ensures r.messages[0].sends == Limit(maxRetries) && (maxRetries >= 1 ==> r.messages[0].sends == maxRetries)
    ensures r.messages[0].ending == Exhausted && r.timers.heap == []
    ensures if transport.Tcp? then "s" !in r.sessions else "s" in r.sessions && r.sessions["s"].blacklisted
  {
    LimitIsMaxRetries(maxRetries);
    var r1, e, now1 := EverySendReached(ackTimeout, transport, maxRetries, Limit(maxRetries));
    var r2, now := ExpireAlone(ackTimeout, r1, transport, maxRetries, Limit(maxRetries), e, now1);
    assert ListsSession(r2.timers.index, "s", []);
    ReachNext(ackTimeout, r2, RunCallback([]), now, now);
    r := Next(ackTimeout, r2, RunCallback([]), now);
    assert CancelAll(r2.timers, [], now) == r2.timers;
  }

  // ---------- exactly when the configured number bounds the transmissions ----------

  /** In every run, messages tracked with `maxRetries` are sent at most that often. */
  ghost predicate NeverExceeds(ackTimeout: int, maxRetries: nat) {
    forall r: Reactor, c: int :: Reachable(ackTimeout, r) && 0 <= c < |r.messages| ==>
      (r.messages[c].maxRetries == maxRetries ==> r.messages[c].sends <= maxRetries)
  }

  /** With zero retries configured the unsigned test underflows: the unanswered message is sent again. */
  lemma ZeroRetriesExceeds(ackTimeout: int) returns (r: Reactor)
    ensures Reachable(ackTimeout, r) && |r.messages| == 1 && r.messages[0].maxRetries == 0 && r.messages[0].sends == 2
    ensures !NeverExceeds(ackTimeout, 0)
  {
    LimitIsMaxRetries(0);
    var s, e, now := EverySendReached(ackTimeout, Tcp, 0, 2);
    r := s;
  }

  lemma NeverExceedsIff(ackTimeout: int, maxRetries: nat)
    requires maxRetries < U32
    ensures NeverExceeds(ackTimeout, maxRetries) <==> maxRetries >= 1
  {
    if maxRetries == 0 {
      var r := ZeroRetriesExceeds(ackTimeout);
    } else {
      forall r: Reactor, c: int | Reachable(ackTimeout, r) && 0 <= c < |r.messages| &&
        r.messages[c].maxRetries == maxRetries
        ensures r.messages[c].sends <= maxRetries
      {
        var now :| ReachableBy(ackTimeout, r, now);
        ReachableInv(ackTimeout, r, now);
        LimitIsMaxRetries(maxRetries);
      }
    }
  }
}
