/**
 What happens to sessions and their timers in every run of the reactor: commands touch the
 session they name, a tick hands over what is due, and an expired keepalive ends its session.
 */
module SessionRuns {
  import opened TimerQueue
  import opened AckChain
  import opened AckRuns

  // ---------- sessions and their keepalives ----------

  /** What an event other than tracking, sending and expiry does to the sessions and their timers. */
  ghost predicate SessionEffect(r: Reactor, ev: Event, now: int, r': Reactor) {
    match ev
    case Connect(session, transport) =>
      r'.sessions == r.sessions[session := Session(transport, false)] && r'.timers == r.timers
    case Disconnect(session) => r'.sessions == r.sessions - {session} && r'.timers == r.timers
    case AckReceived(session, timerKey) =>
      && r'.sessions == r.sessions && SameSettings(r.timers, r'.timers)
      && if session in r.sessions then WithoutKey(r.timers.heap, r'.timers.heap, Key(Ack, session, timerKey))
         else r'.timers == r.timers
    case ClearTimers(session, _) =>
      && r'.sessions == r.sessions
      && if session in r.sessions then Cleared(r.timers, r'.timers, session) else r'.timers == r.timers
    case StartKeepaliveTimer(session, timeout) =>
      && r'.sessions == r.sessions
      && if session in r.sessions then
           && r'.timers.timeouts == r.timers.timeouts[session := timeout]
           && Replaced(r.timers.heap, r'.timers.heap, KeepaliveEntry(r, session, timeout, now))
         else r'.timers == r.timers
    case ResetKeepaliveTimer(session) =>
      && r'.sessions == r.sessions && SameSettings(r.timers, r'.timers)
      && if session in r.sessions && session in r.timers.timeouts then
           Replaced(r.timers.heap, r'.timers.heap, KeepaliveEntry(r, session, r.timers.timeouts[session], now))
         else r'.timers == r.timers
    case _ => true
  }

  /** The next timer instance, for the session's keepalive. */
  function KeepaliveEntry(r: Reactor, session: string, timeout: int, now: int): Entry {
    Entry(r.timers.nextId, now + timeout * 1_000_000_000, Key(Keepalive, session, ""), KeepaliveTimeout(session))
  }

  lemma SessionEvents(ackTimeout: int, r: Reactor, ev: Event, now: int)
    requires Inv(r, now) && Possible(r, ev)
    ensures SessionEffect(r, ev, now, Next(ackTimeout, r, ev, now))
  {
    if ev.StartKeepaliveTimer? {
      StartEvent(ackTimeout, r, ev, now);
    } else if ev.ResetKeepaliveTimer? {
      ResetEvent(ackTimeout, r, ev, now);
    } else if ev.AckReceived? {
      CancelValid(r.timers, Key(Ack, ev.session, ev.timerKey), now);
    } else if ev.ClearTimers? {
      ClearSessionExact(r.timers, ev.session, ev.keys, now);
    }
  }

  lemma StartEvent(ackTimeout: int, r: Reactor, ev: Event, now: int)
    requires Valid(r.timers, now) && ev.StartKeepaliveTimer?
    ensures SessionEffect(r, ev, now, Next(ackTimeout, r, ev, now))
  {
    StartKeepaliveValid(r.timers, ev.session, ev.timeout, KeepaliveTimeout(ev.session), now);
  }

  lemma ResetEvent(ackTimeout: int, r: Reactor, ev: Event, now: int)
    requires Valid(r.timers, now) && KeepalivesOnly(r.timers.callbacks) && ev.ResetKeepaliveTimer?
    ensures SessionEffect(r, ev, now, Next(ackTimeout, r, ev, now))
  {
    ResetKeepaliveValid(r.timers, ev.session, now);
  }

  /** In every run a session event changes that session and its timers as asked, and nothing else. */
  lemma SessionEventsExact(ackTimeout: int, evs: seq<Event>, times: seq<int>, run: seq<Reactor>, i: nat)
    requires AckRuns.IsRun(ackTimeout, evs, times, run) && i < |evs|
    ensures SessionEffect(run[i], evs[i], times[i], run[i + 1])
    ensures !Begins(evs[i]) && !evs[i].RunCallback? ==> run[i + 1].messages == run[i].messages
  {
    RunStep(ackTimeout, evs, times, run, i);
    SessionEvents(ackTimeout, run[i], evs[i], times[i]);
  }

  lemma KeepaliveTurn(ackTimeout: int, r: Reactor, ev: Event, now: int)
    requires Inv(r, now) && Possible(r, ev) && ev.RunCallback? && r.firing[0].callback.KeepaliveTimeout?
    ensures var r', session := Next(ackTimeout, r, ev, now), r.firing[0].callback.session;
            && r.firing[0].key == Key(Keepalive, session, "")
            && Cleared(r.timers, r'.timers, session) && r'.sessions == r.sessions - {session}
            && r'.messages == r.messages && r'.sent == r.sent && r'.firing == r.firing[1..]
  {
    assert Current(r.firing[0], r.messages);
    ClearSessionExact(r.timers, r.firing[0].callback.session, ev.keys, now);
  }

  /** A session whose keepalive timer expires is removed with all its timers, and nothing is sent. */
  lemma KeepaliveExpiryEndsSession(ackTimeout: int, evs: seq<Event>, times: seq<int>, run: seq<Reactor>, i: nat)
    requires AckRuns.IsRun(ackTimeout, evs, times, run) && i < |evs|
    requires evs[i].RunCallback? && run[i].firing != [] && run[i].firing[0].callback.KeepaliveTimeout?
    ensures var session := run[i].firing[0].key.session;
            && run[i + 1].sessions == run[i].sessions - {session}
            && Cleared(run[i].timers, run[i + 1].timers, session)
            && run[i + 1].messages == run[i].messages && run[i + 1].sent == run[i].sent
  {
    RunStep(ackTimeout, evs, times, run, i);
    KeepaliveTurn(ackTimeout, run[i], evs[i], times[i]);
  }

  /** A tick hands over exactly the due timers, in the order of their deadlines, to be called back. */
  lemma TickHandsOver(ackTimeout: int, evs: seq<Event>, times: seq<int>, run: seq<Reactor>, i: nat)
    requires AckRuns.IsRun(ackTimeout, evs, times, run) && i < |evs| && evs[i].TimerfdReady?
    ensures run[i + 1].firing + run[i + 1].timers.heap == run[i].timers.heap
    ensures forall e :: e in run[i].timers.heap ==> (e in run[i + 1].firing <==> e.deadline <= times[i])
    ensures run[i + 1].sessions == run[i].sessions && SameSettings(run[i].timers, run[i + 1].timers)
  {
    RunStep(ackTimeout, evs, times, run, i);
    ExpireExact(run[i].timers, times[i]);
    SplitDue(run[i].timers.heap, UpperBound(run[i].timers.heap, times[i]), times[i]);
  }

  lemma SplitDue(heap: seq<Entry>, p: nat, now: int)
    requires p <= |heap| && forall k :: 0 <= k < |heap| ==> (k < p <==> heap[k].deadline <= now)
    ensures heap[..p] + heap[p..] == heap
    ensures forall e :: e in heap ==> (e in heap[..p] <==> e.deadline <= now)
  {
    forall e | e in heap
      ensures e in heap[..p] <==> e.deadline <= now
    {
      var k :| 0 <= k < |heap| && heap[k] == e;
      if k < p {
        assert heap[..p][k] == e;
      }
    }
  }
}
