/** The transport's `next_deadline` names exactly the first instant at which `Tick` acts. */
module YamuxDeadline {
  import opened Efrp
  import opened YamuxModel
  import opened YamuxInvariant

  /** `now` is a time the transport passes on: not before the clock, and no deadline sum can wrap. */
  predicate Timely(m: Mux, now: nat) {
    m.ses.nowMs <= now <= U64_MAX - OPEN_TIMEOUT_MS
  }

  /** A slot that `Tick` newly resets. */
  ghost predicate NewlyReset(m: Mux, n: Mux) {
    exists i :: 0 <= i < STREAMS && !m.streams[i].reset && n.streams[i].reset
  }

  lemma SoonerReached(at: nat, condition: bool, start: nat, limit: nat, now: nat)
    requires start <= now <= U64_MAX - OPEN_TIMEOUT_MS && limit <= OPEN_TIMEOUT_MS
    ensures Sooner(at, condition, start, limit) <= now <==> at <= now || (condition && Expired(start, now, limit))
  {
  }

  lemma {:induction false} StreamsReached(m: Mux, now: nat, k: nat, at: nat)
    requires Clock(m) && Timely(m, now) && k <= STREAMS
    ensures StreamDeadlines(m.streams, k, at) <= now <==>
              at <= now || exists i :: 0 <= i < k && StreamExpired(m.streams[i], now)
  {
    if k > 0 {
      var s := m.streams[k - 1];
      var before := StreamDeadlines(m.streams, k - 1, at);
      StreamsReached(m, now, k - 1, at);
      SoonerReached(before, s.blocked, s.blockedMs, STALL_MS, now);
      SoonerReached(Sooner(before, s.blocked, s.blockedMs, STALL_MS), !s.acknowledged, s.openedMs, OPEN_TIMEOUT_MS,
                    now);
    }
  }

  lemma DeadlineReached(m: Mux, now: nat)
    requires Clock(m) && Timely(m, now)
    ensures NextDeadline(m) <= now <==>
              SessionExpired(m, now) || exists i :: 0 <= i < STREAMS && StreamExpired(m.streams[i], now)
  {
    hide Expired;
    var a := Sooner(U64_MAX, m.tx.out.Some? || m.tx.controls != [], m.tx.progressMs, IO_TIMEOUT_MS);
    var b := Sooner(a, m.rx.header != [] || m.rx.active, m.rx.progressMs, IO_TIMEOUT_MS);
    var c := Sooner(b, !m.rx.active && m.rx.header != [], m.rx.headerMs, IO_TIMEOUT_MS);
    var d := Sooner(c, m.rx.active && m.rx.discard, m.rx.drainMs, IO_TIMEOUT_MS);
    var e := Sooner(d, m.ses.pingPending, m.ses.pingMs, IO_TIMEOUT_MS);
    SoonerReached(U64_MAX, m.tx.out.Some? || m.tx.controls != [], m.tx.progressMs, IO_TIMEOUT_MS, now);
    SoonerReached(a, m.rx.header != [] || m.rx.active, m.rx.progressMs, IO_TIMEOUT_MS, now);
    SoonerReached(b, !m.rx.active && m.rx.header != [], m.rx.headerMs, IO_TIMEOUT_MS, now);
    SoonerReached(c, m.rx.active && m.rx.discard, m.rx.drainMs, IO_TIMEOUT_MS, now);
    SoonerReached(d, m.ses.pingPending, m.ses.pingMs, IO_TIMEOUT_MS, now);
    StreamsReached(m, now, STREAMS, e);
  }

  /** Without an expired stream the scan changes nothing. */
  lemma {:induction false} TickIdle(m: Mux, k: nat)
    requires k <= STREAMS
    requires forall i :: k <= i < STREAMS ==> !StreamExpired(m.streams[i], m.ses.nowMs)
    ensures TickStreams(m, k) == (m, Ok)
    decreases STREAMS - k
  {
    if k < STREAMS {
      TickIdle(m, k + 1);
    }
  }

  /** A reset stream stays reset. */
  lemma {:induction false} TickKeepsReset(m: Mux, k: nat, j: nat)
    requires k <= STREAMS && j < STREAMS && m.streams[j].reset
    ensures TickStreams(m, k).0.streams[j].reset
    decreases STREAMS - k
  {
    if k < STREAMS {
      if StreamExpired(m.streams[k], m.ses.nowMs) {
        TickKeepsReset(Reset(m, m.streams[k].id).0, k + 1, j);
      } else {
        TickKeepsReset(m, k + 1, j);
      }
    }
  }

  /** An expired stream is reset, or the session fails. */
  lemma {:induction false} TickActs(m: Mux, k: nat, j: nat)
    requires Base(m) && k <= j < STREAMS && m.ses.failure == Ok && StreamExpired(m.streams[j], m.ses.nowMs)
    ensures TickStreams(m, k).1 != Ok || TickStreams(m, k).0.streams[j].reset
    decreases STREAMS - k
  {
    hide Owner, Credit, Stalls, Expired;
    if StreamExpired(m.streams[k], m.ses.nowMs) {
      FindUnique(m.streams, m.ids.next, k);
      var (n, r) := Reset(m, m.streams[k].id);
      if r == Ok {
        ResetBase(m, m.streams[k].id);
        if k == j {
          TickKeepsReset(n, k + 1, j);
        } else {
          TickActs(n, k + 1, j);
        }
      }
    } else {
      TickActs(m, k + 1, j);
    }
  }

  /**
   `Tick(now)` fails or resets a stream if and only if `now` has reached `NextDeadline`.
   */
  lemma DeadlineExact(m: Mux, now: nat)
    requires Base(m) && m.ses.failure == Ok && Timely(m, now)
    ensures Tick(m, now).1 != Ok || NewlyReset(m, Tick(m, now).0) <==> now >= NextDeadline(m)
  {
    hide Slots, Owner, Credit, Stalls, StreamExpired;
    var n := m.(ses := m.ses.(nowMs := now));
    DeadlineReached(m, now);
    assert Base(n);
    if SessionExpired(n, now) {
    } else if exists j :: 0 <= j < STREAMS && StreamExpired(m.streams[j], now) {
      var j :| 0 <= j < STREAMS && StreamExpired(m.streams[j], now);
      TickActs(n, 0, j);
      assert !m.streams[j].reset by { ExpiredLive(m.streams[j], now); }
    } else {
      TickIdle(n, 0);
    }
  }

  lemma ExpiredLive(s: Stream, now: nat)
    requires StreamExpired(s, now)
    ensures !s.reset
  {
  }
}
