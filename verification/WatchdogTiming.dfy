// When the watchdog must leave a live client alone: how late a frame and how slow a poll may be.
module WatchdogTiming {
  import opened Bytes
  import opened GatewayBuffers
  import opened Watchdog

  // A client that has sent a first frame leaves at most `gap` seconds between two, and a poll
  // takes at most `delay` seconds from reading the last receive to comparing it with the clock.
  predicate Timely(s: State, gap: real, delay: real)
  {
    && (s.lastRx > 0.0 ==> s.now - s.lastRx <= gap)
    && (s.poll.HasRead? ==> s.now - s.poll.since <= delay)
  }

  predicate Fresh(s: State) { s.poll == Sleeping && s.lastRx >= 0.0 }

  ghost predicate LiveRun(c: Config, gap: real, delay: real, states: seq<State>, events: seq<Event>)
  {
    && Run(c, states, events) && Fresh(states[0])
    && forall k | 0 <= k < |states| :: Timely(states[k], gap, delay)
  }

  // No poll of any live run is about to zero the outputs.
  ghost predicate NeverActs(c: Config, gap: real, delay: real)
  {
    forall states: seq<State>, events: seq<Event>, k: nat |
      LiveRun(c, gap, delay, states, events) && k < |states| :: states[k].poll != Zeroing
  }

  // ---------- fast enough ----------

  predicate InTime(c: Config, gap: real, delay: real)
  {
    c.watchdogMs == 0 || (gap + delay) * 1000.0 <= c.watchdogMs as real
  }

  // No poll runs, or one that read a receive at most `gap` old
  predicate Harmless(c: Config, s: State, gap: real)
  {
    s.poll == Sleeping
    || (s.poll.HasRead? && c.watchdogMs > 0 && (s.poll.last > 0.0 ==> s.poll.since - s.poll.last <= gap))
  }

  lemma HarmlessStep(c: Config, s: State, e: Event, gap: real, delay: real)
    requires Harmless(c, s, gap) && Enabled(c, s, e) && Timely(s, gap, delay) && InTime(c, gap, delay)
    ensures Harmless(c, Next(c, s, e), gap)
  {
    hide Apply, Force, Hand;
  }

  lemma {:induction false} HarmlessRun(c: Config, gap: real, delay: real, states: seq<State>, events: seq<Event>,
                                       k: nat)
    requires LiveRun(c, gap, delay, states, events) && InTime(c, gap, delay) && k < |states|
    ensures Harmless(c, states[k], gap)
  {
    hide Harmless, Next, Enabled, Timely, InTime;
    if k == 0 {
      FreshHarmless(c, states[0], gap);
    } else {
      HarmlessRun(c, gap, delay, states, events, k - 1);
      HarmlessStep(c, states[k - 1], events[k - 1], gap, delay);
    }
  }

  lemma FreshHarmless(c: Config, s: State, gap: real)
    requires Fresh(s)
    ensures Harmless(c, s, gap)
  {
  }

  // ---------- too slow ----------

  lemma ExtendLive(c: Config, gap: real, delay: real, states: seq<State>, events: seq<Event>, e: Event)
    returns (more: seq<State>)
    requires LiveRun(c, gap, delay, states, events) && Enabled(c, states[|events|], e)
    requires Timely(Next(c, states[|events|], e), gap, delay)
    ensures LiveRun(c, gap, delay, more, events + [e]) && more == states + [Next(c, states[|events|], e)]
    ensures |more| == |events| + 2
  {
    hide Enabled, Next, Timely, Fresh;
    more := Extend(c, states, events, e);
  }

  // One whole receive of an empty payload
  lemma Receives(c: Config, gap: real, delay: real, states: seq<State>, events: seq<Event>)
    returns (more: seq<State>, done: seq<Event>)
    requires LiveRun(c, gap, delay, states, events) && gap > 0.0 && |states| == |events| + 1
    requires var s := states[|events|]; s.rx == RxIdle && |s.outs| == |c.ns|
    ensures LiveRun(c, gap, delay, more, done) && |more| == |done| + 1
    ensures var s, t := states[|events|], more[|done|];
            && t.rx == RxIdle && t.lastRx == t.now == s.now && t.poll == s.poll && |t.outs| == |c.ns|
  {
    hide LiveRun, Apply;
    LastTimely(c, gap, delay, states, events);
    more := ExtendLive(c, gap, delay, states, events, RxStamp([]));
    done := events + [RxStamp([])];
    more := ExtendLive(c, gap, delay, more, done, RxClear);
    done := done + [RxClear];
    more := ExtendLive(c, gap, delay, more, done, RxApply);
    done := done + [RxApply];
  }

  lemma LastTimely(c: Config, gap: real, delay: real, states: seq<State>, events: seq<Event>)
    requires LiveRun(c, gap, delay, states, events)
    ensures |states| == |events| + 1 && Timely(states[|events|], gap, delay)
  {
    hide Timely, Next, Enabled, Fresh;
  }

  // Time passes up to `end` with a frame at least every `gap` seconds, while the poll is held up.
  lemma {:induction false} Passes(c: Config, gap: real, delay: real, states: seq<State>, events: seq<Event>,
                                  end: real, n: nat) returns (more: seq<State>, done: seq<Event>)
    requires LiveRun(c, gap, delay, states, events) && gap > 0.0 && |states| == |events| + 1
    requires var s := states[|events|];
             && s.rx == RxIdle && |s.outs| == |c.ns| && s.lastRx == s.now <= end <= s.now + n as real * gap
             && s.poll.HasRead? && end - s.poll.since <= delay
    ensures LiveRun(c, gap, delay, more, done) && |more| == |done| + 1
    ensures var t := more[|done|]; t.now == end && t.poll == states[|events|].poll
    decreases n
  {
    hide LiveRun;
    var s := states[|events|];
    if s.now == end {
      return states, events;
    }
    var d := if end - s.now < gap then end - s.now else gap;
    OneLess(n, gap);
    more := ExtendLive(c, gap, delay, states, events, Tick(d));
    done := events + [Tick(d)];
    more, done := Receives(c, gap, delay, more, done);
    more, done := Passes(c, gap, delay, more, done, end, n - 1);
  }

  lemma OneLess(n: nat, gap: real)
    ensures n > 0 ==> n as real * gap == (n - 1) as real * gap + gap
  {
  }

  lemma Steps(delay: real, gap: real) returns (n: nat)
    requires gap > 0.0 && delay >= 0.0
    ensures delay <= n as real * gap
  {
    var q := delay / gap;
    assert q * gap == delay;
    n := q.Floor + 1;
    Scaled(q, n as real, gap);
  }

  lemma Scaled(a: real, b: real, g: real)
    requires a <= b && g > 0.0
    ensures a * g <= b * g
  {
  }

  // A frame arrives just in time, the poll has read the one before, and more frames arrive on
  // time while it is held up: it still finds silence.
  lemma SlowPoll(c: Config, gap: real, delay: real) returns (states: seq<State>, events: seq<Event>)
    requires gap > 0.0 && delay >= 0.0 && !InTime(c, gap, delay)
    ensures LiveRun(c, gap, delay, states, events) && |states| == |events| + 1
    ensures states[|events|].poll == Zeroing
  {
    var outs := seq(|c.ns|, _ => []);
    var s0 := State(outs, [], {}, 0.0, 1.0, false, RxIdle, Sleeping, NoHop);
    states, events := [s0], [];
    states, events := Receives(c, gap, delay, states, events);
    states, events := LateRead(c, gap, delay, states, events);
    states, events := Receives(c, gap, delay, states, events);
    var n := Steps(delay, gap);
    states, events := Passes(c, gap, delay, states, events, 1.0 + gap + delay, n);
    states, events := Strikes(c, gap, delay, states, events);
  }

  lemma LateRead(c: Config, gap: real, delay: real, states: seq<State>, events: seq<Event>)
    returns (more: seq<State>, done: seq<Event>)
    requires LiveRun(c, gap, delay, states, events) && gap > 0.0 && delay >= 0.0 && |states| == |events| + 1
    requires var s := states[|events|]; s.lastRx == s.now > 0.0 && s.poll == Sleeping && c.watchdogMs > 0
    ensures LiveRun(c, gap, delay, more, done) && |more| == |done| + 1
    ensures var s := states[|events|];
            more[|done|] == s.(now := s.now + gap, poll := HasRead(s.now, s.now + gap))
  {
    hide LiveRun;
    more := ExtendLive(c, gap, delay, states, events, Tick(gap));
    done := events + [Tick(gap)];
    more := ExtendLive(c, gap, delay, more, done, PollRead);
    done := done + [PollRead];
  }

  lemma Strikes(c: Config, gap: real, delay: real, states: seq<State>, events: seq<Event>)
    returns (more: seq<State>, done: seq<Event>)
    requires LiveRun(c, gap, delay, states, events) && |states| == |events| + 1
    requires var s := states[|events|]; s.poll.HasRead? && Overdue(c, s.poll.last, s.now)
    ensures LiveRun(c, gap, delay, more, done) && |more| == |done| + 1
    ensures more[|done|].poll == Zeroing
  {
    hide LiveRun, Overdue;
    LastTimely(c, gap, delay, states, events);
    more := ExtendLive(c, gap, delay, states, events, PollTest);
    done := events + [PollTest];
    more := ExtendLive(c, gap, delay, more, done, PollMark);
    done := done + [PollMark];
  }

  // The watchdog leaves every live client alone iff it is off, or the longest gap between two
  // frames and the longest delay inside a poll together do not exceed watchdog_ms.
  lemma NeverActsIff(c: Config, gap: real, delay: real)
    requires gap > 0.0 && delay >= 0.0
    ensures NeverActs(c, gap, delay) <==> c.watchdogMs == 0 || (gap + delay) * 1000.0 <= c.watchdogMs as real
  {
    if InTime(c, gap, delay) {
      forall states: seq<State>, events: seq<Event>, k: nat |
        LiveRun(c, gap, delay, states, events) && k < |states|
        ensures states[k].poll != Zeroing
      {
        HarmlessRun(c, gap, delay, states, events, k);
      }
    } else {
      var states, events := SlowPoll(c, gap, delay);
      assert states[|events|].poll == Zeroing;
    }
  }
}
