// The gateway's threads as interleaved atomic steps: receive, watchdog, Force and bridge share
// the output buffers.
module Watchdog {
  import opened Bytes
  import opened GatewayBuffers

  // ---------- state and steps ----------

  // The receive thread between its steps: _mon_rx stamps the time, then clears a trip, then
  // _apply_outputs runs.
  datatype Rx = RxIdle | RxStamped(data: bytes) | RxCleared(data: bytes)

  // The watchdog thread between its steps: last receive read (at `since`), silence found, trip
  // recorded
  datatype Poll = Sleeping | HasRead(last: real, since: real) | Tripping | Zeroing

  // The bridge between get_outputs(i) and write_raw_outputs(i, data)
  datatype Hop = NoHop | Holding(i: nat, data: bytes)

  datatype Config = Config(framed: bool, ns: seq<nat>, watchdogMs: nat)

  // `online` are the devices whose connection is up and whose cyclic controller runs; `wire` is
  // what each device was last handed.
  datatype State = State(outs: seq<bytes>, wire: seq<bytes>, online: set<nat>, lastRx: real, now: real,
                         tripped: bool, rx: Rx, poll: Poll, hop: Hop)

  datatype Event =
    | Tick(d: real)
    | RxStamp(payload: bytes) | RxClear | RxApply
    | ForceOutputs(idx: nat, forced: bytes)
    | PollRead | PollTest | PollMark | PollZero
    | HopRead(dev: nat) | HopWrite
    | LinkUp(dev: nat) | LinkDown(dev: nat)

  ghost predicate Enabled(c: Config, s: State, e: Event)
  {
    match e
    case Tick(d) => d >= 0.0
    case RxStamp(_) => s.rx == RxIdle
    case RxClear => s.rx.RxStamped?
    case RxApply => s.rx.RxCleared? && |s.outs| == |c.ns|
    case ForceOutputs(_, _) => true
    case PollRead => s.poll == Sleeping && c.watchdogMs > 0
    case PollTest => s.poll.HasRead?
    case PollMark => s.poll == Tripping
    case PollZero => s.poll == Zeroing
    case HopRead(i) => s.hop == NoHop && i < |s.outs|
    case HopWrite => s.hop.Holding?
    case LinkUp(_) => true
    case LinkDown(_) => true
  }

  predicate Overdue(c: Config, last: real, now: real)
  {
    last > 0.0 && (now - last) * 1000.0 > c.watchdogMs as real
  }

  ghost function Next(c: Config, s: State, e: Event): State
    requires Enabled(c, s, e)
  {
    match e
    case Tick(d) => s.(now := s.now + d)
    case RxStamp(data) => s.(rx := RxStamped(data), lastRx := s.now)
    case RxClear => s.(rx := RxCleared(s.rx.data), tripped := false)
    case RxApply => s.(rx := RxIdle, outs := Apply(c.framed, c.ns, s.outs, s.rx.data))
    case ForceOutputs(i, data) => s.(outs := Force(s.outs, i, data))
    case PollRead => s.(poll := HasRead(s.lastRx, s.now))
    case PollTest => s.(poll := if Overdue(c, s.poll.last, s.now) then Tripping else Sleeping)
    case PollMark => s.(poll := Zeroing, tripped := true)
    case PollZero => s.(poll := Sleeping, outs := ZeroAll(s.outs))
    case HopRead(i) => s.(hop := Holding(i, s.outs[i]))
    case HopWrite => s.(hop := NoHop, wire := Hand(c, s.wire, s.online, s.hop.i, s.hop.data))
    case LinkUp(i) => s.(online := s.online + {i})
    case LinkDown(i) => s.(online := s.online - {i})
  }

  predicate HasOutputs(c: Config, i: nat) { i < |c.ns| && c.ns[i] > 0 }

  // The bridge writes only to an online device that has outputs and for which the gateway gave it
  // some bytes.
  function Hand(c: Config, wire: seq<bytes>, online: set<nat>, i: nat, data: bytes): (r: seq<bytes>)
    ensures |r| == |wire|
  {
    if i < |wire| && i in online && HasOutputs(c, i) && data != [] then wire[i := data] else wire
  }

  ghost predicate Run(c: Config, states: seq<State>, events: seq<Event>)
  {
    && |states| == |events| + 1
    && forall k | 0 <= k < |events| ::
         Enabled(c, states[k], events[k]) && states[k + 1] == Next(c, states[k], events[k])
  }

  // ---------- what silence keeps ----------

  ghost predicate IsZero(d: bytes) { forall p | 0 <= p < |d| :: d[p] == 0 }

  ghost predicate AllZero(outs: seq<bytes>) { forall i | 0 <= i < |outs| :: IsZero(outs[i]) }

  // A frame was received, no receive is pending and the client has been silent too long.
  ghost predicate Silent(c: Config, s: State)
  {
    s.rx == RxIdle && Overdue(c, s.lastRx, s.now)
  }

  predicate Quiet(e: Event) { !e.RxStamp? && !e.ForceOutputs? }

  ghost predicate QuietFrom(events: seq<Event>, from: nat, end: nat)
  {
    forall k | from <= k < end && k < |events| :: Quiet(events[k])
  }

  // Silence, and the current poll (if one runs) is going to zero the outputs or they are zero.
  ghost predicate Securing(c: Config, s: State)
  {
    && Silent(c, s)
    && (s.poll.HasRead? ==> s.poll.last == s.lastRx)
    && (s.poll == Sleeping ==> AllZero(s.outs))
  }

  lemma SilentStep(c: Config, s: State, e: Event)
    requires Silent(c, s) && Enabled(c, s, e) && Quiet(e)
    ensures Silent(c, Next(c, s, e))
    ensures e == PollRead ==> Securing(c, Next(c, s, e))
    ensures Securing(c, s) ==> Securing(c, Next(c, s, e))
    ensures AllZero(s.outs) ==> AllZero(Next(c, s, e).outs)
  {
  }

  lemma SilentRun(c: Config, states: seq<State>, events: seq<Event>, k: nat, j: nat)
    requires Run(c, states, events) && k <= j < |states|
    requires Silent(c, states[k]) && QuietFrom(events, k, j)
    ensures Silent(c, states[j])
    ensures Securing(c, states[k]) ==> Securing(c, states[j])
    ensures AllZero(states[k].outs) ==> AllZero(states[j].outs)
    decreases j - k
  {
    if k < j {
      SilentStep(c, states[k], events[k]);
      SilentRun(c, states, events, k + 1, j);
    }
  }

  // ---------- the fail-safe ----------

  // In every interleaving: from a moment k on at which a frame had been received, no receive was
  // pending and the client was silent for more than watchdog_ms, a poll that starts at a and is
  // over at b leaves every output byte zero, and they stay zero until a later receive or Force.
  // A late apply that landed after an earlier trip lies before k and is cleared by this poll.
  lemma FailSafe(c: Config, states: seq<State>, events: seq<Event>, k: nat, a: nat, b: nat, j: nat)
    requires Run(c, states, events) && k <= a < b <= j < |states|
    requires Silent(c, states[k]) && QuietFrom(events, k, j)
    requires events[a] == PollRead && states[b].poll == Sleeping
    ensures AllZero(states[b].outs) && AllZero(states[j].outs)
  {
    SilentRun(c, states, events, k, a);
    SilentStep(c, states[a], events[a]);
    SilentRun(c, states, events, a + 1, b);
    SilentRun(c, states, events, b, j);
  }

  // ---------- what keeps zero outputs zero ----------

  // The outputs are zero, and so they will be once a payload that is on its way has landed.
  ghost predicate ZeroSafe(c: Config, s: State)
  {
    && |s.outs| == |c.ns| && AllZero(s.outs)
    && (s.rx == RxIdle || AllZero(Apply(c.framed, c.ns, s.outs, s.rx.data)))
  }

  lemma ZeroAllOfZero(outs: seq<bytes>)
    requires AllZero(outs)
    ensures ZeroAll(outs) == outs
  {
    assert forall i | 0 <= i < |outs| :: ZeroAll(outs)[i] == outs[i];
  }

  lemma ZeroSafeStep(c: Config, s: State, e: Event)
    requires ZeroSafe(c, s) && Enabled(c, s, e) && Quiet(e)
    ensures ZeroSafe(c, Next(c, s, e))
  {
    hide Apply;
    ZeroAllOfZero(s.outs);
  }

  lemma ZeroSafeRun(c: Config, states: seq<State>, events: seq<Event>, j: nat)
    requires Run(c, states, events) && j < |states| && QuietFrom(events, 0, j) && ZeroSafe(c, states[0])
    ensures ZeroSafe(c, states[j])
  {
    hide ZeroSafe, Next, Enabled;
    if j > 0 {
      ZeroSafeRun(c, states, events, j - 1);
      ZeroSafeStep(c, states[j - 1], events[j - 1]);
    }
  }

  // Every run from s without a new receive or Force keeps the outputs zero.
  ghost predicate StaysZero(c: Config, s: State)
  {
    forall states: seq<State>, events: seq<Event>, j: nat |
      Run(c, states, events) && states[0] == s && QuietFrom(events, 0, j) && j < |states| :: AllZero(states[j].outs)
  }

  // Zero outputs, tripped or not, stay zero until a later receive or Force iff no stamped payload
  // with an effect other than zeros is still on its way to them.
  lemma StaysZeroIff(c: Config, s: State)
    requires |s.outs| == |c.ns| && AllZero(s.outs)
    ensures StaysZero(c, s) <==> s.rx == RxIdle || AllZero(Apply(c.framed, c.ns, s.outs, s.rx.data))
  {
    hide Apply, Next, Enabled;
    if ZeroSafe(c, s) {
      forall states: seq<State>, events: seq<Event>, j: nat |
        Run(c, states, events) && states[0] == s && QuietFrom(events, 0, j) && j < |states|
        ensures AllZero(states[j].outs)
      {
        ZeroSafeRun(c, states, events, j);
      }
    } else {
      var states, events := LandingRun(c, s);
      assert QuietFrom(events, 0, |events|) && !AllZero(states[|events|].outs);
    }
  }

  // The run in which the payload on its way lands
  lemma LandingRun(c: Config, s: State) returns (states: seq<State>, events: seq<Event>)
    requires |s.outs| == |c.ns| && s.rx != RxIdle
    ensures Run(c, states, events) && states[0] == s && QuietFrom(events, 0, |events|)
    ensures states[|events|].outs == Apply(c.framed, c.ns, s.outs, s.rx.data)
  {
    hide Apply;
    states, events := [s], [];
    if s.rx.RxStamped? {
      states := Extend(c, states, events, RxClear);
      events := events + [RxClear];
    }
    states := Extend(c, states, events, RxApply);
    events := events + [RxApply];
  }

  // ---------- what reaches the drives ----------

  // Device i's last written outputs are zero, or the bridge is about to make them so.
  ghost predicate WireSecuring(c: Config, s: State, i: nat)
  {
    && AllZero(s.outs) && i < |s.outs| && i < |s.wire|
    && (s.hop.Holding? && s.hop.i == i ==> s.hop.data != [] && IsZero(s.hop.data))
    && (!(s.hop.Holding? && s.hop.i == i) ==> IsZero(s.wire[i]))
    && s.outs[i] != [] && HasOutputs(c, i)
  }

  // Nothing is written to device i: it is not online or has no outputs, or its buffer is empty.
  ghost predicate WireStuck(c: Config, s: State, i: nat)
  {
    && i < |s.outs| && i < |s.wire|
    && (i in s.online && HasOutputs(c, i) ==> s.outs[i] == [] && (s.hop.Holding? && s.hop.i == i ==> s.hop.data == []))
  }

  // Device i neither goes up nor down between p and j.
  ghost predicate Steady(states: seq<State>, p: nat, j: nat, i: nat)
  {
    forall k | p <= k <= j && k < |states| :: i in states[k].online <==> i in states[p].online
  }

  lemma WireStep(c: Config, s: State, e: Event, i: nat)
    requires Silent(c, s) && Enabled(c, s, e) && Quiet(e) && i in s.online && WireSecuring(c, s, i)
    ensures WireSecuring(c, Next(c, s, e), i)
  {
    SilentStep(c, s, e);
  }

  lemma StuckStep(c: Config, s: State, e: Event, i: nat)
    requires Silent(c, s) && Enabled(c, s, e) && Quiet(e) && WireStuck(c, s, i)
    requires i in Next(c, s, e).online <==> i in s.online
    ensures WireStuck(c, Next(c, s, e), i) && Next(c, s, e).wire[i] == s.wire[i]
  {
  }

  lemma WireRun(c: Config, states: seq<State>, events: seq<Event>, k: nat, j: nat, i: nat)
    requires Run(c, states, events) && k <= j < |states|
    requires Silent(c, states[k]) && QuietFrom(events, k, j) && Steady(states, k, j, i)
    ensures i in states[k].online && WireSecuring(c, states[k], i) ==> WireSecuring(c, states[j], i)
    ensures WireStuck(c, states[k], i) ==> WireStuck(c, states[j], i) && states[j].wire[i] == states[k].wire[i]
    decreases j - k
  {
    hide Next, Enabled, WireStuck, WireSecuring, Silent;
    if k < j {
      SilentStep(c, states[k], events[k]);
      assert i in states[k + 1].online <==> i in states[k].online;
      if i in states[k].online && WireSecuring(c, states[k], i) { WireStep(c, states[k], events[k], i); }
      if WireStuck(c, states[k], i) { StuckStep(c, states[k], events[k], i); }
      WireRun(c, states, events, k + 1, j, i);
    }
  }

  // Once the poll of FailSafe is over, take any later moment j between two hops, after one hop for
  // device i that began at p, with the device's connection steady in between. There are zeros on
  // the wire to it iff it is online, has outputs and its buffer is not empty, or zeros were there
  // before.
  lemma FailSafeOnTheWireIff(c: Config, states: seq<State>, events: seq<Event>, k: nat, a: nat, b: nat,
                             p: nat, j: nat, i: nat)
    requires Run(c, states, events) && k <= a < b <= p < j < |states|
    requires Silent(c, states[k]) && QuietFrom(events, k, j)
    requires events[a] == PollRead && states[b].poll == Sleeping
    requires events[p] == HopRead(i) && states[j].hop == NoHop
    requires i < |states[p].wire| && Steady(states, p, j, i)
    ensures |states[j].wire| == |states[p].wire|
    ensures IsZero(states[j].wire[i])
            <==> (i in states[p].online && HasOutputs(c, i) && states[p].outs[i] != []) || IsZero(states[p].wire[i])
  {
    FailSafe(c, states, events, k, a, b, p);
    SilentRun(c, states, events, k, p);
    SilentStep(c, states[p], events[p]);
    assert Steady(states, p + 1, j, i) by { assert i in states[p + 1].online <==> i in states[p].online; }
    WireRun(c, states, events, p + 1, j, i);
    WireCount(c, states, events, p, j);
  }

  lemma WireCount(c: Config, states: seq<State>, events: seq<Event>, p: nat, j: nat)
    requires Run(c, states, events) && p <= j < |states|
    ensures |states[j].wire| == |states[p].wire|
  {
    if p < j { WireCount(c, states, events, p, j - 1); }
  }

  // In particular the fail-safe reaches an online device with outputs whose buffer is not empty.
  lemma FailSafeOnTheWire(c: Config, states: seq<State>, events: seq<Event>, k: nat, a: nat, b: nat,
                          p: nat, j: nat, i: nat)
    requires Run(c, states, events) && k <= a < b <= p < j < |states|
    requires Silent(c, states[k]) && QuietFrom(events, k, j)
    requires events[a] == PollRead && states[b].poll == Sleeping
    requires events[p] == HopRead(i) && states[j].hop == NoHop
    requires i < |states[p].wire| && Steady(states, p, j, i)
    requires i in states[p].online && HasOutputs(c, i) && states[p].outs[i] != []
    ensures i < |states[j].wire| && IsZero(states[j].wire[i])
  {
    FailSafeOnTheWireIff(c, states, events, k, a, b, p, j, i);
  }

  // ---------- what a receive, a Force and a hop leave behind ----------

  // Only these three steps change the output buffers.
  predicate ChangesOutputs(e: Event) { e.RxApply? || e.ForceOutputs? || e.PollZero? }

  lemma {:induction false} OutputsKept(c: Config, states: seq<State>, events: seq<Event>, k: nat, j: nat)
    requires Run(c, states, events) && k <= j < |states|
    requires forall m | k <= m < j :: !ChangesOutputs(events[m])
    ensures states[j].outs == states[k].outs
    decreases j - k
  {
    if k < j { OutputsKept(c, states, events, k, j - 1); }
  }

  // A hop holds what the buffer held when it began, and hands over exactly that.
  lemma {:induction false} HopHolds(c: Config, states: seq<State>, events: seq<Event>, p: nat, w: nat, i: nat)
    requires Run(c, states, events) && p < w < |states| && events[p] == HopRead(i)
    requires forall m | p < m < w :: events[m] != HopWrite
    ensures i < |states[p].outs| && states[w].hop == Holding(i, states[p].outs[i])
    decreases w - p
  {
    if p + 1 < w { HopHolds(c, states, events, p, w - 1, i); }
  }

  lemma HopDelivers(c: Config, states: seq<State>, events: seq<Event>, p: nat, w: nat, i: nat)
    requires Run(c, states, events) && p < w < |events| && events[p] == HopRead(i) && events[w] == HopWrite
    requires forall m | p < m < w :: events[m] != HopWrite
    ensures i < |states[p].outs| && |states[w + 1].wire| == |states[w].wire|
    ensures forall k | 0 <= k < |states[w].wire| ::
              states[w + 1].wire[k]
              == if k == i && i in states[w].online && i < |c.ns| && c.ns[i] > 0 && states[p].outs[i] != []
                 then states[p].outs[i] else states[w].wire[k]
  {
    HopHolds(c, states, events, p, w, i);
  }

  // After a Force, and until something else changes the buffers, a hop for that device holds the
  // forced bytes in front of what the buffer held; every other buffer is as it was.
  lemma ForceReaches(c: Config, states: seq<State>, events: seq<Event>, k: nat, p: nat, idx: nat, d: bytes)
    requires Run(c, states, events) && k < p < |events| && idx < |states[k].outs|
    requires events[k] == ForceOutputs(idx, d) && events[p] == HopRead(idx)
    requires forall m | k < m < p :: !ChangesOutputs(events[m])
    ensures states[p + 1].hop.Holding? && states[p + 1].hop.i == idx
    ensures var was, holds := states[k].outs[idx], states[p + 1].hop.data;
            var n := Min(|d|, |was|);
            |holds| == |was| && holds[..n] == d[..n] && holds[n..] == was[n..]
    ensures |states[p].outs| == |states[k].outs|
    ensures forall i | 0 <= i < |states[k].outs| && i != idx :: states[p].outs[i] == states[k].outs[i]
  {
    OutputsKept(c, states, events, k + 1, p);
  }

  // A receive stamps the time and clears a trip, and its payload is what gets applied.
  lemma {:induction false} ReceiveCarries(c: Config, states: seq<State>, events: seq<Event>, a: nat, b: nat,
                                          data: bytes)
    requires Run(c, states, events) && a < b < |states| && events[a] == RxStamp(data)
    requires forall m | a < m < b :: events[m] != RxApply
    ensures states[b].rx == RxStamped(data) || states[b].rx == RxCleared(data)
    ensures states[a + 1].lastRx == states[a].now
    ensures b < |events| && events[b] == RxClear ==> !states[b + 1].tripped
    decreases b - a
  {
    if a + 1 < b { ReceiveCarries(c, states, events, a, b - 1, data); }
  }

  // From the client to the wire, over any interleaving: a full flat payload is received and
  // applied, nothing else changes the buffers, and a hop for device i begins and ends with the
  // device online. Then the device was handed exactly the payload's bytes for it.
  lemma ClientReachesWire(c: Config, states: seq<State>, events: seq<Event>, a: nat, b: nat, p: nat, w: nat,
                          i: nat, data: bytes)
    requires Run(c, states, events) && a < b < p < w < |events|
    requires events[a] == RxStamp(data) && events[b] == RxApply && forall m | a < m < b :: events[m] != RxApply
    requires events[p] == HopRead(i) && forall m | b < m < p :: !ChangesOutputs(events[m])
    requires events[w] == HopWrite && forall m | p < m < w :: events[m] != HopWrite
    requires !c.framed && Bounded(c.ns, states[b].outs) && Total(c.ns) <= |data|
    requires i < |c.ns| && c.ns[i] > 0 && i in states[w].online && i < |states[w].wire|
    ensures Offset(c.ns, i) + c.ns[i] <= |data| && i < |states[w + 1].wire|
    ensures states[w + 1].wire[i] == data[Offset(c.ns, i)..Offset(c.ns, i) + c.ns[i]]
  {
    hide Offset, FlatApply, Bounded;
    ReceiveCarries(c, states, events, a, b, data);
    FullPayload(c.ns, states[b].outs, data);
    assert states[b + 1].outs == FlatApply(c.ns, states[b].outs, data);
    OutputsKept(c, states, events, b + 1, p);
    HopDelivers(c, states, events, p, w, i);
  }

  // ---------- what does not hold ----------

  lemma Extend(c: Config, states: seq<State>, events: seq<Event>, e: Event) returns (more: seq<State>)
    requires Run(c, states, events)
    requires Enabled(c, states[|events|], e)
    ensures Run(c, more, events + [e]) && more == states + [Next(c, states[|events|], e)]
  {
    hide Enabled, Next;
    more := states + [Next(c, states[|events|], e)];
    forall k | 0 <= k < |events| + 1
      ensures Enabled(c, more[k], (events + [e])[k]) && more[k + 1] == Next(c, more[k], (events + [e])[k])
    {
      if k < |events| { assert more[k] == states[k] && more[k + 1] == states[k + 1]; }
    }
  }

  // One receive that is stamped and cleared, one second of silence, one full poll
  const SILENT_POLL: seq<Event> := [Tick(1.0), PollRead, PollTest, PollMark, PollZero]

  lemma PollRun(c: Config, states: seq<State>, events: seq<Event>, outs: seq<bytes>) returns (more: seq<State>)
    requires Run(c, states, events) && c.watchdogMs == 10
    requires var s := states[|events|]; s.poll == Sleeping && s.lastRx == s.now == 1.0 && ZeroAll(s.outs) == outs
    ensures Run(c, more, events + SILENT_POLL)
    ensures more[|events| + 5] == states[|events|].(now := 2.0, tripped := true, outs := outs)
  {
    var s := states[|events|];
    more := Extend(c, states, events, Tick(1.0));
    more := Extend(c, more, events + [Tick(1.0)], PollRead);
    more := Extend(c, more, events + [Tick(1.0)] + [PollRead], PollTest);
    more := Extend(c, more, events + [Tick(1.0)] + [PollRead] + [PollTest], PollMark);
    more := Extend(c, more, events + [Tick(1.0)] + [PollRead] + [PollTest] + [PollMark], PollZero);
    assert events + SILENT_POLL == events + [Tick(1.0)] + [PollRead] + [PollTest] + [PollMark] + [PollZero];
  }

  // "Tripped implies outputs zero" fails: the payload of a receive stamped before the silence is
  // applied after the poll.
  lemma TrippedNotSafe() returns (c: Config, states: seq<State>, events: seq<Event>)
    ensures Run(c, states, events)
    ensures events == [RxStamp([5]), RxClear] + SILENT_POLL + [RxApply]
    ensures var s := states[|events|]; s.tripped && !AllZero(s.outs)
  {
    c := Config(false, [1], 10);
    var s0 := State([[0]], [[0]], {0}, 0.0, 1.0, false, RxIdle, Sleeping, NoHop);
    states := Extend(c, [s0], [], RxStamp([5]));
    states := Extend(c, states, [] + [RxStamp([5])], RxClear);
    events := [RxStamp([5]), RxClear];
    assert [] + [RxStamp([5])] + [RxClear] == events;
    assert ZeroAll([[0]])[0] == [0];
    states := PollRun(c, states, events, [[0]]);
    states := Extend(c, states, events + SILENT_POLL, RxApply);
    events := events + SILENT_POLL + [RxApply];
    assert Share([1], 0, [5]) == [5];
    assert states[|events|].outs[0] == [5];
    assert states[|events|].outs[0][0] == 5;
  }

  // With an emptied buffer the fail-safe does not reach the drive: a flat payload that covers
  // only the first of two devices empties the second buffer; after a full poll and a full hop
  // the drive still has its old setpoint.
  lemma EmptiedBufferKeepsWire() returns (c: Config, states: seq<State>, events: seq<Event>)
    ensures Run(c, states, events)
    ensures events == [RxStamp([5]), RxClear, RxApply] + SILENT_POLL + [HopRead(1), HopWrite]
    ensures var s := states[|events|];
            s.poll == Sleeping && s.hop == NoHop && AllZero(s.outs) && s.wire == [[7], [7]]
  {
    c := Config(false, [1, 1], 10);
    states := EmptyingRun(c);
    events := [RxStamp([5]), RxClear, RxApply];
    EmptiesSecond();
    states := PollRun(c, states, events, [[0], []]);
    HopPastEmpty(c, states[|events| + 5]);
    hide Next, Enabled;
    states := Extend(c, states, events + SILENT_POLL, HopRead(1));
    states := Extend(c, states, events + SILENT_POLL + [HopRead(1)], HopWrite);
    assert events + SILENT_POLL + [HopRead(1), HopWrite] == events + SILENT_POLL + [HopRead(1)] + [HopWrite];
    events := events + SILENT_POLL + [HopRead(1), HopWrite];
  }

  lemma EmptyingRun(c: Config) returns (states: seq<State>)
    requires c == Config(false, [1, 1], 10)
    ensures Run(c, states, [RxStamp([5]), RxClear, RxApply])
    ensures states[3] == State([[5], []], [[7], [7]], {0, 1}, 1.0, 1.0, false, RxIdle, Sleeping, NoHop)
  {
    var s0 := State([[7], [7]], [[7], [7]], {0, 1}, 0.0, 1.0, false, RxIdle, Sleeping, NoHop);
    states := Extend(c, [s0], [], RxStamp([5]));
    states := Extend(c, states, [] + [RxStamp([5])], RxClear);
    EmptiesSecond();
    states := Extend(c, states, [] + [RxStamp([5])] + [RxClear], RxApply);
    assert [] + [RxStamp([5])] + [RxClear] + [RxApply] == [RxStamp([5]), RxClear, RxApply];
  }

  lemma HopPastEmpty(c: Config, s: State)
    requires c.ns == [1, 1] && s.outs == [[0], []] && s.hop == NoHop
    ensures Enabled(c, s, HopRead(1)) && Next(c, s, HopRead(1)) == s.(hop := Holding(1, []))
    ensures var t := s.(hop := Holding(1, [])); Enabled(c, t, HopWrite) && Next(c, t, HopWrite) == s
  {
  }

  lemma EmptiesSecond()
    ensures FlatApply([1, 1], [[7], [7]], [5]) == [[5], []]
    ensures ZeroAll([[5], []]) == [[0], []]
  {
    assert Share([1, 1], 0, [5]) == [5] && Share([1, 1], 1, [5]) == [];
    assert FlatApply([1, 1], [[7], [7]], [5])[0] == [5] && FlatApply([1, 1], [[7], [7]], [5])[1] == [];
    assert ZeroAll([[5], []])[0] == [0] && ZeroAll([[5], []])[1] == [];
  }
}
