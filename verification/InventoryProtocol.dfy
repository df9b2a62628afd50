/**
 * The inventory-change protocol: udev broadcasts a change, the netlink listener turns it
 * into a trigger, the capacity-1 channel `dirty` holds the trigger, and the scan loop
 * takes it, waits one fixed window, drains the channel and rescans. A ticker is the
 * backstop.
 *
 * Goroutines, kernel and hardware are one labelled step system: `Enabled` says which steps
 * a state allows and `Apply` what a step does. All nondeterminism is in the labels.
 */
module InventoryProtocol {

  import opened Wrappers

  /** `debounce` is EventDebounce, `capacity` how many datagrams the socket buffer holds. */
  datatype Params = Params(debounce: nat, capacity: nat)

  /** What a datagram on the udev group announces: a monitored disk change, or something the
      listener ignores. `long` datagrams exceed the read buffer and arrive truncated. */
  datatype Datagram = Datagram(change: Option<nat>, long: bool)

  /** Closed: no socket. Binding: bound, first trigger not called yet. Reading: in the receive
      loop. Hint: a datagram or a loss report was read and trigger is about to be called. */
  datatype Listener = Closed | Binding | Reading | Hint

  /** Starting: before the first trigger. Due: window over and drained, or tick taken. */
  datatype Loop =
    | Starting
    | Idle
    | Debouncing(since: nat)
    | WindowOver
    | Due
    | Scanning
    | Stopped

  datatype State = State(
    now: nat,
    hw: nat,               // number of monitored disk changes udev has recorded
    seen: nat,             // value of hw when the latest scan began
    unsent: seq<nat>,      // recorded changes that udev has not broadcast yet
    queue: seq<Datagram>,  // socket receive queue
    lost: bool,            // the kernel dropped a datagram and has not reported it yet
    listener: Listener,
    token: bool,           // contents of the channel `dirty`
    tick: bool,            // contents of the ticker channel
    loop: Loop,
    scanEnd: nat,          // when the latest scan ended
    ready: bool)           // what Ready() reports

  datatype Label =
    | Advance(delta: nat)
    | Change
    | Broadcast(index: nat, long: bool)
    | Noise(long: bool)
    | Bind
    | Receive
    | Interrupt
    | Fail
    | Trigger
    | StartTrigger
    | TickFires
    | TakeTick
    | TakeToken
    | WindowEnds
    | Drain
    | ScanStart
    | ScanEnd
    | Stop

  ghost predicate Init(s: State) {
    && s.seen == 0 && s.now == 0 && s.scanEnd == 0
    && s.unsent == [] && s.queue == [] && !s.lost && s.listener.Closed?
    && !s.token && !s.tick && s.loop.Starting? && !s.ready
  }

  /** The listener is about to call trigger. */
  predicate WillTrigger(s: State) { s.listener.Binding? || s.listener.Hint? }

  /** The loop is about to do something that ends in a scan, and cannot wait or be cancelled. */
  predicate Committed(s: State) { s.loop.Starting? || s.loop.WindowOver? || s.loop.Due? }

  predicate LoopBusy(s: State) {
    Committed(s) || (s.loop.Idle? && (s.token || s.tick))
  }

  predicate ListenerBusy(s: State) {
    WillTrigger(s) || (s.listener.Reading? && (s.lost || s.queue != []))
  }

  /** Time passes only when neither goroutine can run, and not beyond the end of a window. */
  predicate Enabled(p: Params, s: State, l: Label) {
    match l
    case Advance(d) =>
      && d > 0 && !LoopBusy(s) && !ListenerBusy(s)
      && (s.loop.Debouncing? ==> s.now + d <= s.loop.since + p.debounce)
    case Change => true
    case Broadcast(i, _) => i < |s.unsent|
    case Noise(_) => true
    case Bind => s.listener.Closed? && !s.loop.Starting? && !s.loop.Stopped?
    case Receive => s.listener.Reading? && (s.lost || s.queue != [])
    case Interrupt => s.listener.Reading?
    case Fail => (s.listener.Binding? || s.listener.Reading?)
    case Trigger => WillTrigger(s)
    case StartTrigger => s.loop.Starting?
    case TickFires => !s.loop.Starting?
    case TakeTick => s.loop.Idle? && s.tick
    case TakeToken => s.loop.Idle? && s.token
    case WindowEnds => s.loop.Debouncing? && s.now >= s.loop.since + p.debounce
    case Drain => s.loop.WindowOver?
    case ScanStart => s.loop.Due?
    case ScanEnd => s.loop.Scanning?
    case Stop => s.loop.Idle? || s.loop.Debouncing?
  }

  /** The kernel queues a datagram if somebody listens and there is room, else it is lost. */
  function Deliver(p: Params, s: State, d: Datagram): State {
    if s.listener.Closed? then s
    else if |s.queue| < p.capacity then s.(queue := s.queue + [d])
    else s.(lost := true)
  }

  function Apply(p: Params, s: State, l: Label): State
    requires Enabled(p, s, l)
  {
    match l
    case Advance(d) => s.(now := s.now + d)
    case Change => s.(hw := s.hw + 1, unsent := s.unsent + [s.hw + 1])
    case Broadcast(i, long) =>
      Deliver(p, s.(unsent := s.unsent[..i] + s.unsent[i + 1..]), Datagram(Some(s.unsent[i]), long))
    case Noise(long) => Deliver(p, s, Datagram(None, long))
    case Bind => s.(listener := Binding, queue := [], lost := false)
    case Receive =>
      if s.lost then s.(lost := false, listener := Hint)
      else
        var d := s.queue[0];
        s.(queue := s.queue[1..], listener := if d.long || d.change.Some? then Hint else Reading)
    case Interrupt => s
    case Fail => s.(listener := Closed, queue := [], lost := false)
    case Trigger => s.(listener := Reading, token := true)
    case StartTrigger => s.(loop := Idle, token := true)
    case TickFires => s.(tick := true)
    case TakeTick => s.(loop := Due, tick := false)
    case TakeToken => s.(loop := Debouncing(s.now), token := false)
    case WindowEnds => s.(loop := WindowOver)
    case Drain => s.(loop := Due, token := false)
    case ScanStart => s.(loop := Scanning, seen := s.hw)
    case ScanEnd => s.(loop := Idle, scanEnd := s.now, ready := true)
    case Stop => s.(loop := Stopped, ready := false)
  }

  // ----- Runs

  predicate Runs(p: Params, s: State, ls: seq<Label>)
    decreases |ls|
  {
    ls == [] || (Enabled(p, s, ls[0]) && Runs(p, Apply(p, s, ls[0]), ls[1..]))
  }

  function After(p: Params, s: State, ls: seq<Label>): State
    requires Runs(p, s, ls)
    decreases |ls|
  {
    if ls == [] then s else After(p, Apply(p, s, ls[0]), ls[1..])
  }

  // ----- No lost wake-up

  predicate Queued(q: seq<Datagram>, v: nat) {
    exists d :: d in q && d.change == Some(v)
  }

  /** Something is left in the system that leads to a scan which begins after change `v`. */
  predicate Pending(s: State, v: nat) {
    || v in s.unsent
    || s.listener.Closed? || WillTrigger(s)
    || Queued(s.queue, v)
    || s.lost
    || s.token
    || s.loop.Debouncing?
    || Committed(s)
  }

  ghost predicate NothingLost(s: State) {
    !s.loop.Stopped? ==> forall v: nat :: s.seen < v <= s.hw ==> Pending(s, v)
  }

  ghost predicate Timed(p: Params, s: State) {
    && s.scanEnd <= s.now
    && (s.loop.Debouncing? ==> s.loop.since <= s.now <= s.loop.since + p.debounce)
    && (s.loop.Starting? ==> s.listener.Closed?)
    && (forall v :: v in s.unsent ==> v <= s.hw)
  }

  ghost predicate Inv(p: Params, s: State) {
    NothingLost(s) && Timed(p, s)
  }

  lemma DeliverKeeps(p: Params, s: State, d: Datagram, v: nat)
    requires !s.listener.Closed?
    ensures d.change == Some(v) ==> Queued(Deliver(p, s, d).queue, v) || Deliver(p, s, d).lost
    ensures Queued(s.queue, v) ==> Queued(Deliver(p, s, d).queue, v)
  {
    if |s.queue| < p.capacity {
      assert d in s.queue + [d];
      if Queued(s.queue, v) {
        var e :| e in s.queue && e.change == Some(v);
        assert e in s.queue + [d];
      }
    }
  }

  lemma Removed(unsent: seq<nat>, i: nat, v: nat)
    requires i < |unsent| && v in unsent && v != unsent[i]
    ensures v in unsent[..i] + unsent[i + 1..]
  {
    var k :| 0 <= k < |unsent| && unsent[k] == v;
    var rest := unsent[..i] + unsent[i + 1..];
    if k < i {
      assert rest[k] == v;
    } else {
      assert rest[k - 1] == v;
    }
  }

  lemma BroadcastPending(p: Params, s: State, i: nat, long: bool, v: nat)
    requires i < |s.unsent| && Pending(s, v) && !s.loop.Stopped?
    ensures Pending(Apply(p, s, Broadcast(i, long)), v)
  {
    hide Queued;
    if !s.listener.Closed? {
      var t := s.(unsent := s.unsent[..i] + s.unsent[i + 1..]);
      DeliverKeeps(p, t, Datagram(Some(s.unsent[i]), long), v);
      if v in s.unsent && v != s.unsent[i] {
        Removed(s.unsent, i, v);
      }
    }
  }

  lemma NoisePending(p: Params, s: State, long: bool, v: nat)
    requires Pending(s, v)
    ensures Pending(Apply(p, s, Noise(long)), v)
  {
    hide Queued;
    if !s.listener.Closed? {
      DeliverKeeps(p, s, Datagram(None, long), v);
    }
  }

  /** Reading a datagram that announces `v` alarms the listener; any other leaves it in the queue. */
  lemma ReadQueued(s: State, v: nat)
    requires Queued(s.queue, v)
    ensures s.queue != [] && (s.queue[0].change == Some(v) || Queued(s.queue[1..], v))
  {
    var d :| d in s.queue && d.change == Some(v);
    assert d == s.queue[0] || d in s.queue[1..];
  }

  lemma ReceivePending(p: Params, s: State, v: nat)
    requires Enabled(p, s, Receive) && Pending(s, v)
    ensures Pending(Apply(p, s, Receive), v)
  {
    hide Queued;
    if !s.lost && Queued(s.queue, v) {
      ReadQueued(s, v);
    }
  }

  lemma PendingStep(p: Params, s: State, l: Label, v: nat)
    requires Enabled(p, s, l) && Pending(s, v) && v <= s.hw && !s.loop.Stopped?
    requires l != ScanStart && l != Stop
    ensures Pending(Apply(p, s, l), v)
  {
    hide Queued, Deliver;
    match l {
      case Broadcast(i, long) => BroadcastPending(p, s, i, long, v);
      case Noise(long) => NoisePending(p, s, long, v);
      case Receive => ReceivePending(p, s, v);
      case _ =>
    }
  }

  lemma TimedStep(p: Params, s: State, l: Label)
    requires Timed(p, s) && Enabled(p, s, l)
    ensures Timed(p, Apply(p, s, l))
  {
    hide Deliver;
    if l.Broadcast? || l.Noise? {
      DeliverFrame(p, s, l);
    }
  }

  lemma DeliverFrame(p: Params, s: State, l: Label)
    requires Enabled(p, s, l) && (l.Broadcast? || l.Noise?)
    ensures var t := Apply(p, s, l);
            t == s.(unsent := t.unsent, queue := t.queue, lost := t.lost) && forall v :: v in t.unsent ==> v in s.unsent
  {
  }

  lemma CauseStep(p: Params, s: State, l: Label)
    requires NothingLost(s) && Timed(p, s) && Enabled(p, s, l)
    ensures NothingLost(Apply(p, s, l))
  {
    hide Queued, Deliver;
    var t := Apply(p, s, l);
    if l.Broadcast? || l.Noise? {
      DeliverFrame(p, s, l);
    }
    if !t.loop.Stopped? && l != ScanStart {
      forall v: nat | t.seen < v <= t.hw ensures Pending(t, v) {
        if v <= s.hw {
          PendingStep(p, s, l, v);
        } else {
          assert t.unsent[|s.unsent|] == v;
        }
      }
    }
  }

  lemma InvStep(p: Params, s: State, l: Label)
    requires Inv(p, s) && Enabled(p, s, l)
    ensures Inv(p, Apply(p, s, l))
  {
    hide Apply, NothingLost, Timed;
    TimedStep(p, s, l);
    CauseStep(p, s, l);
  }

  lemma {:induction false} InvAlways(p: Params, s: State, ls: seq<Label>)
    requires Inv(p, s) && Runs(p, s, ls)
    ensures Inv(p, After(p, s, ls))
    decreases |ls|
  {
    if ls != [] {
      InvStep(p, s, ls[0]);
      InvAlways(p, Apply(p, s, ls[0]), ls[1..]);
    }
  }

  /** In every reachable state, a change no scan has covered still has a pending cause. */
  lemma NoLostWakeup(p: Params, init: State, ls: seq<Label>, v: nat)
    requires Init(init) && Runs(p, init, ls)
    requires After(p, init, ls).loop != Stopped
    requires After(p, init, ls).seen < v <= After(p, init, ls).hw
    ensures Pending(After(p, init, ls), v)
  {
    InvAlways(p, init, ls);
  }

  lemma {:induction false} CountersGrow(p: Params, s: State, ls: seq<Label>)
    requires Runs(p, s, ls)
    ensures After(p, s, ls).hw >= s.hw && After(p, s, ls).now >= s.now
    decreases |ls|
  {
    if ls != [] {
      CountersGrow(p, Apply(p, s, ls[0]), ls[1..]);
    }
  }

  /** Draining the channel never discards an uncovered hint: the loop is committed to a scan
      that begins later and covers every change recorded before the drain. */
  lemma {:induction false} DrainLosesNothing(p: Params, s: State, ls: seq<Label>)
    requires s.loop.Due? && Runs(p, s, ls)
    ensures ScanStart !in ls ==> After(p, s, ls).loop == Due && Enabled(p, After(p, s, ls), ScanStart)
    ensures ScanStart in ls ==> s.hw <= After(p, s, ls).seen
    decreases |ls|
  {
    if ls != [] {
      var t := Apply(p, s, ls[0]);
      if ls[0] == ScanStart {
        SeenGrows(p, t, ls[1..]);
      } else {
        DrainLosesNothing(p, t, ls[1..]);
      }
    }
  }

  lemma {:induction false} SeenGrows(p: Params, s: State, ls: seq<Label>)
    requires Runs(p, s, ls) && s.seen <= s.hw
    ensures s.seen <= After(p, s, ls).seen <= After(p, s, ls).hw
    decreases |ls|
  {
    hide Apply, Enabled;
    if ls != [] {
      SeenStep(p, s, ls[0]);
      SeenGrows(p, Apply(p, s, ls[0]), ls[1..]);
    }
  }

  lemma SeenStep(p: Params, s: State, l: Label)
    requires Enabled(p, s, l) && s.seen <= s.hw
    ensures s.seen <= Apply(p, s, l).seen <= Apply(p, s, l).hw
  {
    hide Deliver;
    if l.Broadcast? || l.Noise? {
      DeliverFrame(p, s, l);
    }
  }

  // ----- Time bound

  function Max(a: nat, b: nat): nat { if a < b then b else a }

  /** A hint was given at time `t`, no scan has begun since, and the scan it causes can still
      begin by Max(t, end of the scan that was running) + EventDebounce. */
  ghost predicate Waiting(p: Params, s: State, t: nat) {
    && t <= s.now && s.scanEnd <= s.now
    && match s.loop
       case Idle => s.token && s.now == Max(t, s.scanEnd)
       case Scanning => s.token
       case Debouncing(since) => since <= Max(t, s.scanEnd) && s.now <= since + p.debounce
       case WindowOver => s.now <= Max(t, s.scanEnd) + p.debounce
       case Due => s.now <= Max(t, s.scanEnd) + p.debounce
       case _ => false
  }

  ghost predicate CallsTrigger(l: Label) { l == Trigger || l == StartTrigger }

  lemma WaitingStep(p: Params, s: State, l: Label, t: nat)
    requires Waiting(p, s, t) && Enabled(p, s, l) && l != ScanStart && l != Stop
    ensures Waiting(p, Apply(p, s, l), t)
    ensures !s.loop.Scanning? ==> Apply(p, s, l).scanEnd == s.scanEnd && Apply(p, s, l).loop != Scanning
  {
    hide Deliver;
    if l.Broadcast? || l.Noise? {
      DeliverFrame(p, s, l);
    }
  }

  lemma {:induction false} WaitingLasts(p: Params, s: State, ls: seq<Label>, t: nat)
    requires Waiting(p, s, t) && Runs(p, s, ls) && ScanStart !in ls && Stop !in ls
    ensures Waiting(p, After(p, s, ls), t)
    ensures !s.loop.Scanning? ==> After(p, s, ls).scanEnd == s.scanEnd && After(p, s, ls).loop != Scanning
    decreases |ls|
  {
    if ls != [] {
      WaitingStep(p, s, ls[0], t);
      WaitingLasts(p, Apply(p, s, ls[0]), ls[1..], t);
    }
  }

  /** A trigger called at time t is followed by a scan start no later than EventDebounce after
      t, or after the end of the scan that was running at t, whatever else happens meanwhile:
      as long as no scan has begun and none is running, the clock has not passed that bound. */
  lemma HintCoveredInTime(p: Params, init: State, pre: seq<Label>, l: Label, ls: seq<Label>)
    requires Init(init) && Runs(p, init, pre) && CallsTrigger(l)
    requires Enabled(p, After(p, init, pre), l) && After(p, init, pre).loop != Stopped
    requires Runs(p, Apply(p, After(p, init, pre), l), ls) && ScanStart !in ls && Stop !in ls
    ensures var s := After(p, init, pre);
            var f := After(p, Apply(p, s, l), ls);
            && (!s.loop.Scanning? ==> !f.loop.Scanning? && f.now <= s.now + p.debounce)
            && (s.loop.Scanning? && !f.loop.Scanning? ==> f.now <= Max(s.now, f.scanEnd) + p.debounce)
            && s.hw <= f.hw
  {
    InvAlways(p, init, pre);
    var s := After(p, init, pre);
    WaitingLasts(p, Apply(p, s, l), ls, s.now);
    CountersGrow(p, Apply(p, s, l), ls);
  }

  /** Change `v` is covered, or has been a hint since `t`, or is in front of the listener at time `t`. */
  ghost predicate Announced(p: Params, s: State, v: nat, t: nat) {
    || v <= s.seen
    || Waiting(p, s, t)
    || (s.now == t && Hears(s, v))
  }

  /** The listener has change `v`, or a report of its loss, in front of it. */
  predicate Hears(s: State, v: nat) {
    WillTrigger(s) || (s.listener.Reading? && (s.lost || Queued(s.queue, v)))
  }

  lemma DeliveryHears(p: Params, s: State, l: Label, v: nat)
    requires Hears(s, v) && Enabled(p, s, l) && (l.Broadcast? || l.Noise?)
    ensures Hears(Apply(p, s, l), v)
  {
    hide Queued;
    match l {
      case Broadcast(i, long) =>
        DeliverKeeps(p, s.(unsent := s.unsent[..i] + s.unsent[i + 1..]), Datagram(Some(s.unsent[i]), long), v);
      case Noise(long) => DeliverKeeps(p, s, Datagram(None, long), v);
    }
  }

  lemma HearsStep(p: Params, s: State, l: Label, v: nat)
    requires Hears(s, v) && Enabled(p, s, l) && l != Fail && l != Trigger
    ensures Hears(Apply(p, s, l), v)
    ensures Apply(p, s, l).now == s.now
  {
    hide Queued, Deliver;
    if l.Broadcast? || l.Noise? {
      DeliverFrame(p, s, l);
      DeliveryHears(p, s, l, v);
    } else if Queued(s.queue, v) {
      ReadQueued(s, v);
    }
  }

  lemma TriggerWaits(p: Params, s: State)
    requires Inv(p, s) && Enabled(p, s, Trigger) && !s.loop.Stopped?
    ensures Waiting(p, Apply(p, s, Trigger), s.now)
  {
  }

  /** Change `v` was announced at time `t`, or the socket is closed and its next bind counts. */
  ghost predicate Coming(p: Params, s: State, v: nat, t: nat) { Announced(p, s, v, t) || s.listener.Closed? }

  /** When the socket was bound for the last time in a run, or `t` if it was not. */
  function LastBind(p: Params, s: State, ls: seq<Label>, t: nat): nat
    requires Runs(p, s, ls)
    decreases |ls|
  {
    if ls == [] then t else LastBind(p, Apply(p, s, ls[0]), ls[1..], if ls[0] == Bind then s.now else t)
  }

  lemma WaitingLater(p: Params, s: State, t: nat)
    requires Waiting(p, s, t)
    ensures Waiting(p, s, s.now)
  {
  }

  lemma BindStep(p: Params, s: State, v: nat, t: nat)
    requires Inv(p, s) && Coming(p, s, v, t) && Enabled(p, s, Bind)
    ensures Coming(p, Apply(p, s, Bind), v, s.now)
  {
    hide Inv, Waiting;
    if Waiting(p, s, t) {
      WaitingStep(p, s, Bind, t);
      WaitingLater(p, Apply(p, s, Bind), t);
    }
  }

  lemma ComingStep(p: Params, s: State, l: Label, v: nat, t: nat)
    requires Inv(p, s) && v <= s.hw && Coming(p, s, v, t) && !s.loop.Stopped?
    requires Enabled(p, s, l) && l != Stop && l != Bind
    ensures Coming(p, Apply(p, s, l), v, t)
  {
    hide Inv, Waiting, Deliver, Queued;
    if l == ScanStart {
    } else if v <= s.seen {
      SeenOnlyByScan(p, s, l);
    } else if Waiting(p, s, t) {
      WaitingStep(p, s, l, t);
    } else if s.listener.Closed? {
      StaysClosed(p, s, l);
    } else if l == Trigger {
      TriggerWaits(p, s);
    } else if l != Fail {
      HearsStep(p, s, l, v);
    }
  }

  lemma SeenOnlyByScan(p: Params, s: State, l: Label)
    requires Enabled(p, s, l) && l != ScanStart
    ensures Apply(p, s, l).seen == s.seen
  {
    hide Deliver;
    if l.Broadcast? || l.Noise? {
      DeliverFrame(p, s, l);
    }
  }

  lemma StaysClosed(p: Params, s: State, l: Label)
    requires Enabled(p, s, l) && s.listener.Closed? && l != Bind
    ensures Apply(p, s, l).listener.Closed?
  {
  }

  lemma {:induction false} ComingLasts(p: Params, s: State, ls: seq<Label>, v: nat, t: nat)
    requires Inv(p, s) && v <= s.hw && Coming(p, s, v, t) && !s.loop.Stopped?
    requires Runs(p, s, ls) && Stop !in ls
    ensures Coming(p, After(p, s, ls), v, LastBind(p, s, ls, t))
    decreases |ls|
  {
    hide Inv, Coming, Apply, Enabled;
    if ls != [] {
      if ls[0] == Bind {
        BindStep(p, s, v, t);
      } else {
        ComingStep(p, s, ls[0], v, t);
      }
      InvStep(p, s, ls[0]);
      NotStopped(p, s, ls[0]);
      ComingLasts(p, Apply(p, s, ls[0]), ls[1..], v, if ls[0] == Bind then s.now else t);
    }
  }

  lemma NotStopped(p: Params, s: State, l: Label)
    requires Enabled(p, s, l) && l != Stop && !s.loop.Stopped?
    ensures !Apply(p, s, l).loop.Stopped? && s.hw <= Apply(p, s, l).hw
  {
    hide Deliver;
    if l.Broadcast? || l.Noise? {
      DeliverFrame(p, s, l);
    }
  }

  /** End to end: a change broadcast at time t is covered by a scan that has begun by
      Max(T, end of the latest scan) + EventDebounce, where T is t or, if the socket was closed or
      failed, the time of its last bind since. It holds for full queues and truncated datagrams,
      and in every state in which no scan is running and the socket is not closed. */
  lemma ChangeCoveredInTime(p: Params, init: State, pre: seq<Label>, i: nat, long: bool, ls: seq<Label>)
    requires Init(init) && Runs(p, init, pre)
    requires Enabled(p, After(p, init, pre), Broadcast(i, long)) && After(p, init, pre).loop != Stopped
    requires Runs(p, Apply(p, After(p, init, pre), Broadcast(i, long)), ls) && Stop !in ls
    ensures var s := After(p, init, pre);
            var s' := Apply(p, s, Broadcast(i, long));
            var f := After(p, s', ls);
            || s.unsent[i] <= f.seen || f.loop.Scanning? || f.listener.Closed?
            || f.now <= Max(LastBind(p, s', ls, s.now), f.scanEnd) + p.debounce
  {
    hide Apply, Enabled, Deliver, Runs, After, Inv, Hears, LastBind;
    InvAlways(p, init, pre);
    var s := After(p, init, pre);
    var s' := Apply(p, s, Broadcast(i, long));
    InvStep(p, s, Broadcast(i, long));
    BroadcastHeard(p, s, i, long);
    ComingLasts(p, s', ls, s.unsent[i], s.now);
  }

  lemma BroadcastHeard(p: Params, s: State, i: nat, long: bool)
    requires Inv(p, s) && Enabled(p, s, Broadcast(i, long))
    ensures var t := Apply(p, s, Broadcast(i, long));
            && i < |s.unsent| && s.unsent[i] <= s.hw
            && (Hears(t, s.unsent[i]) || t.listener.Closed?)
            && t.now == s.now && t.hw == s.hw && t.loop == s.loop
  {
    var v := s.unsent[i];
    assert v in s.unsent;
    if !s.listener.Closed? {
      DeliverKeeps(p, s.(unsent := s.unsent[..i] + s.unsent[i + 1..]), Datagram(Some(v), long), v);
    }
  }

  // ----- Progress

  /** Steps the scan loop still has to take, plus the rest of the window, before a scan begins. */
  function Rank(p: Params, s: State): int {
    match s.loop
    case Scanning => p.debounce + 5
    case Idle => p.debounce + 4
    case Debouncing(since) => 3 + since + p.debounce - s.now
    case WindowOver => 2
    case Due => 1
    case _ => 0
  }

  /** What a step contributes: 1 for each step of the loop, elapsed time inside the window. */
  function Work(s: State, l: Label): nat {
    match l
    case TakeTick => 1
    case TakeToken => 1
    case WindowEnds => 1
    case Drain => 1
    case ScanEnd => 1
    case Advance(d) => if s.loop.Debouncing? then d else 0
    case _ => 0
  }

  function TotalWork(p: Params, s: State, ls: seq<Label>): nat
    requires Runs(p, s, ls)
    decreases |ls|
  {
    if ls == [] then 0 else Work(s, ls[0]) + TotalWork(p, Apply(p, s, ls[0]), ls[1..])
  }

  lemma RankStep(p: Params, s: State, l: Label, t: nat)
    requires Waiting(p, s, t) && Enabled(p, s, l) && l != ScanStart && l != Stop
    ensures 1 <= Rank(p, Apply(p, s, l)) <= Rank(p, s) - Work(s, l)
  {
    hide Deliver;
    if l.Broadcast? || l.Noise? {
      DeliverFrame(p, s, l);
    }
  }

  /** While a hint waits, every unit of work lowers the rank and nothing raises it, so fewer
      than Rank units (at most EventDebounce + 5) fit before a scan begins, in every run. */
  lemma {:induction false} RankFalls(p: Params, s: State, ls: seq<Label>, t: nat)
    requires Waiting(p, s, t) && Runs(p, s, ls) && ScanStart !in ls && Stop !in ls
    ensures 1 <= Rank(p, After(p, s, ls)) <= Rank(p, s) - TotalWork(p, s, ls)
    decreases |ls|
  {
    if ls != [] {
      RankStep(p, s, ls[0], t);
      WaitingStep(p, s, ls[0], t);
      RankFalls(p, Apply(p, s, ls[0]), ls[1..], t);
    }
  }

  function ListenerRank(s: State): nat {
    2 * |s.queue| + (if s.lost then 2 else 0) + (if WillTrigger(s) then 1 else 0)
  }

  /** The step that brings the scan closer: of the loop if it can run, else of the listener,
      else the clock moves to the end of the window. */
  function NextStep(p: Params, s: State): Label {
    match s.loop
    case Scanning => ScanEnd
    case Idle => TakeToken
    case WindowOver => Drain
    case Due => ScanStart
    case Debouncing(since) =>
      if s.now >= since + p.debounce then WindowEnds
      else if WillTrigger(s) then Trigger
      else if ListenerBusy(s) then Receive
      else Advance(since + p.debounce - s.now)
    case _ => Interrupt
  }

  /** No state with a waiting hint is stuck: without any further change, datagram or socket
      step from outside, the goroutines alone reach a scan start. */
  lemma {:induction false} ScanReachable(p: Params, s: State, t: nat) returns (ls: seq<Label>)
    requires Waiting(p, s, t)
    ensures Runs(p, s, ls) && ls != [] && ls[|ls| - 1] == ScanStart
    ensures forall l :: l in ls ==> IsOwnStep(l) && l != Bind && l != StartTrigger && !l.Broadcast?
    ensures After(p, s, ls).seen == s.hw
    decreases Rank(p, s), ListenerRank(s)
  {
    hide Waiting, Enabled, Apply, NextStep, ListenerRank, WillTrigger, IsOwnStep;
    var l := NextStep(p, s);
    NextStepTaken(p, s, t);
    if l == ScanStart {
      ls := [l];
      assert ls[1..] == [];
    } else {
      var rest := ScanReachable(p, Apply(p, s, l), t);
      ls := [l] + rest;
      assert ls[1..] == rest;
    }
  }

  /** The next step is possible, keeps the hint waiting and makes progress, or it is the scan. */
  lemma NextStepTaken(p: Params, s: State, t: nat)
    requires Waiting(p, s, t)
    ensures var l := NextStep(p, s);
            && Enabled(p, s, l) && IsOwnStep(l) && l != Bind && l != StartTrigger && !l.Broadcast?
            && Rank(p, s) >= 1 && Apply(p, s, l).hw == s.hw
            && (l == ScanStart ==> Apply(p, s, l).seen == s.hw)
            && (l != ScanStart ==>
                  && Waiting(p, Apply(p, s, l), t) && Rank(p, Apply(p, s, l)) <= Rank(p, s)
                  && (Rank(p, Apply(p, s, l)) < Rank(p, s) || ListenerRank(Apply(p, s, l)) < ListenerRank(s)))
  {
    hide Deliver, Rank, Waiting, ListenerRank;
    var l := NextStep(p, s);
    NextStepEnabled(p, s, t);
    if l != ScanStart {
      WaitingStep(p, s, l, t);
      RankStep(p, s, l, t);
      if l == Receive || l == Trigger {
        ListenerRankFalls(p, s, l);
      }
    }
  }

  lemma NextStepEnabled(p: Params, s: State, t: nat)
    requires Waiting(p, s, t)
    ensures var l := NextStep(p, s);
            && Enabled(p, s, l) && l != Stop && Rank(p, s) >= 1
            && (l != ScanStart && l != Receive && l != Trigger ==> Work(s, l) > 0)
            && IsOwnStep(l) && l != Bind && l != StartTrigger && !l.Broadcast?
  {
  }

  lemma ListenerRankFalls(p: Params, s: State, l: Label)
    requires Enabled(p, s, l) && (l == Receive || l == Trigger)
    ensures ListenerRank(Apply(p, s, l)) < ListenerRank(s)
  {
    hide Deliver;
  }

  // ----- Every cause leads to a scan

  /** Steps of udev, the listener and the loop; no tick, no new change, no failure. */
  predicate IsOwnStep(l: Label) {
    match l
    case Advance(_) => true
    case Broadcast(_, _) => true
    case Bind => true
    case Receive => true
    case Trigger => true
    case StartTrigger => true
    case TakeToken => true
    case WindowEnds => true
    case Drain => true
    case ScanStart => true
    case ScanEnd => true
    case _ => false
  }

  /** How far a cause is from a waiting hint. */
  ghost function Stage(p: Params, s: State, v: nat): nat {
    if Waiting(p, s, s.now) then 0
    else if WillTrigger(s) then 1
    else if s.listener.Reading? && (s.lost || Queued(s.queue, v)) then 2
    else if s.listener.Closed? && !s.loop.Starting? then 3
    else 4
  }

  /** The step that brings the cause of change `v` forward. */
  ghost function NextCause(s: State, v: nat): Label
    requires v in s.unsent || s.listener.Closed? || WillTrigger(s) || Queued(s.queue, v) || s.lost
  {
    if s.loop.Starting? then StartTrigger
    else if WillTrigger(s) then Trigger
    else if s.listener.Closed? then Bind
    else if s.lost || Queued(s.queue, v) then Receive
    else
      var k: nat :| k < |s.unsent| && s.unsent[k] == v;
      Broadcast(k, false)
  }

  lemma HasCause(p: Params, s: State, v: nat)
    requires Inv(p, s) && !s.loop.Stopped? && Pending(s, v) && !Waiting(p, s, s.now)
    ensures v in s.unsent || s.listener.Closed? || WillTrigger(s) || Queued(s.queue, v) || s.lost
    ensures s.loop.Starting? || ((s.loop.Idle? || s.loop.Scanning?) && !s.token)
  {
    hide Queued;
  }

  /** What a cause's next step is expected to do. */
  ghost predicate StepsForward(p: Params, s: State, l: Label, v: nat) {
    && Enabled(p, s, l) && IsOwnStep(l) && l != ScanStart
    && var t := Apply(p, s, l);
       && t.hw == s.hw && !t.loop.Stopped?
       && (Stage(p, t, v) < Stage(p, s, v) || (Stage(p, t, v) == Stage(p, s, v) && |t.queue| < |s.queue|))
  }

  lemma StartForward(p: Params, s: State, v: nat)
    requires Inv(p, s) && s.loop.Starting?
    ensures StepsForward(p, s, StartTrigger, v)
  {
    hide Queued;
  }

  lemma TriggerForward(p: Params, s: State, v: nat)
    requires Inv(p, s) && (s.loop.Idle? || s.loop.Scanning?) && !s.token && WillTrigger(s)
    ensures StepsForward(p, s, Trigger, v)
  {
    hide Queued;
  }

  lemma BindForward(p: Params, s: State, v: nat)
    requires Inv(p, s) && (s.loop.Idle? || s.loop.Scanning?) && !s.token && s.listener.Closed?
    ensures StepsForward(p, s, Bind, v)
  {
    hide Queued;
  }

  lemma ReceiveForward(p: Params, s: State, v: nat)
    requires Inv(p, s) && (s.loop.Idle? || s.loop.Scanning?) && !s.token
    requires s.listener.Reading? && (s.lost || Queued(s.queue, v))
    ensures StepsForward(p, s, Receive, v)
  {
    hide Queued;
    if !s.lost {
      ReadQueued(s, v);
    }
  }

  lemma BroadcastForward(p: Params, s: State, k: nat, v: nat)
    requires Inv(p, s) && (s.loop.Idle? || s.loop.Scanning?) && !s.token
    requires s.listener.Reading? && !s.lost && !Queued(s.queue, v) && k < |s.unsent| && s.unsent[k] == v
    ensures StepsForward(p, s, Broadcast(k, false), v)
  {
    hide Queued, Deliver;
    BroadcastHeard(p, s, k, false);
    DeliverFrame(p, s, Broadcast(k, false));
  }

  lemma CauseStepsForward(p: Params, s: State, v: nat)
    requires Inv(p, s) && !s.loop.Stopped? && v <= s.hw && Pending(s, v) && !Waiting(p, s, s.now)
    ensures v in s.unsent || s.listener.Closed? || WillTrigger(s) || Queued(s.queue, v) || s.lost
    ensures StepsForward(p, s, NextCause(s, v), v)
  {
    hide Inv, Pending, Waiting, Queued, StepsForward;
    HasCause(p, s, v);
    var l := NextCause(s, v);
    match l {
      case StartTrigger => StartForward(p, s, v);
      case Trigger => TriggerForward(p, s, v);
      case Bind => BindForward(p, s, v);
      case Receive => ReceiveForward(p, s, v);
      case Broadcast(k, _) => BroadcastForward(p, s, k, v);
    }
  }

  /** From every reachable state, every cause an uncovered change can have leads to a scan that
      covers it: an unsent event, a closed socket, a queued or lost datagram, a listener about to
      trigger, a token, a window. Neither the ticker nor a further change is needed. */
  lemma {:induction false} CauseLeadsToScan(p: Params, s: State, v: nat) returns (ls: seq<Label>)
    requires Inv(p, s) && !s.loop.Stopped? && v <= s.hw && Pending(s, v)
    ensures Runs(p, s, ls) && ls != [] && ls[|ls| - 1] == ScanStart && forall l :: l in ls ==> IsOwnStep(l)
    ensures v <= After(p, s, ls).seen == s.hw
    decreases Stage(p, s, v), |s.queue|
  {
    hide Apply, Enabled, Inv, Pending, Stage, NextCause, Waiting;
    if Waiting(p, s, s.now) {
      ls := ScanReachable(p, s, s.now);
    } else {
      CauseStepsForward(p, s, v);
      var l := NextCause(s, v);
      InvStep(p, s, l);
      PendingStep(p, s, l, v);
      var rest := CauseLeadsToScan(p, Apply(p, s, l), v);
      ls := [l] + rest;
      assert ls[1..] == rest;
    }
  }

  /** So in every reachable state an uncovered change is only a few own steps from its scan. */
  lemma UncoveredLeadsToScan(p: Params, init: State, pre: seq<Label>, v: nat) returns (ls: seq<Label>)
    requires Init(init) && Runs(p, init, pre) && After(p, init, pre).loop != Stopped
    requires After(p, init, pre).seen < v <= After(p, init, pre).hw
    ensures Runs(p, After(p, init, pre), ls) && forall l :: l in ls ==> IsOwnStep(l)
    ensures v <= After(p, After(p, init, pre), ls).seen
  {
    InvAlways(p, init, pre);
    ls := CauseLeadsToScan(p, After(p, init, pre), v);
  }

  // ----- Conservation of tokens

  /** Counts over a run: trigger calls that filled the channel and that found it full, tokens
      taken at the main select, tokens drained, windows drained, ticks taken, scans begun. */
  datatype Tally = Tally(accepted: nat, coalesced: nat, taken: nat, drained: nat, windows: nat, ticks: nat, scans: nat)

  function Tick(s: State, l: Label): Tally {
    match l
    case Trigger => Tally(if s.token then 0 else 1, if s.token then 1 else 0, 0, 0, 0, 0, 0)
    case StartTrigger => Tally(if s.token then 0 else 1, if s.token then 1 else 0, 0, 0, 0, 0, 0)
    case TakeToken => Tally(0, 0, 1, 0, 0, 0, 0)
    case Drain => Tally(0, 0, 0, if s.token then 1 else 0, 1, 0, 0)
    case TakeTick => Tally(0, 0, 0, 0, 0, 1, 0)
    case ScanStart => Tally(0, 0, 0, 0, 0, 0, 1)
    case _ => Tally(0, 0, 0, 0, 0, 0, 0)
  }

  function Plus(a: Tally, b: Tally): Tally {
    Tally(a.accepted + b.accepted, a.coalesced + b.coalesced, a.taken + b.taken, a.drained + b.drained,
          a.windows + b.windows, a.ticks + b.ticks, a.scans + b.scans)
  }

  function Count(p: Params, s: State, ls: seq<Label>): Tally
    requires Runs(p, s, ls)
    decreases |ls|
  {
    if ls == [] then Tally(0, 0, 0, 0, 0, 0, 0)
    else Plus(Tick(s, ls[0]), Count(p, Apply(p, s, ls[0]), ls[1..]))
  }

  function Bit(b: bool): nat { if b then 1 else 0 }

  function OpenWindow(s: State): nat { Bit(s.loop.Debouncing? || s.loop.WindowOver?) }

  lemma TokenStep(p: Params, s: State, l: Label)
    requires Enabled(p, s, l)
    ensures Bit(s.token) + Tick(s, l).accepted == Tick(s, l).taken + Tick(s, l).drained + Bit(Apply(p, s, l).token)
  {
    hide Deliver;
    if l.Broadcast? || l.Noise? {
      DeliverFrame(p, s, l);
    }
  }

  lemma ScanStep(p: Params, s: State, l: Label)
    requires Enabled(p, s, l)
    ensures var c, f := Tick(s, l), Apply(p, s, l);
            Bit(s.loop.Due?) + c.windows + c.ticks == c.scans + Bit(f.loop.Due?)
  {
    hide Deliver;
    if l.Broadcast? || l.Noise? {
      DeliverFrame(p, s, l);
    }
  }

  lemma WindowStep(p: Params, s: State, l: Label)
    requires Enabled(p, s, l)
    ensures var c, f := Tick(s, l), Apply(p, s, l);
            && c.windows + OpenWindow(f) <= c.taken + OpenWindow(s)
            && (l != Stop ==> c.windows + OpenWindow(f) == c.taken + OpenWindow(s))
  {
    hide Deliver;
    if l.Broadcast? || l.Noise? {
      DeliverFrame(p, s, l);
    }
  }

  /** Between any two states of a run: tokens put in are taken, drained or still there, every
      completed window and every tick taken is one scan begun or about to begin, and windows
      come only from tokens taken. */
  lemma {:induction false} Conservation(p: Params, s: State, ls: seq<Label>)
    requires Runs(p, s, ls)
    ensures var c := Count(p, s, ls);
            var f := After(p, s, ls);
            && Bit(s.token) + c.accepted == c.taken + c.drained + Bit(f.token)
            && Bit(s.loop.Due?) + c.windows + c.ticks == c.scans + Bit(f.loop.Due?)
            && c.windows + OpenWindow(f) <= c.taken + OpenWindow(s)
            && (Stop !in ls ==> c.windows + OpenWindow(f) == c.taken + OpenWindow(s))
    decreases |ls|
  {
    hide Apply, Tick, Enabled;
    if ls != [] {
      TokenStep(p, s, ls[0]);
      ScanStep(p, s, ls[0]);
      WindowStep(p, s, ls[0]);
      Conservation(p, Apply(p, s, ls[0]), ls[1..]);
    }
  }

  /** Scans cost at most one accepted trigger or one tick each, in every run from the start. */
  lemma ScansBounded(p: Params, init: State, ls: seq<Label>)
    requires Init(init) && Runs(p, init, ls)
    ensures Count(p, init, ls).scans <= Count(p, init, ls).accepted + Count(p, init, ls).ticks
  {
    Conservation(p, init, ls);
  }

  lemma OpenStep(p: Params, s: State, l: Label)
    requires OpenWindow(s) == 1 && Enabled(p, s, l) && l != Drain && l != Stop
    ensures OpenWindow(Apply(p, s, l)) == 1
    ensures Tick(s, l).scans == 0 && Tick(s, l).taken == 0 && Tick(s, l).drained == 0 && l != ScanStart
  {
    hide Deliver;
    if l.Broadcast? || l.Noise? {
      DeliverFrame(p, s, l);
    }
  }

  lemma {:induction false} WindowStaysOpen(p: Params, s: State, ls: seq<Label>)
    requires OpenWindow(s) == 1 && Runs(p, s, ls) && Drain !in ls && Stop !in ls
    ensures OpenWindow(After(p, s, ls)) == 1
    ensures Count(p, s, ls).scans == 0 && Count(p, s, ls).taken == 0 && Count(p, s, ls).drained == 0 && ScanStart !in ls
    decreases |ls|
  {
    hide Apply, Tick, Enabled;
    if ls != [] {
      OpenStep(p, s, ls[0]);
      WindowStaysOpen(p, Apply(p, s, ls[0]), ls[1..]);
    }
  }

  /** Any number of triggers between taking a token and the drain, which is at least EventDebounce
      later, cost one scan: none begins before the drain, no token survives it, and the scan it
      leads to covers every change recorded so far. At most one of the triggers is accepted. */
  lemma BurstCostsOneScan(p: Params, s: State, ls: seq<Label>)
    requires Enabled(p, s, TakeToken)
    requires Runs(p, Apply(p, s, TakeToken), ls) && Drain !in ls && Stop !in ls
    requires Enabled(p, After(p, Apply(p, s, TakeToken), ls), Drain)
    ensures var t := Apply(p, s, TakeToken);
            var f := After(p, t, ls);
            && f.now >= s.now + p.debounce
            && Count(p, t, ls).scans == 0 && Count(p, t, ls).accepted <= 1
            && var g := Apply(p, f, Drain);
               !g.token && g.loop.Due? && Apply(p, g, ScanStart).seen == g.hw && s.hw <= g.hw
  {
    hide Runs, After, Count, Apply, Enabled;
    var t := Apply(p, s, TakeToken);
    TokenTaken(p, s);
    WindowStaysOpen(p, t, ls);
    Conservation(p, t, ls);
    CountersGrow(p, t, ls);
    WindowLasts(p, t, ls, s.now);
    WindowDrained(p, After(p, t, ls));
  }

  lemma TokenTaken(p: Params, s: State)
    requires Enabled(p, s, TakeToken)
    ensures var t := Apply(p, s, TakeToken);
            OpenWindow(t) == 1 && !t.token && InWindow(p, t, s.now) && t.hw == s.hw && t.now == s.now
  {
  }

  lemma WindowDrained(p: Params, f: State)
    requires Enabled(p, f, Drain)
    ensures var g := Apply(p, f, Drain);
            && f.loop.WindowOver? && !g.token && g.loop.Due? && g.hw == f.hw
            && Enabled(p, g, ScanStart) && Apply(p, g, ScanStart).seen == g.hw
  {
  }

  // ----- The window is a wait

  /** The loop has taken a token at time `t` and cannot begin a scan before the window is over. */
  ghost predicate InWindow(p: Params, s: State, t: nat) {
    match s.loop
    case Debouncing(since) => since >= t
    case WindowOver => s.now >= t + p.debounce
    case Due => s.now >= t + p.debounce
    case Stopped => true
    case _ => false
  }

  lemma InWindowStep(p: Params, s: State, l: Label, t: nat)
    requires InWindow(p, s, t) && Enabled(p, s, l) && l != ScanStart
    ensures InWindow(p, Apply(p, s, l), t)
  {
    hide Deliver;
    if l.Broadcast? || l.Noise? {
      DeliverFrame(p, s, l);
    }
  }

  lemma {:induction false} WindowLasts(p: Params, s: State, ls: seq<Label>, t: nat)
    requires InWindow(p, s, t) && Runs(p, s, ls) && ScanStart !in ls
    ensures InWindow(p, After(p, s, ls), t)
    decreases |ls|
  {
    hide InWindow, Apply, Enabled;
    if ls != [] {
      InWindowStep(p, s, ls[0], t);
      WindowLasts(p, Apply(p, s, ls[0]), ls[1..], t);
    }
  }

  /** After a token was taken at time t, no scan begins before t + EventDebounce, in any run. */
  lemma NoScanBeforeWindowEnds(p: Params, s: State, ls: seq<Label>)
    requires Enabled(p, s, TakeToken) && Runs(p, Apply(p, s, TakeToken), ls) && ScanStart !in ls
    requires Enabled(p, After(p, Apply(p, s, TakeToken), ls), ScanStart)
    ensures After(p, Apply(p, s, TakeToken), ls).now >= s.now + p.debounce
  {
    WindowLasts(p, Apply(p, s, TakeToken), ls, s.now);
  }

  /** How much of an open window has passed. */
  function Waited(p: Params, s: State): int {
    match s.loop
    case Debouncing(since) => s.now - since
    case WindowOver => p.debounce
    case _ => 0
  }

  lemma WaitedStep(p: Params, s: State, l: Label)
    requires Timed(p, s) && Enabled(p, s, l)
    ensures var t := Apply(p, s, l);
            Tick(s, l).windows <= 1
            && (if Tick(s, l).windows == 1 then p.debounce else 0) + Waited(p, t) <= Waited(p, s) + t.now - s.now
  {
    hide Deliver;
    if l.Broadcast? || l.Noise? {
      DeliverFrame(p, s, l);
    }
  }

  lemma OneMoreWindow(n: nat, m: nat, debounce: nat)
    requires n <= 1
    ensures (n + m) * debounce == (if n == 1 then debounce else 0) + m * debounce
  {
  }

  /** Completed windows take their time: EventDebounce each, and none overlaps another. */
  lemma {:induction false} WindowsTakeTime(p: Params, s: State, ls: seq<Label>)
    requires Timed(p, s) && Runs(p, s, ls)
    ensures Count(p, s, ls).windows * p.debounce + Waited(p, After(p, s, ls)) <= Waited(p, s) + After(p, s, ls).now - s.now
    decreases |ls|
  {
    hide Apply, Tick, Enabled, Timed, Waited;
    if ls != [] {
      var t := Apply(p, s, ls[0]);
      WaitedStep(p, s, ls[0]);
      TimedStep(p, s, ls[0]);
      WindowsTakeTime(p, t, ls[1..]);
      OneMoreWindow(Tick(s, ls[0]).windows, Count(p, t, ls[1..]).windows, p.debounce);
    }
  }

  /** The rate of scans: however many triggers there are, all scans but those of the ticker take
      EventDebounce each, in every run from the start. */
  lemma ScanRateBounded(p: Params, init: State, ls: seq<Label>)
    requires Init(init) && Runs(p, init, ls)
    ensures var c := Count(p, init, ls);
            c.scans > c.ticks ==> (c.scans - c.ticks) * p.debounce <= After(p, init, ls).now
  {
    var c := Count(p, init, ls);
    InvAlways(p, init, ls);
    InvAlways(p, init, []);
    Conservation(p, init, ls);
    WindowsTakeTime(p, init, ls);
    if c.scans > c.ticks {
      MoreTakesLonger(c.scans - c.ticks, c.windows, p.debounce);
      assert Waited(p, After(p, init, ls)) >= 0;
    }
  }

  lemma MoreTakesLonger(n: nat, m: nat, debounce: nat)
    requires n <= m
    ensures n * debounce <= m * debounce
  {
  }

  // ----- Scans are completed, and nothing is lost without need

  function ScansEnded(ls: seq<Label>): nat
    decreases |ls|
  {
    if ls == [] then 0 else (if ls[0] == ScanEnd then 1 else 0) + ScansEnded(ls[1..])
  }

  lemma ScanEndStep(p: Params, s: State, l: Label)
    requires Enabled(p, s, l)
    ensures Bit(s.loop.Scanning?) + Tick(s, l).scans == (if l == ScanEnd then 1 else 0) + Bit(Apply(p, s, l).loop.Scanning?)
  {
    hide Deliver;
    if l.Broadcast? || l.Noise? {
      DeliverFrame(p, s, l);
    }
  }

  /** Scans do not overlap and are not cut short: in every run each scan but the running one has
      ended, even if the monitor is stopped. */
  lemma {:induction false} ScansComplete(p: Params, s: State, ls: seq<Label>)
    requires Runs(p, s, ls)
    ensures Bit(s.loop.Scanning?) + Count(p, s, ls).scans == ScansEnded(ls) + Bit(After(p, s, ls).loop.Scanning?)
    decreases |ls|
  {
    hide Apply, Tick, Enabled;
    if ls != [] {
      ScanEndStep(p, s, ls[0]);
      ScansComplete(p, Apply(p, s, ls[0]), ls[1..]);
    }
  }

  function Sent(ls: seq<Label>): nat
    decreases |ls|
  {
    if ls == [] then 0 else (if ls[0].Broadcast? || ls[0].Noise? then 1 else 0) + Sent(ls[1..])
  }

  lemma RoomStep(p: Params, s: State, l: Label)
    requires Enabled(p, s, l) && !s.lost && |s.queue| + Sent([l]) <= p.capacity
    ensures !Apply(p, s, l).lost && |Apply(p, s, l).queue| <= |s.queue| + Sent([l])
  {
  }

  /** The kernel drops a datagram only for want of room: no loss is reported as long as the socket
      could hold everything sent. */
  lemma {:induction false} NothingDroppedWithRoom(p: Params, s: State, ls: seq<Label>)
    requires Runs(p, s, ls) && !s.lost && |s.queue| + Sent(ls) <= p.capacity
    ensures !After(p, s, ls).lost
    decreases |ls|
  {
    hide Apply, Enabled;
    if ls != [] {
      RoomStep(p, s, ls[0]);
      NothingDroppedWithRoom(p, Apply(p, s, ls[0]), ls[1..]);
    }
  }

  lemma ReadyStep(p: Params, s: State, l: Label)
    requires Enabled(p, s, l) && (s.loop.Stopped? ==> !s.ready)
    ensures var t := Apply(p, s, l);
            && (t.ready <==> (s.ready || l == ScanEnd) && l != Stop)
            && (t.loop.Stopped? ==> !t.ready) && (t.loop.Stopped? <==> s.loop.Stopped? || l == Stop)
            && (s.loop.Stopped? ==> l != ScanEnd && l != Stop)
  {
    hide Deliver;
    if l.Broadcast? || l.Noise? {
      DeliverFrame(p, s, l);
    }
  }

  /** The monitor is ready from the end of the first scan until it stops. */
  lemma {:induction false} ReadyIff(p: Params, s: State, ls: seq<Label>)
    requires Runs(p, s, ls) && (s.loop.Stopped? ==> !s.ready)
    ensures After(p, s, ls).ready <==> (s.ready || ScanEnd in ls) && Stop !in ls
    decreases |ls|
  {
    hide Apply, Enabled;
    if ls != [] {
      var t := Apply(p, s, ls[0]);
      ReadyStep(p, s, ls[0]);
      ReadyIff(p, t, ls[1..]);
      if t.loop.Stopped? {
        StoppedForGood(p, t, ls[1..]);
      }
    }
  }

  lemma StoppedStep(p: Params, s: State, l: Label)
    requires Enabled(p, s, l) && s.loop.Stopped?
    ensures Apply(p, s, l).loop.Stopped? && l != ScanEnd && l != Stop
  {
    hide Deliver;
    if l.Broadcast? || l.Noise? {
      DeliverFrame(p, s, l);
    }
  }

  lemma {:induction false} StoppedForGood(p: Params, s: State, ls: seq<Label>)
    requires Runs(p, s, ls) && s.loop.Stopped?
    ensures After(p, s, ls).loop == Stopped && ScanEnd !in ls && Stop !in ls
    decreases |ls|
  {
    hide Apply, Enabled;
    if ls != [] {
      StoppedStep(p, s, ls[0]);
      StoppedForGood(p, Apply(p, s, ls[0]), ls[1..]);
    }
  }
}
