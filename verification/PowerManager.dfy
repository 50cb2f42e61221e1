/** Idle sleep: five minutes without controller activity, measured on a 32-bit
    millisecond clock that wraps every 49.7 days. Real time is an unbounded nat;
    the firmware only ever sees it modulo 2^32. */
module PowerManager {
  import opened Bits

  const CLOCK_MODULUS: nat := 0x1_0000_0000
  const IDLE_SLEEP_MS: nat := 300000

  datatype ControllerState = ControllerState(buttons: uint32, lx: byte, ly: byte, rx: byte, ry: byte)

  function Millis(t: nat): (ms: uint32) {
    t % CLOCK_MODULUS
  }

  function Abs(x: int): int {
    if x < 0 then -x else x
  }

  predicate StateChanged(a: ControllerState, b: ControllerState) {
    a.buttons != b.buttons || a.lx != b.lx || a.ly != b.ly || a.rx != b.rx || a.ry != b.ry
  }

  predicate HasInput(s: ControllerState) {
    || s.buttons != 0
    || Abs(s.lx - 0x80) > 8 || Abs(s.ly - 0x80) > 8
    || Abs(s.rx - 0x80) > 8 || Abs(s.ry - 0x80) > 8
  }

  predicate Activity(last: ControllerState, s: ControllerState, analogEvent: bool) {
    analogEvent || HasInput(s) || StateChanged(s, last)
  }

  /** The manager's three static variables. */
  datatype State = State(last: ControllerState, activityMs: uint32, sleeping: bool)

  /** One main-loop event. wakeAt is the second clock reading powerManagerWake makes. */
  datatype Event =
    | Update(state: ControllerState, analogEvent: bool, now: nat, wakeAt: nat)
    | Wake(now: nat)

  function Step(m: State, e: Event): State {
    match e
    case Wake(now) => m.(sleeping := false, activityMs := Millis(now))
    case Update(s, analogEvent, now, wakeAt) =>
      var awake :=
        if Activity(m.last, s, analogEvent) then m.(sleeping := false, activityMs := Millis(wakeAt))
        else if !m.sleeping && Elapsed(m.activityMs, Millis(now)) >= IDLE_SLEEP_MS then m.(sleeping := true)
        else m;
      awake.(last := s)
  }

  /** Unsigned 32-bit subtraction. */
  function Elapsed(since: uint32, now: uint32): uint32 {
    (now - since) % CLOCK_MODULUS
  }

  class Manager {
    var last: ControllerState
    var activityMs: uint32
    var sleeping: bool

    ghost function View(): State
      reads this
    {
      State(last, activityMs, sleeping)
    }

    constructor Begin(initial: ControllerState, now: nat)
      ensures View() == State(initial, Millis(now), false)
    {
      last, activityMs, sleeping := initial, Millis(now), false;
    }

    method WakeUp(now: nat)
      modifies this
      ensures View() == Step(old(View()), Wake(now))
    {
      if sleeping {
        sleeping := false;
      }
      activityMs := Millis(now);
    }

    method DoUpdate(state: ControllerState, analogEvent: bool, now: nat, wakeAt: nat)
      modifies this
      ensures View() == Step(old(View()), Update(state, analogEvent, now, wakeAt))
    {
      var activity := analogEvent || HasInput(state) || StateChanged(state, last);
      if activity {
        WakeUp(wakeAt);
      } else if !sleeping && Elapsed(activityMs, Millis(now)) >= IDLE_SLEEP_MS {
        sleeping := true;
      }
      last := state;
    }
  }

  // ---------------------------------------------------------------- whole runs

  function Run(m: State, events: seq<Event>): State {
    if events == [] then m
    else Step(Run(m, events[..|events| - 1]), events[|events| - 1])
  }

  /** The controller state the k-th event is compared against. */
  function LastSeen(initial: ControllerState, events: seq<Event>): ControllerState {
    if events == [] then initial
    else match events[|events| - 1]
         case Update(s, _, _, _) => s
         case Wake(_) => LastSeen(initial, events[..|events| - 1])
  }

  /** Real time of the most recent activity, told from the events alone. */
  function LastActivity(initial: ControllerState, begun: nat, events: seq<Event>): nat {
    if events == [] then begun
    else
      var before := events[..|events| - 1];
      match events[|events| - 1]
      case Wake(now) => now
      case Update(s, a, _, wakeAt) =>
        if Activity(LastSeen(initial, before), s, a) then wakeAt
        else LastActivity(initial, begun, before)
  }

  /** When an event is over: a waking update reads the clock a second time. */
  function EndTime(initial: ControllerState, begun: nat, events: seq<Event>): nat {
    if events == [] then begun
    else match events[|events| - 1]
         case Wake(now) => now
         case Update(s, a, now, wakeAt) =>
           if Activity(LastSeen(initial, events[..|events| - 1]), s, a) then wakeAt else now
  }

  /** The clock never runs backwards. */
  ghost predicate Monotone(initial: ControllerState, begun: nat, events: seq<Event>) {
    forall k :: 0 <= k < |events| ==>
                  && EndTime(initial, begun, events[..k]) <= events[k].now
                  && (events[k].Update? ==> events[k].now <= events[k].wakeAt)
  }

  /** Updates come often enough: never more than 2^32 - 300000 ms apart. */
  ghost predicate Prompt(initial: ControllerState, begun: nat, events: seq<Event>) {
    forall k :: 0 <= k < |events| ==>
                  events[k].now - EndTime(initial, begun, events[..k]) <= CLOCK_MODULUS - IDLE_SLEEP_MS
  }

  lemma PrefixPrefix<T>(s: seq<T>, k: nat)
    requires k < |s|
    ensures s[..|s| - 1][..k] == s[..k]
  {
  }

  lemma ShorterRun(initial: ControllerState, begun: nat, events: seq<Event>)
    requires events != []
    ensures Monotone(initial, begun, events) ==> Monotone(initial, begun, events[..|events| - 1])
    ensures Prompt(initial, begun, events) ==> Prompt(initial, begun, events[..|events| - 1])
  {
    var before := events[..|events| - 1];
    forall k | 0 <= k < |before|
      ensures before[..k] == events[..k] && before[k] == events[k]
    {
      PrefixPrefix(events, k);
    }
  }

  /** The stored stamp is the real last activity modulo 2^32, and time has not passed it. */
  lemma {:induction false} StampIsLastActivity(initial: ControllerState, begun: nat, events: seq<Event>)
    requires Monotone(initial, begun, events)
    ensures Run(State(initial, Millis(begun), false), events).activityMs == Millis(LastActivity(initial, begun, events))
    ensures Run(State(initial, Millis(begun), false), events).last == LastSeen(initial, events)
    ensures LastActivity(initial, begun, events) <= EndTime(initial, begun, events)
  {
    if events != [] {
      ShorterRun(initial, begun, events);
      StampIsLastActivity(initial, begun, events[..|events| - 1]);
    }
  }

  lemma ElapsedModulo(since: nat, now: nat)
    requires since <= now
    ensures Elapsed(Millis(since), Millis(now)) == (now - since) % CLOCK_MODULUS
    ensures Elapsed(Millis(since), Millis(now)) <= now - since
    ensures now - since < CLOCK_MODULUS ==> Elapsed(Millis(since), Millis(now)) == now - since
  {
  }

  /** For every run on a monotone clock: a sleeping device has really been idle for at
      least five minutes. Wraparound never fakes idleness. */
  lemma {:induction false} NeverSleepsEarly(initial: ControllerState, begun: nat, events: seq<Event>)
    requires Monotone(initial, begun, events)
    ensures Run(State(initial, Millis(begun), false), events).sleeping ==>
              EndTime(initial, begun, events) - LastActivity(initial, begun, events) >= IDLE_SLEEP_MS
  {
    if events != [] {
      var before, e := events[..|events| - 1], events[|events| - 1];
      ShorterRun(initial, begun, events);
      NeverSleepsEarly(initial, begun, before);
      StampIsLastActivity(initial, begun, before);
      assert EndTime(initial, begun, before) <= e.now;
      ElapsedModulo(LastActivity(initial, begun, before), e.now);
    }
  }

  /** With prompt updates sleep is exact: asleep if and only if five real minutes have
      passed without activity. */
  lemma {:induction false} SleepIsExact(initial: ControllerState, begun: nat, events: seq<Event>)
    requires Monotone(initial, begun, events) && Prompt(initial, begun, events)
    ensures Run(State(initial, Millis(begun), false), events).sleeping <==>
            EndTime(initial, begun, events) - LastActivity(initial, begun, events) >= IDLE_SLEEP_MS
  {
    if events != [] {
      var before, e := events[..|events| - 1], events[|events| - 1];
      ShorterRun(initial, begun, events);
      SleepIsExact(initial, begun, before);
      StampIsLastActivity(initial, begun, before);
      assert EndTime(initial, begun, before) <= e.now;
      assert e.now - EndTime(initial, begun, before) <= CLOCK_MODULUS - IDLE_SLEEP_MS;
      ElapsedModulo(LastActivity(initial, begun, before), e.now);
    }
  }

  /** An idle update of an awake device decides rightly, except exactly when the idle
      time is a full wrap or more and its remainder is under five minutes. */
  lemma IdleDecisionExact(m: State, since: nat, s: ControllerState, now: nat, wakeAt: nat)
    requires !m.sleeping && m.activityMs == Millis(since) && since <= now
    requires !Activity(m.last, s, false)
    ensures (Step(m, Update(s, false, now, wakeAt)).sleeping <==> now - since >= IDLE_SLEEP_MS)
            <==> !(now - since >= CLOCK_MODULUS && (now - since) % CLOCK_MODULUS < IDLE_SLEEP_MS)
  {
    ElapsedModulo(since, now);
  }

  /** The exception is real: 49.7 idle days between two updates go unnoticed. */
  lemma WrapHidesIdleness(idle: ControllerState)
    requires !HasInput(idle)
    ensures !Run(State(idle, 0, false), [Update(idle, false, CLOCK_MODULUS, CLOCK_MODULUS)]).sleeping
    ensures Monotone(idle, 0, [Update(idle, false, CLOCK_MODULUS, CLOCK_MODULUS)])
  {
    var e := Update(idle, false, CLOCK_MODULUS, CLOCK_MODULUS);
    assert [e][..0] == [];
    assert Run(State(idle, 0, false), [e][..0]) == State(idle, 0, false);
    ElapsedModulo(0, CLOCK_MODULUS);
  }

  /** Nothing in these events wakes the device: no wake call, and no update with activity. */
  ghost predicate Quiet(last: ControllerState, events: seq<Event>) {
    forall k :: 0 <= k < |events| ==>
                  events[k].Update? && !Activity(LastSeen(last, events[..k]), events[k].state, events[k].analogEvent)
  }

  /** Once asleep the device stays asleep, however the clock runs, until something wakes it. */
  lemma {:induction false} AsleepUntilActivity(m: State, events: seq<Event>)
    requires m.sleeping && Quiet(m.last, events)
    ensures Run(m, events).sleeping && Run(m, events).last == LastSeen(m.last, events)
  {
    if events != [] {
      var before := events[..|events| - 1];
      forall k | 0 <= k < |before|
        ensures before[k] == events[k] && before[..k] == events[..k]
      {
        PrefixPrefix(events, k);
      }
      AsleepUntilActivity(m, before);
    }
  }

  lemma NeverIdle(since: nat)
    ensures !LongIdle(since, [])
  {
  }

  /** When an event that wakes the device leaves the idle time to start from. */
  function WakeTime(e: Event): nat {
    if e.Wake? then e.now else e.wakeAt
  }

  /** Some update comes five minutes of the clock after since. */
  ghost predicate LongIdle(since: nat, updates: seq<Event>) {
    exists k :: 0 <= k < |updates| && Elapsed(Millis(since), Millis(updates[k].now)) >= IDLE_SLEEP_MS
  }

  lemma LongIdleSnoc(since: nat, updates: seq<Event>)
    requires updates != []
    ensures var n := |updates| - 1;
            LongIdle(since, updates) <==>
            LongIdle(since, updates[..n]) || Elapsed(Millis(since), Millis(updates[n].now)) >= IDLE_SLEEP_MS
  {
    hide Elapsed, Millis;
    var n := |updates| - 1;
    forall k | 0 <= k < n
      ensures updates[..n][k] == updates[k]
    {
    }
  }

  /** Activity and wake calls start the idle time anew, whatever went before: over quiet events
      after one the device falls asleep exactly when an update comes five minutes of the clock
      later, and not because of any earlier idleness. */
  lemma {:induction false} IdleTimeRestarts(m: State, e: Event, rest: seq<Event>)
    requires e.Wake? || Activity(m.last, e.state, e.analogEvent)
    requires Quiet(Step(m, e).last, rest)
    ensures Run(Step(m, e), rest).sleeping <==> LongIdle(WakeTime(e), rest)
    ensures Run(Step(m, e), rest).activityMs == Millis(WakeTime(e))
    ensures Run(Step(m, e), rest).last == LastSeen(Step(m, e).last, rest)
  {
    hide LongIdle, Elapsed, Millis;
    if rest == [] {
      NeverIdle(WakeTime(e));
    } else {
      var n := |rest| - 1;
      var before := rest[..n];
      forall k | 0 <= k < n
        ensures before[k] == rest[k] && before[..k] == rest[..k]
      {
        PrefixPrefix(rest, k);
      }
      IdleTimeRestarts(m, e, before);
      LongIdleSnoc(WakeTime(e), rest);
      assert rest[n].Update? && !Activity(LastSeen(Step(m, e).last, before), rest[n].state, rest[n].analogEvent);
    }
  }

  // ------------------------------------------------- decoded controller packets

  /** The active-low button word as transmitted, low byte first. */
  function Wire(packet: seq<byte>): (w: nat)
    requires |packet| >= 9
    ensures w < 0x1_0000
  {
    var low: nat, high: nat := packet[3], packet[4];
    low + 256 * high
  }

  /** decodePSXPacket. The complement is taken at int width, so converting it to the
      32-bit field sets the upper sixteen bits. */
  function Decode(packet: seq<byte>, s: ControllerState): ControllerState
    requires |packet| >= 9
  {
    if packet[0] != 0xFF then s
    else
      ControllerState((-1 - Wire(packet)) % CLOCK_MODULUS, packet[7], packet[8], packet[5], packet[6])
  }

  /** Buttons are active-low on the wire: the low sixteen bits come out complemented... */
  lemma DecodedButtons(packet: seq<byte>, s: ControllerState, k: nat)
    requires |packet| >= 9 && packet[0] == 0xFF && k < 16
    ensures Bit(Decode(packet, s).buttons, k) <==> !Bit(Wire(packet), k)
  {
    Pow2Of32();
    ComplementBit(Wire(packet), 32, k);
  }

  /** ... and the upper sixteen are always set, so a decoded state always counts as input. */
  lemma DecodedAlwaysHasInput(packet: seq<byte>, s: ControllerState)
    requires |packet| >= 9 && packet[0] == 0xFF
    ensures Decode(packet, s).buttons >= 0xFFFF0000
    ensures HasInput(Decode(packet, s))
  {
  }

  /** Consequence: from the first accepted packet on, updates fed by the decoder keep the
      device awake for good, whatever the player does. */
  lemma {:induction false} DecodedNeverSleeps(initial: ControllerState, begun: nat, events: seq<Event>)
    requires forall k :: 0 <= k < |events| && events[k].Update? ==> DecodedState(events[k].state)
    ensures !Run(State(initial, Millis(begun), false), events).sleeping
  {
    if events != [] {
      DecodedNeverSleeps(initial, begun, events[..|events| - 1]);
    }
  }

  ghost predicate DecodedState(s: ControllerState) {
    exists packet: seq<byte>, was: ControllerState :: |packet| >= 9 && packet[0] == 0xFF && s == Decode(packet, was)
  }
}
