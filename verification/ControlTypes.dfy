/** The vocabulary of the control plane: the tracker's state, the messages it
    sends and what a daemon does with each (pkg/tracker/control.go,
    pkg/daemon/tracker_ws.go, pkg/storage/ratelimited.go). */
module ControlTypes {
  import opened Wrappers
  import Protocol

  datatype GateKind = Seeds | Downloads

  datatype Message =
    | Pause(gate: GateKind)
    | Resume(gate: GateKind)
    | SetBandwidth(bps: int)
    | ClearMetrics

  datatype ControlState = ControlState(seedingPaused: bool, downloadsPaused: bool, maxBandwidthBps: int)

  const NEW_STATE := ControlState(false, false, 0)

  /** The state change at the head of each operator command. */
  function Update(s: ControlState, m: Message): ControlState {
    match m
    case Pause(Seeds) => s.(seedingPaused := true)
    case Pause(Downloads) => s.(downloadsPaused := true)
    case Resume(Seeds) => s.(seedingPaused := false)
    case Resume(Downloads) => s.(downloadsPaused := false)
    case SetBandwidth(bps) => s.(maxBandwidthBps := bps)
    case ClearMetrics => s
  }

  /** What a registration replays for the state it read. */
  function Replay(s: ControlState): seq<Message> {
    (if s.seedingPaused then [Pause(Seeds)] else []) +
    (if s.downloadsPaused then [Pause(Downloads)] else []) +
    (if s.maxBandwidthBps > 0 then [SetBandwidth(s.maxBandwidthBps)] else [])
  }

  datatype Limiter = Limiter(rate: int, burst: int)

  const MIN_BURST := 2 * 1024 * 1024

  function LimiterFor(bps: int): Option<Limiter> {
    if bps <= 0 then None else Some(Limiter(bps, if bps < MIN_BURST then MIN_BURST else bps))
  }

  /** A limit is set just for positive rates, and then its burst lets every block
      through: a wait for more tokens than the burst would be refused, and no
      chunk is that large. */
  lemma EveryBlockFitsTheBurst(bps: int, blockSize: nat)
    requires blockSize <= Protocol.MAX_CHUNK_SIZE
    ensures LimiterFor(bps).Some? <==> bps > 0
    ensures LimiterFor(bps).Some? ==> LimiterFor(bps).value.rate == bps && blockSize <= LimiterFor(bps).value.burst
  {
  }

  datatype Daemon = Daemon(seedPaused: bool, downloadPaused: bool, limiter: Option<Limiter>)

  const FRESH_DAEMON := Daemon(false, false, None)

  function ApplyCommand(d: Daemon, m: Message): Daemon {
    match m
    case Pause(Seeds) => d.(seedPaused := true)
    case Pause(Downloads) => d.(downloadPaused := true)
    case Resume(Seeds) => d.(seedPaused := false)
    case Resume(Downloads) => d.(downloadPaused := false)
    case SetBandwidth(bps) => d.(limiter := LimiterFor(bps))
    case ClearMetrics => d
  }

  /** A daemon after it has applied every message of a FIFO connection. */
  function Drain(d: Daemon, ms: seq<Message>): Daemon
    decreases |ms|
  {
    if ms == [] then d else Drain(ApplyCommand(d, ms[0]), ms[1..])
  }

  // The three independently controlled settings, seen alike on both sides.

  datatype Component = Gate(kind: GateKind) | Bandwidth

  datatype Setting = Open | Paused | Unlimited | Limited(limiter: Limiter)

  function GateSetting(paused: bool): Setting { if paused then Paused else Open }

  function LimitSetting(l: Option<Limiter>): Setting {
    match l case None => Unlimited case Some(x) => Limited(x)
  }

  function Default(k: Component): Setting { if k.Gate? then Open else Unlimited }

  /** What the tracker wants. */
  function Wanted(s: ControlState, k: Component): Setting {
    match k
    case Gate(Seeds) => GateSetting(s.seedingPaused)
    case Gate(Downloads) => GateSetting(s.downloadsPaused)
    case Bandwidth => LimitSetting(LimiterFor(s.maxBandwidthBps))
  }

  /** What the daemon does. */
  function Actual(d: Daemon, k: Component): Setting {
    match k
    case Gate(Seeds) => GateSetting(d.seedPaused)
    case Gate(Downloads) => GateSetting(d.downloadPaused)
    case Bandwidth => LimitSetting(d.limiter)
  }

  function Subject(m: Message): Option<Component> {
    match m
    case Pause(g) => Some(Gate(g))
    case Resume(g) => Some(Gate(g))
    case SetBandwidth(_) => Some(Bandwidth)
    case ClearMetrics => None
  }

  predicate Touches(m: Message, k: Component) {
    Subject(m) == Some(k)
  }

  function Carried(m: Message): Setting {
    match m
    case Pause(_) => Paused
    case Resume(_) => Open
    case SetBandwidth(bps) => LimitSetting(LimiterFor(bps))
    case ClearMetrics => Open
  }

  predicate Mentions(ms: seq<Message>, k: Component) {
    exists i :: 0 <= i < |ms| && Touches(ms[i], k)
  }

  /** A message sets exactly the components it touches, to the value it carries,
      in the tracker's state and in the daemon alike. */
  lemma MessageEffect(s: ControlState, d: Daemon, m: Message, k: Component)
    ensures Wanted(Update(s, m), k) == if Touches(m, k) then Carried(m) else Wanted(s, k)
    ensures Actual(ApplyCommand(d, m), k) == if Touches(m, k) then Carried(m) else Actual(d, k)
  {
  }

  lemma {:induction false} DrainAppend(d: Daemon, ms: seq<Message>, m: Message)
    ensures Drain(d, ms + [m]) == ApplyCommand(Drain(d, ms), m)
    decreases |ms|
  {
    if ms != [] {
      assert (ms + [m])[1..] == ms[1..] + [m];
      DrainAppend(ApplyCommand(d, ms[0]), ms[1..], m);
    } else {
      assert ms + [m] == [m] && [m][1..] == [];
    }
  }

  /** A gate after some messages: paused or resumed by the last one about it. */
  function LastGate(ms: seq<Message>, g: GateKind, before: bool): bool
    decreases |ms|
  {
    if ms == [] then before
    else
      var last := ms[|ms| - 1];
      if last == Pause(g) then true else if last == Resume(g) then false else LastGate(ms[..|ms| - 1], g, before)
  }

  /** The limit that the last bandwidth message set. */
  function LastLimit(ms: seq<Message>): Option<int>
    decreases |ms|
  {
    if ms == [] then None
    else if ms[|ms| - 1].SetBandwidth? then Some(ms[|ms| - 1].bps) else LastLimit(ms[..|ms| - 1])
  }

  function Updates(s: ControlState, ms: seq<Message>): ControlState
    decreases |ms|
  {
    if ms == [] then s else Update(Updates(s, ms[..|ms| - 1]), ms[|ms| - 1])
  }

  /** The tracker's state after any messages, field by field: the last message
      about it decides. */
  lemma {:induction false} LastMessageDecidesState(s: ControlState, ms: seq<Message>)
    ensures Updates(s, ms).seedingPaused == LastGate(ms, Seeds, s.seedingPaused)
    ensures Updates(s, ms).downloadsPaused == LastGate(ms, Downloads, s.downloadsPaused)
    ensures Updates(s, ms).maxBandwidthBps == if LastLimit(ms).Some? then LastLimit(ms).value else s.maxBandwidthBps
    decreases |ms|
  {
    if ms != [] { LastMessageDecidesState(s, ms[..|ms| - 1]); }
  }

  /** The same for a daemon that applies them. */
  lemma {:induction false} LastMessageDecidesDaemon(d: Daemon, ms: seq<Message>)
    ensures Drain(d, ms).seedPaused == LastGate(ms, Seeds, d.seedPaused)
    ensures Drain(d, ms).downloadPaused == LastGate(ms, Downloads, d.downloadPaused)
    ensures match LastLimit(ms)
      case None => Drain(d, ms).limiter == d.limiter
      case Some(bps) =>
        && (Drain(d, ms).limiter.Some? <==> bps > 0)
        && (bps > 0 ==> Drain(d, ms).limiter.value.rate == bps && Drain(d, ms).limiter.value.burst >= Protocol.MAX_CHUNK_SIZE)
    decreases |ms|
  {
    if ms != [] {
      var n := |ms| - 1;
      LastMessageDecidesDaemon(d, ms[..n]);
      DrainAppend(d, ms[..n], ms[n]);
      assert ms == ms[..n] + [ms[n]];
    }
  }

  /** A fresh daemon that has applied the replay of a state is as the state says. */
  lemma {:induction false} ReplayRestores(s: ControlState)
    ensures var d := Drain(FRESH_DAEMON, Replay(s));
      && d.seedPaused == s.seedingPaused && d.downloadPaused == s.downloadsPaused
      && (d.limiter.Some? <==> s.maxBandwidthBps > 0) && (d.limiter.Some? ==> d.limiter.value.rate == s.maxBandwidthBps)
  {
    var a := if s.seedingPaused then [Pause(Seeds)] else [];
    var b := if s.downloadsPaused then [Pause(Downloads)] else [];
    var none: seq<Message> := [];
    if s.seedingPaused { DrainAppend(FRESH_DAEMON, none, Pause(Seeds)); assert none + [Pause(Seeds)] == a; }
    if s.downloadsPaused { DrainAppend(FRESH_DAEMON, a, Pause(Downloads)); } else { assert a + b == a; }
    if s.maxBandwidthBps > 0 {
      DrainAppend(FRESH_DAEMON, a + b, SetBandwidth(s.maxBandwidthBps));
    } else {
      assert Replay(s) == a + b;
    }
  }

  /** The replay mentions a component just when the state differs from what a
      fresh daemon does, and every message in it carries the value read. */
  lemma ReplayCoversState(s: ControlState, k: Component)
    ensures Mentions(Replay(s), k) <==> Wanted(s, k) != Default(k)
    ensures forall i :: 0 <= i < |Replay(s)| && Touches(Replay(s)[i], k) ==> Carried(Replay(s)[i]) == Wanted(s, k)
    ensures forall i, j :: 0 <= i < j < |Replay(s)| && Touches(Replay(s)[i], k) ==> !Touches(Replay(s)[j], k)
  {
    var r := Replay(s);
    var a := if s.seedingPaused then [Pause(Seeds)] else [];
    var b := if s.downloadsPaused then [Pause(Downloads)] else [];
    var c := if s.maxBandwidthBps > 0 then [SetBandwidth(s.maxBandwidthBps)] else [];
    assert r == a + b + c;
    if s.seedingPaused { assert Touches(r[0], Gate(Seeds)); }
    if s.downloadsPaused { assert Touches(r[|a|], Gate(Downloads)); }
    if s.maxBandwidthBps > 0 { assert Touches(r[|a| + |b|], Bandwidth); }
  }
}
