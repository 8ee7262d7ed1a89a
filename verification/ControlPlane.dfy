/** The two ends of the control plane as sequential objects: the tracker's
    `ControlPlane` (pkg/tracker/control.go) and the daemon's command loop
    (pkg/daemon/tracker_ws.go).  Their interleavings are in ControlProtocol. */
module ControlPlaneModel {
  import opened Wrappers
  import opened ControlTypes
  import G = GateModel

  /** What gets through of everything that is written. */
  function Through(attempted: seq<Message>, limit: Option<nat>): seq<Message> {
    if limit.Some? && |attempted| > limit.value then attempted[..limit.value] else attempted
  }

  /** The tracker's end of a websocket: what the tracker tried to write, what was
      written, and whether it broke.  `limit` is how many writes the network lets
      through before the first one fails. */
  class WebSocket {
    const limit: Option<nat>
    var attempted: seq<Message>
    var sent: seq<Message>
    var broken: bool

    ghost predicate Valid()
      reads this
    {
      && (broken <==> limit.Some? && |attempted| > limit.value)
      && sent == Through(attempted, limit)
    }

    constructor (limit: Option<nat>)
      ensures Valid() && this.limit == limit && attempted == sent == [] && !broken
    {
      this.limit := limit;
      attempted, sent, broken := [], [], false;
    }

    method WriteMessage(m: Message) returns (ok: bool)
      requires Valid()
      modifies this
      ensures Valid() && attempted == old(attempted) + [m] && ok == !broken
      ensures sent == if ok then old(sent) + [m] else old(sent)
    {
      attempted := attempted + [m];
      if limit.Some? && |attempted| > limit.value { broken := true; }
      ok := !broken;
      if ok { sent := sent + [m]; }
    }
  }

  class DaemonConn {
    const conn: WebSocket
    const peerID: string

    constructor (conn: WebSocket, peerID: string)
      ensures this.conn == conn && this.peerID == peerID
    {
      this.conn, this.peerID := conn, peerID;
    }
  }

  lemma PrefixOfReplay(before: seq<Message>, sent: seq<Message>, more: seq<Message>, limit: Option<nat>)
    requires sent == Through(before, limit)
    ensures sent <= Through(before + more, limit) <= sent + more
  {
  }

  lemma ReplayInParts(before: seq<Message>, s: ControlState)
    ensures before + Replay(s) ==
      before + (if s.seedingPaused then [Pause(Seeds)] else []) + (if s.downloadsPaused then [Pause(Downloads)] else [])
      + (if s.maxBandwidthBps > 0 then [SetBandwidth(s.maxBandwidthBps)] else [])
  {
  }

  class ControlPlane {
    var state: ControlState
    var daemons: map<WebSocket, DaemonConn>

    ghost predicate Valid()
      reads this, daemons.Keys
    {
      forall w :: w in daemons ==> daemons[w].conn == w && w.Valid()
    }

    constructor ()
      ensures Valid() && state == NEW_STATE && daemons == map[]
    {
      state, daemons := NEW_STATE, map[];
    }

    /** An operator command: change the state, then broadcast.  The message is
        written once to every connection in the map, and each that is still up
        has received exactly it. */
    method Command(m: Message)
      requires Valid()
      modifies this`state, daemons.Keys
      ensures Valid() && state == Update(old(state), m)
      ensures forall w :: w in daemons ==> w.attempted == old(w.attempted) + [m]
      ensures forall w :: w in daemons && !w.broken ==> !old(w.broken) && w.sent == old(w.sent) + [m]
      ensures forall w :: w in daemons && w.broken ==> w.sent == old(w.sent)
    {
      state := Update(state, m);
      Broadcast(m);
    }

    method Broadcast(m: Message)
      requires Valid()
      modifies daemons.Keys
      ensures Valid() && forall w :: w in daemons ==> w.attempted == old(w.attempted) + [m]
      ensures forall w :: w in daemons && !w.broken ==> !old(w.broken) && w.sent == old(w.sent) + [m]
      ensures forall w :: w in daemons && w.broken ==> w.sent == old(w.sent)
    {
      var todo := daemons.Keys;
      while todo != {}
        invariant todo <= daemons.Keys && Valid()
        invariant forall w :: w in daemons ==> w.attempted == if w in todo then old(w.attempted) else old(w.attempted) + [m]
        decreases todo
      {
        var w :| w in todo;
        var _ := daemons[w].conn.WriteMessage(m);
        todo := todo - {w};
      }
    }

    /** Insert, read the state, replay.  The replay of the state is written in
        full; an unbroken connection has received exactly that, a broken one a
        prefix of it. */
    method RegisterDaemon(conn: WebSocket, peerID: string)
      requires Valid() && conn.Valid()
      modifies this`daemons, conn
      ensures Valid() && daemons.Keys == old(daemons).Keys + {conn} && daemons[conn].peerID == peerID
      ensures forall w :: w in old(daemons) && w != conn ==> daemons[w] == old(daemons)[w]
      ensures conn.attempted == old(conn.attempted) + Replay(state)
      ensures !conn.broken ==> conn.sent == old(conn.sent) + Replay(state)
      ensures old(conn.sent) <= conn.sent <= old(conn.sent) + Replay(state)
    {
      var dc := new DaemonConn(conn, peerID);
      daemons := daemons[conn := dc];
      SendReplay(dc.conn, state);
    }

    static method SendReplay(conn: WebSocket, snap: ControlState)
      requires conn.Valid()
      modifies conn
      ensures conn.Valid() && conn.attempted == old(conn.attempted) + Replay(snap)
      ensures !conn.broken ==> conn.sent == old(conn.sent) + Replay(snap)
      ensures old(conn.sent) <= conn.sent <= old(conn.sent) + Replay(snap)
    {
      ghost var before, sent := conn.attempted, conn.sent;
      ghost var a := if snap.seedingPaused then [Pause(Seeds)] else [];
      ghost var b := if snap.downloadsPaused then [Pause(Downloads)] else [];
      if snap.seedingPaused {
        SendTo(conn, Pause(Seeds));
      }
      assert conn.attempted == before + a;
      if snap.downloadsPaused {
        SendTo(conn, Pause(Downloads));
      }
      assert conn.attempted == before + a + b;
      if snap.maxBandwidthBps > 0 {
        SendTo(conn, SetBandwidth(snap.maxBandwidthBps));
      }
      ReplayInParts(before, snap);
      PrefixOfReplay(before, sent, Replay(snap), conn.limit);
    }

    /** One replay send; its failure is ignored. */
    static method SendTo(conn: WebSocket, m: Message)
      requires conn.Valid()
      modifies conn
      ensures conn.Valid() && conn.attempted == old(conn.attempted) + [m]
    {
      var _ := conn.WriteMessage(m);
    }

    method UnregisterDaemon(conn: WebSocket)
      requires Valid()
      modifies this`daemons
      ensures Valid() && daemons == old(daemons) - {conn}
    {
      daemons := daemons - {conn};
    }
  }

  /** What the read loop can get from the connection. */
  datatype Frame = Command(msg: Message) | Ignored

  /** The commands among the frames that were read. */
  function Commands(frames: seq<Frame>): seq<Message> {
    if frames == [] then []
    else Commands(frames[..|frames| - 1]) + (match frames[|frames| - 1] case Command(m) => [m] case Ignored => [])
  }

  /** The last frame about a gate, or about the limit, decides. */
  function LastGateFrame(frames: seq<Frame>, g: GateKind, before: bool): bool
    decreases |frames|
  {
    if frames == [] then before
    else
      var last := frames[|frames| - 1];
      if last == Command(Pause(g)) then true
      else if last == Command(Resume(g)) then false
      else LastGateFrame(frames[..|frames| - 1], g, before)
  }

  lemma {:induction false} LastFrameIsLastCommand(frames: seq<Frame>, g: GateKind, before: bool)
    ensures LastGate(Commands(frames), g, before) == LastGateFrame(frames, g, before)
    decreases |frames|
  {
    if frames != [] {
      var n := |frames| - 1;
      LastFrameIsLastCommand(frames[..n], g, before);
      if frames[n].Command? {
        assert Commands(frames)[..|Commands(frames)| - 1] == Commands(frames[..n]);
      } else {
        assert Commands(frames) == Commands(frames[..n]);
      }
    }
  }

  /** A daemon that has read some frames: its gates are as the last frame about
      each of them says, whatever else was on the wire. */
  lemma {:induction false} LastFrameDecides(d: Daemon, frames: seq<Frame>)
    ensures Drain(d, Commands(frames)).seedPaused == LastGateFrame(frames, Seeds, d.seedPaused)
    ensures Drain(d, Commands(frames)).downloadPaused == LastGateFrame(frames, Downloads, d.downloadPaused)
  {
    LastMessageDecidesDaemon(d, Commands(frames));
    LastFrameIsLastCommand(frames, Seeds, d.seedPaused);
    LastFrameIsLastCommand(frames, Downloads, d.downloadPaused);
  }

  function Handled(d: Daemon, frame: Frame): Daemon {
    match frame case Command(m) => ApplyCommand(d, m) case Ignored => d
  }

  function HandledAll(d: Daemon, frames: seq<Frame>): Daemon
    decreases |frames|
  {
    if frames == [] then d else Handled(HandledAll(d, frames[..|frames| - 1]), frames[|frames| - 1])
  }

  /** Frame by frame is the commands in order. */
  lemma {:induction false} HandledIsDrained(d: Daemon, frames: seq<Frame>)
    ensures HandledAll(d, frames) == Drain(d, Commands(frames))
    decreases |frames|
  {
    if frames != [] {
      var n := |frames| - 1;
      HandledIsDrained(d, frames[..n]);
      if frames[n].Command? {
        DrainAppend(d, Commands(frames[..n]), frames[n].msg);
      } else {
        assert Commands(frames[..n]) + [] == Commands(frames[..n]);
      }
    }
  }

  /** The part of a daemon that tracker commands act on. */
  class DaemonServer {
    const seedGate: G.Gate
    const downloadGate: G.Gate
    var limiter: Option<Limiter>

    ghost function Footprint(): set<object>
      reads this, seedGate, downloadGate
    {
      {this, seedGate, downloadGate} + (set c | c in seedGate.generations) + (set c | c in downloadGate.generations)
    }

    ghost predicate Valid()
      reads this, seedGate, downloadGate, seedGate.generations, downloadGate.generations
    {
      && seedGate != downloadGate
      && seedGate.Valid() && downloadGate.Valid()
      && forall c :: c in seedGate.generations ==> c !in downloadGate.generations
    }

    ghost function View(): Daemon
      reads this, seedGate, downloadGate
    {
      Daemon(seedGate.paused, downloadGate.paused, limiter)
    }

    constructor ()
      ensures Valid() && View() == FRESH_DAEMON && fresh(Footprint())
    {
      seedGate := new G.Gate();
      downloadGate := new G.Gate();
      limiter := None;
    }

    method ApplyCommand(m: Message)
      requires Valid()
      modifies Footprint()
      ensures Valid() && View() == ControlTypes.ApplyCommand(old(View()), m)
      ensures forall o :: o in Footprint() ==> o in old(Footprint()) || fresh(o)
      ensures seedGate.paused == (m == Pause(Seeds) || (m != Resume(Seeds) && old(seedGate.paused)))
      ensures downloadGate.paused == (m == Pause(Downloads) || (m != Resume(Downloads) && old(downloadGate.paused)))
      ensures m.SetBandwidth? ==> (limiter.Some? <==> m.bps > 0) && (m.bps > 0 ==> limiter.value.rate == m.bps)
      ensures !m.SetBandwidth? ==> limiter == old(limiter)
    {
      assert seedGate.resumeCh in seedGate.generations && downloadGate.resumeCh in downloadGate.generations;
      match m {
        case Pause(Seeds) => seedGate.Pause();
        case Pause(Downloads) => downloadGate.Pause();
        case Resume(Seeds) => seedGate.Resume();
        case Resume(Downloads) => downloadGate.Resume();
        case SetBandwidth(bps) => SetBandwidth(bps);
        case ClearMetrics =>
      }
    }

    method SetBandwidth(bps: int)
      modifies this`limiter
      ensures limiter == LimiterFor(bps)
    {
      if bps <= 0 {
        limiter := None;
        return;
      }
      var burst := bps;
      if burst < MIN_BURST {
        burst := MIN_BURST;
      }
      limiter := Some(Limiter(bps, burst));
    }

    method HandleFrame(frame: Frame)
      requires Valid()
      modifies Footprint()
      ensures Valid() && forall o :: o in Footprint() ==> o in old(Footprint()) || fresh(o)
      ensures View() == Handled(old(View()), frame)
    {
      if frame.Command? {
        ApplyCommand(frame.msg);
      }
    }

    /** The read loop until the connection fails: unparseable, `ping` and
        unknown frames are skipped, commands applied in order. */
    method ReadLoop(frames: seq<Frame>)
      requires Valid()
      modifies Footprint()
      ensures Valid() && View() == Drain(old(View()), Commands(frames))
    {
      ghost var d0 := View();
      var i := 0;
      while i < |frames|
        invariant 0 <= i <= |frames| && Valid()
        invariant forall o :: o in Footprint() ==> o in old(Footprint()) || fresh(o)
        invariant View() == HandledAll(d0, frames[..i])
      {
        HandleFrame(frames[i]);
        assert frames[..i + 1][..i] == frames[..i];
        i := i + 1;
      }
      assert frames[..|frames|] == frames;
      HandledIsDrained(d0, frames);
    }
  }

  // ------------------------------------------------------------- reconnecting

  const SECOND := 1000  // milliseconds

  function Pow2(n: nat): nat { if n == 0 then 1 else 2 * Pow2(n - 1) }

  /** How many rounds ago the last successful connection was, or the start. */
  function RoundsSince(connected: seq<bool>): nat
    decreases |connected|
  {
    if connected == [] || connected[|connected| - 1] then 0 else 1 + RoundsSince(connected[..|connected| - 1])
  }

  /** The wait after a round: one second after a connection was lost, doubling
      with every failed dial since, up to 32 seconds. */
  function WaitAfter(connected: seq<bool>): int
    requires connected != []
  {
    var k := RoundsSince(connected) - (if RoundsSince(connected) == |connected| then 1 else 0);
    SECOND * Pow2(if k < 5 then k else 5)
  }

  /** The test against 30 seconds lets the wait reach 32 and no more. */
  lemma WaitsAreBounded(connected: seq<bool>)
    requires connected != []
    ensures SECOND <= WaitAfter(connected) <= 32 * SECOND
    ensures connected[|connected| - 1] ==> WaitAfter(connected) == SECOND
  {
    assert Pow2(1) == 2 && Pow2(2) == 4 && Pow2(3) == 8 && Pow2(4) == 16 && Pow2(5) == 32;
  }

  /** The rounds since: all of them failed to dial, and the one before, if there
      is one, connected. */
  lemma {:induction false} RoundsSinceCounts(connected: seq<bool>)
    ensures var k, n := RoundsSince(connected), |connected|;
      && k <= n
      && (forall i :: n - k <= i < n ==> !connected[i])
      && (k < n ==> connected[n - k - 1])
    decreases |connected|
  {
    if connected != [] && !connected[|connected| - 1] { RoundsSinceCounts(connected[..|connected| - 1]); }
  }

  /** When the wait passes the 30 seconds it is tested against: exactly after
      five failed dials since the last connection, or six since the start, and
      it is 32 seconds then. */
  lemma {:induction false} WaitExceedsThirtyIff(connected: seq<bool>, failed: nat)
    requires connected != [] && failed <= |connected|
    requires forall i :: |connected| - failed <= i < |connected| ==> !connected[i]
    requires failed < |connected| ==> connected[|connected| - failed - 1]
    ensures WaitAfter(connected) > 30 * SECOND <==> failed >= if failed < |connected| then 5 else 6
    ensures WaitAfter(connected) > 30 * SECOND ==> WaitAfter(connected) == 32 * SECOND
  {
    RoundsSinceCounts(connected);
    assert RoundsSince(connected) == failed;
    assert Pow2(1) == 2 && Pow2(2) == 4 && Pow2(3) == 8 && Pow2(4) == 16 && Pow2(5) == 32;
  }

  /** A run that gets there. */
  lemma {:induction false} WaitReachesThirtyTwo()
    ensures WaitAfter([true, false, false, false, false, false]) == 32 * SECOND
    ensures WaitAfter([false, false, false, false, false, false]) == 32 * SECOND
  {
    WaitExceedsThirtyIff([true, false, false, false, false, false], 5);
    WaitExceedsThirtyIff([false, false, false, false, false, false], 6);
  }

  /** Round by round: one second at the start and after a connection, and after a
      failed dial twice the wait before, unless that was 30 seconds or more. */
  lemma {:induction false} WaitStep(connected: seq<bool>, i: nat)
    requires i < |connected|
    ensures WaitAfter(connected[..i + 1]) == (
      if i == 0 || connected[i] then 1000
      else if WaitAfter(connected[..i]) < 30_000 then 2 * WaitAfter(connected[..i]) else WaitAfter(connected[..i]))
  {
    assert connected[..i + 1][..i] == connected[..i];
    RoundsSinceCounts(connected[..i]);
    assert Pow2(1) == 2 && Pow2(2) == 4 && Pow2(3) == 8 && Pow2(4) == 16 && Pow2(5) == 32;
  }

  /** The reconnect loop: in every round the dial fails, or it connects and the
      connection is later lost; then the loop waits. */
  method Reconnect(connected: seq<bool>) returns (waits: seq<int>)
    ensures |waits| == |connected|
    ensures forall i :: 0 <= i < |waits| ==> waits[i] == WaitAfter(connected[..i + 1])
    ensures forall i :: 0 <= i < |waits| && (i == 0 || connected[i]) ==> waits[i] == 1000
    ensures forall i :: 0 < i < |waits| && !connected[i] ==> waits[i] == waits[i - 1] * if waits[i - 1] < 30_000 then 2 else 1
  {
    var backoff := SECOND;
    waits := [];
    ghost var k: nat := 0;
    for i := 0 to |connected|
      invariant |waits| == i && forall j :: 0 <= j < i ==> waits[j] == WaitAfter(connected[..j + 1])
      invariant k == if RoundsSince(connected[..i]) == i then i else RoundsSince(connected[..i]) + 1
      invariant backoff == SECOND * Pow2(if k < 5 then k else 5)
    {
      assert connected[..i + 1][..i] == connected[..i];
      if connected[i] {
        backoff := SECOND;
        k := 0;
      }
      waits := waits + [backoff];
      assert Pow2(5) == 32;
      if backoff < 30 * SECOND { backoff := backoff * 2; }
      k := k + 1;
    }
    forall i | 0 <= i < |waits|
      ensures if i == 0 || connected[i] then waits[i] == 1000
              else waits[i] == waits[i - 1] * if waits[i - 1] < 30_000 then 2 else 1
    {
      WaitStep(connected, i);
    }
  }
}
