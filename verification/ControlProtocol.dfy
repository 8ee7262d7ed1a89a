/** The control protocol as a step relation over every interleaving.

    One operator runs commands one after another; each command changes the
    state, snapshots the connection map and then writes to one connection at a
    time.  Any number of registrations run concurrently: insert into the map,
    read the state, send the replay.  Daemons read their connection in order,
    hang up, restart and dial again whenever they like; any write may fail. */
module ControlProtocol {
  import opened Wrappers
  import opened ControlTypes

  datatype Phase =
    | Dialled                                                // upgraded, hello not yet handled
    | Inserted                                               // in the map, state not read
    | Registered(snap: ControlState, todo: seq<Message>)     // replay still to send
    | Unregistered

  /** Who wrote the last message about a component on a connection. */
  datatype Writer = Nobody | Replayer | Commander

  /** A connection.  The last three fields are history: they influence no step.
      `overlapped` collects the components for which a command changed the
      state between this registration's state read and its replay send. */
  datatype Conn = Conn(
    daemon: nat, phase: Phase, up: bool, queue: seq<Message>,
    atConnect: Daemon, lastWriter: map<Component, Writer>, overlapped: set<Component>)
  {
    predicate InMap() { phase.Inserted? || phase.Registered? }

    function Last(k: Component): Writer { if k in lastWriter then lastWriter[k] else Nobody }

    function Sent(m: Message, w: Writer): Conn {
      this.(queue := queue + [m],
            lastWriter := match Subject(m) case None => lastWriter case Some(k) => lastWriter[k := w])
    }

    function Noticing(m: Message): Conn {
      match Subject(m)
      case None => this
      case Some(k) => if phase.Registered? && Mentions(phase.todo, k) then this.(overlapped := overlapped + {k}) else this
    }
  }

  datatype Operator = Idle | Changed(msg: Message) | Broadcasting(msg: Message, targets: set<nat>)

  datatype System = System(
    state: ControlState, operator: Operator,
    conns: map<nat, Conn>, daemons: map<nat, Daemon>, current: map<nat, nat>)

  datatype Action =
    | Issue(msg: Message)               // cp.mu: change the state
    | TakeSnapshot                      // cp.daemonsMu: copy the map
    | Write(c: nat, ok: bool)           // dc.mu: broadcast write to one connection
    | FinishBroadcast
    | Dial(d: nat, c: nat)
    | Insert(c: nat)
    | ReadState(c: nat)
    | SendReplay(c: nat, ok: bool)
    | Unregister(c: nat)
    | Deliver(d: nat)
    | HangUp(d: nat)
    | Restart(d: nat)

  predicate Enabled(s: System, a: Action) {
    match a
    case Issue(_) => s.operator.Idle?
    case TakeSnapshot => s.operator.Changed?
    case Write(c, ok) => s.operator.Broadcasting? && c in s.operator.targets && c in s.conns && (ok ==> s.conns[c].up)
    case FinishBroadcast => s.operator.Broadcasting? && s.operator.targets == {}
    case Dial(d, c) => d in s.daemons && d !in s.current && c !in s.conns
    case Insert(c) => c in s.conns && s.conns[c].phase.Dialled?
    case ReadState(c) => c in s.conns && s.conns[c].phase.Inserted?
    case SendReplay(c, ok) =>
      && c in s.conns && s.conns[c].phase.Registered? && s.conns[c].phase.todo != []
      && (ok ==> s.conns[c].up)
    case Unregister(c) => c in s.conns && s.conns[c].phase.Registered? && s.conns[c].phase.todo == []
    case Deliver(d) => d in s.current && d in s.daemons && s.current[d] in s.conns && s.conns[s.current[d]].queue != []
    case HangUp(d) => d in s.current && s.current[d] in s.conns
    case Restart(d) => d in s.daemons && d !in s.current
  }

  /** A failed write takes the connection down for good. */
  function Written(conn: Conn, m: Message, ok: bool, w: Writer): Conn {
    if ok then conn.Sent(m, w) else conn.(up := false)
  }

  function Noticed(conns: map<nat, Conn>, m: Message): map<nat, Conn> {
    map c | c in conns :: conns[c].Noticing(m)
  }

  function Next(s: System, a: Action): System
    requires Enabled(s, a)
  {
    match a
    case Issue(m) =>
      s.(state := Update(s.state, m), operator := Changed(m),
         conns := Noticed(s.conns, m))
    case TakeSnapshot =>
      s.(operator := Broadcasting(s.operator.msg, set c | c in s.conns && s.conns[c].InMap()))
    case Write(c, ok) =>
      s.(operator := Broadcasting(s.operator.msg, s.operator.targets - {c}),
         conns := s.conns[c := Written(s.conns[c], s.operator.msg, ok, Commander)])
    case FinishBroadcast => s.(operator := Idle)
    case Dial(d, c) =>
      s.(conns := s.conns[c := Conn(d, Dialled, true, [], s.daemons[d], map[], {})], current := s.current[d := c])
    case Insert(c) => s.(conns := s.conns[c := s.conns[c].(phase := Inserted)])
    case ReadState(c) => s.(conns := s.conns[c := s.conns[c].(phase := Registered(s.state, Replay(s.state)))])
    case SendReplay(c, ok) =>
      var conn := s.conns[c];
      s.(conns := s.conns[c := Written(conn, conn.phase.todo[0], ok, Replayer)
                                 .(phase := Registered(conn.phase.snap, conn.phase.todo[1..]))])
    case Unregister(c) => s.(conns := s.conns[c := s.conns[c].(phase := Unregistered, up := false)])
    case Deliver(d) =>
      var c := s.current[d];
      s.(daemons := s.daemons[d := ApplyCommand(s.daemons[d], s.conns[c].queue[0])],
         conns := s.conns[c := s.conns[c].(queue := s.conns[c].queue[1..])])
    case HangUp(d) =>
      s.(conns := s.conns[s.current[d] := s.conns[s.current[d]].(up := false)], current := s.current - {d})
    case Restart(d) => s.(daemons := s.daemons[d := FRESH_DAEMON])
  }

  /** A tracker that has just started; the daemons may be in any condition. */
  predicate Initial(s: System) {
    s.state == NEW_STATE && s.operator == Idle && s.conns == map[] && s.current == map[]
  }

  function Run(s: System, actions: seq<Action>): Option<System>
    decreases |actions|
  {
    if actions == [] then Some(s)
    else if Enabled(s, actions[0]) then Run(Next(s, actions[0]), actions[1..])
    else None
  }

  // ---------------------------------------------------------------- invariant

  /** The running command will still be written to this connection. */
  predicate InFlight(s: System, c: nat, k: Component) {
    match s.operator
    case Idle => false
    case Changed(m) => Touches(m, k)
    case Broadcasting(m, targets) => Touches(m, k) && c in targets
  }

  predicate UpToDate(s: System, c: nat, k: Component, v: Setting) {
    InFlight(s, c, k) || v == Wanted(s.state, k)
  }

  predicate Pending(conn: Conn, k: Component) {
    conn.phase.Registered? && Mentions(conn.phase.todo, k)
  }

  /** What the daemon will do about `k` once it has read everything written. */
  function Eventual(s: System, c: nat, k: Component): Setting
    requires c in s.conns && s.conns[c].daemon in s.daemons
  {
    Actual(Drain(s.daemons[s.conns[c].daemon], s.conns[c].queue), k)
  }

  predicate ReplayOk(s: System, conn: Conn, k: Component) {
    conn.phase.Registered? ==>
      && (forall i :: 0 <= i < |conn.phase.todo| && Touches(conn.phase.todo[i], k) ==>
            Carried(conn.phase.todo[i]) == Wanted(conn.phase.snap, k) != Default(k))
      && (forall i, j :: 0 <= i < j < |conn.phase.todo| && Touches(conn.phase.todo[i], k) ==> !Touches(conn.phase.todo[j], k))
      && (Pending(conn, k) && k !in conn.overlapped ==> Wanted(conn.phase.snap, k) == Wanted(s.state, k))
  }

  predicate WriterOk(s: System, c: nat, k: Component)
    requires c in s.conns && s.conns[c].daemon in s.daemons
  {
    var conn := s.conns[c];
    var v := Eventual(s, c, k);
    match conn.Last(k)
    case Commander => UpToDate(s, c, k, v)
    case Replayer =>
      && conn.phase.Registered? && !Pending(conn, k)
      && v == Wanted(conn.phase.snap, k) != Default(k)
      && (k !in conn.overlapped ==> UpToDate(s, c, k, v))
    case Nobody =>
      && v == Actual(conn.atConnect, k)
      && (conn.phase.Registered? && !Pending(conn, k) ==> UpToDate(s, c, k, Default(k)))
  }

  ghost predicate ConnOk(s: System, c: nat)
    requires c in s.conns
  {
    var conn := s.conns[c];
    && conn.daemon in s.current && s.current[conn.daemon] == c && conn.daemon in s.daemons
    && (conn.InMap() ==> forall k :: ReplayOk(s, conn, k) && WriterOk(s, c, k))
    && (conn.phase.Dialled? ==> conn.lastWriter == map[] && conn.queue == [] && s.daemons[conn.daemon] == conn.atConnect)
  }

  ghost predicate Inv(s: System) {
    && (forall c :: c in s.conns && s.conns[c].up ==> ConnOk(s, c))
    && OperatorOk(s)
  }

  ghost predicate OperatorOk(s: System) {
    && (s.operator.Changed? || s.operator.Broadcasting? ==>
          forall k :: Touches(s.operator.msg, k) ==> Wanted(s.state, k) == Carried(s.operator.msg))
    && (s.operator.Broadcasting? ==> forall c :: c in s.operator.targets ==> c in s.conns && !s.conns[c].phase.Dialled?)
    && (forall d :: d in s.current ==> s.current[d] in s.conns && s.conns[s.current[d]].daemon == d)
  }

  /** A write to `c` changes the eventual value of the component it is about. */
  lemma WriteEffect(d: Daemon, conn: Conn, m: Message, w: Writer, k: Component)
    ensures Actual(Drain(d, conn.Sent(m, w).queue), k)
         == if Touches(m, k) then Carried(m) else Actual(Drain(d, conn.queue), k)
    ensures conn.Sent(m, w).Last(k) == if Touches(m, k) then w else conn.Last(k)
  {
    DrainAppend(d, conn.queue, m);
    MessageEffect(NEW_STATE, Drain(d, conn.queue), m, k);
  }

  lemma IssueKeeps(s: System, m: Message, c: nat)
    requires Inv(s) && Enabled(s, Issue(m)) && c in s.conns && s.conns[c].up
    ensures ConnOk(Next(s, Issue(m)), c)
  {
    var t := Next(s, Issue(m));
    forall k ensures t.conns[c].InMap() ==> ReplayOk(t, t.conns[c], k) && WriterOk(t, c, k) {
      MessageEffect(s.state, FRESH_DAEMON, m, k);
      if s.conns[c].InMap() { assert ReplayOk(s, s.conns[c], k) && WriterOk(s, c, k); }
      assert t.conns[c].lastWriter == s.conns[c].lastWriter;
    }
  }

  lemma WriteKeeps(s: System, c0: nat, ok: bool, c: nat)
    requires Inv(s) && Enabled(s, Write(c0, ok))
    requires c in s.conns && Next(s, Write(c0, ok)).conns[c].up
    ensures ConnOk(Next(s, Write(c0, ok)), c)
  {
    var t := Next(s, Write(c0, ok));
    forall k ensures t.conns[c].InMap() ==> ReplayOk(t, t.conns[c], k) && WriterOk(t, c, k) {
      if t.conns[c].InMap() {
        assert ReplayOk(s, s.conns[c], k) && WriterOk(s, c, k);
        if c == c0 {
          WriteEffect(s.daemons[s.conns[c].daemon], s.conns[c], s.operator.msg, Commander, k);
        }
      }
    }
  }

  lemma SendReplayKeeps(s: System, c0: nat, ok: bool, c: nat)
    requires Inv(s) && Enabled(s, SendReplay(c0, ok))
    requires c in s.conns && Next(s, SendReplay(c0, ok)).conns[c].up
    ensures ConnOk(Next(s, SendReplay(c0, ok)), c)
  {
    var t := Next(s, SendReplay(c0, ok));
    forall k ensures t.conns[c].InMap() ==> ReplayOk(t, t.conns[c], k) && WriterOk(t, c, k) {
      assert s.conns[c].InMap() ==> ReplayOk(s, s.conns[c], k) && WriterOk(s, c, k);
      if c == c0 {
        var todo := s.conns[c].phase.todo;
        WriteEffect(s.daemons[s.conns[c].daemon], s.conns[c], todo[0], Replayer, k);
        assert todo == [todo[0]] + todo[1..];
        assert Mentions(todo, k) <==> Touches(todo[0], k) || Mentions(todo[1..], k);
      }
    }
  }

  lemma ReadStateKeeps(s: System, c0: nat, c: nat)
    requires Inv(s) && Enabled(s, ReadState(c0)) && c in s.conns && s.conns[c].up
    ensures ConnOk(Next(s, ReadState(c0)), c)
  {
    var t := Next(s, ReadState(c0));
    forall k ensures t.conns[c].InMap() ==> ReplayOk(t, t.conns[c], k) && WriterOk(t, c, k) {
      assert s.conns[c].InMap() ==> ReplayOk(s, s.conns[c], k) && WriterOk(s, c, k);
      ReplayCoversState(s.state, k);
    }
  }

  lemma DeliverKeeps(s: System, d: nat, c: nat)
    requires Inv(s) && Enabled(s, Deliver(d)) && c in s.conns && s.conns[c].up
    ensures ConnOk(Next(s, Deliver(d)), c)
  {
    var t := Next(s, Deliver(d));
    forall k ensures t.conns[c].InMap() ==> ReplayOk(t, t.conns[c], k) && WriterOk(t, c, k) {
      assert s.conns[c].InMap() ==> ReplayOk(s, s.conns[c], k) && WriterOk(s, c, k);
    }
  }

  lemma LocalKeeps(s: System, a: Action, c: nat)
    requires Inv(s) && Enabled(s, a)
    requires a.TakeSnapshot? || a.FinishBroadcast? || a.Dial? || a.Insert? || a.Unregister? || a.HangUp? || a.Restart?
    requires c in Next(s, a).conns && Next(s, a).conns[c].up
    ensures ConnOk(Next(s, a), c)
  {
    var t := Next(s, a);
    forall k ensures t.conns[c].InMap() ==> ReplayOk(t, t.conns[c], k) && WriterOk(t, c, k) {
      assert c in s.conns && s.conns[c].InMap() ==> ReplayOk(s, s.conns[c], k) && WriterOk(s, c, k);
    }
  }

  /** Every step keeps the invariant. */
  lemma StepKeepsInv(s: System, a: Action)
    requires Inv(s) && Enabled(s, a)
    ensures Inv(Next(s, a))
  {
    var t := Next(s, a);
    forall c | c in t.conns && t.conns[c].up ensures ConnOk(t, c) {
      match a
      case Issue(m) => IssueKeeps(s, m, c);
      case Write(c0, ok) => WriteKeeps(s, c0, ok, c);
      case SendReplay(c0, ok) => SendReplayKeeps(s, c0, ok, c);
      case ReadState(c0) => ReadStateKeeps(s, c0, c);
      case Deliver(d) => DeliverKeeps(s, d, c);
      case _ => LocalKeeps(s, a, c);
    }
    OperatorStaysOk(s, a);
  }

  lemma OperatorStaysOk(s: System, a: Action)
    requires OperatorOk(s) && Enabled(s, a)
    ensures OperatorOk(Next(s, a))
  {
  }

  lemma {:induction false} RunKeepsInv(s: System, actions: seq<Action>)
    requires Inv(s) && Run(s, actions).Some?
    ensures Inv(Run(s, actions).value)
    decreases |actions|
  {
    if actions != [] {
      StepKeepsInv(s, actions[0]);
      RunKeepsInv(Next(s, actions[0]), actions[1..]);
    }
  }

  // ---------------------------------------------------------------- theorems

  /** The operator is idle and the daemon's live connection has finished its
      registration and been read to the end. */
  predicate Settled(s: System, d: nat) {
    && s.operator.Idle? && d in s.daemons
    && d in s.current && s.current[d] in s.conns
    && var conn := s.conns[s.current[d]];
       conn.up && conn.queue == [] && conn.phase.Registered? && conn.phase.todo == []
  }

  /** The exact convergence condition, for a daemon in any condition before it
      connected.  A setting is right at rest unless the replay had the last word
      and a command overtook it, or nothing was ever said about the setting and
      the daemon brought a deviating value along. */
  lemma ConvergesExactly(s0: System, actions: seq<Action>, d: nat, k: Component)
    requires Initial(s0) && Run(s0, actions).Some? && Settled(Run(s0, actions).value, d)
    ensures var s := Run(s0, actions).value;
      var conn := s.conns[s.current[d]];
      Actual(s.daemons[d], k) == Wanted(s.state, k) <==>
        match conn.Last(k)
        case Commander => true
        case Replayer => Wanted(conn.phase.snap, k) == Wanted(s.state, k)
        case Nobody => Actual(conn.atConnect, k) == Default(k)
  {
    RunKeepsInv(s0, actions);
    var s := Run(s0, actions).value;
    var c := s.current[d];
    assert ConnOk(s, c);
    assert ReplayOk(s, s.conns[c], k) && WriterOk(s, c, k);
  }

  /** A pause is never lost: whatever the daemon's gate held before it connected
      and however commands and registrations interleaved. */
  lemma NoLostPause(s0: System, actions: seq<Action>, d: nat, g: GateKind)
    requires Initial(s0) && Run(s0, actions).Some? && Settled(Run(s0, actions).value, d)
    requires Wanted(Run(s0, actions).value.state, Gate(g)) == Paused
    ensures Actual(Run(s0, actions).value.daemons[d], Gate(g)) == Paused
  {
    RunKeepsInv(s0, actions);
    var s := Run(s0, actions).value;
    var c := s.current[d];
    assert ConnOk(s, c);
    assert ReplayOk(s, s.conns[c], Gate(g)) && WriterOk(s, c, Gate(g));
  }

  /** A daemon that comes with a setting at its default, as a freshly started one
      does with all of them, agrees with the tracker on it unless a command
      changed it between this registration's state read and the replay send of
      that same setting. */
  lemma FreshDaemonConverges(s0: System, actions: seq<Action>, d: nat, k: Component)
    requires Initial(s0) && Run(s0, actions).Some? && Settled(Run(s0, actions).value, d)
    requires var s := Run(s0, actions).value;
      Actual(s.conns[s.current[d]].atConnect, k) == Default(k) && k !in s.conns[s.current[d]].overlapped
    ensures var s := Run(s0, actions).value;
      Actual(s.daemons[d], k) == Wanted(s.state, k)
  {
    RunKeepsInv(s0, actions);
    var s := Run(s0, actions).value;
    var c := s.current[d];
    assert ConnOk(s, c);
    assert ReplayOk(s, s.conns[c], k) && WriterOk(s, c, k);
  }

  // ---------------------------------------------------------- counter-traces

  lemma {:induction false} RunAppend(s: System, a: seq<Action>, b: seq<Action>)
    requires Run(s, a).Some?
    ensures Run(s, a + b) == Run(Run(s, a).value, b)
    decreases |a|
  {
    if a == [] {
      assert a + b == b;
    } else {
      assert (a + b)[1..] == a[1..] + b;
      RunAppend(Next(s, a[0]), a[1..], b);
    }
  }

  lemma Run2(s: System, a: Action, b: Action)
    requires Enabled(s, a) && Enabled(Next(s, a), b)
    ensures Run(s, [a, b]) == Some(Next(Next(s, a), b))
  {
    assert [a, b][1..] == [b] && [b][1..] == [];
    assert Run(Next(s, a), [b]) == Run(Next(Next(s, a), b), []);
  }

  const FRESH := map[0 := FRESH_DAEMON]

  const ONE_DAEMON := System(NEW_STATE, Idle, map[], FRESH, map[])

  function Command(m: Message, c: nat, ok: bool): seq<Action> {
    [Issue(m), TakeSnapshot] + [Write(c, ok), FinishBroadcast]
  }

  function Register(c: nat): seq<Action> {
    [Dial(0, c), Insert(c)] + [ReadState(c)]
  }

  /** A command with a single connection in the map. */
  lemma CommandReaches(s: System, m: Message, c: nat, ok: bool)
    requires s.operator.Idle? && s.conns.Keys == {c} && s.conns[c].InMap() && (ok ==> s.conns[c].up)
    ensures Run(s, Command(m, c, ok)) ==
            Some(s.(state := Update(s.state, m), conns := map[c := Written(s.conns[c].Noticing(m), m, ok, Commander)]))
  {
    Run2(s, Issue(m), TakeSnapshot);
    var t := Next(Next(s, Issue(m)), TakeSnapshot);
    SnapshotOfOne(s, m, c);
    Run2(t, Write(c, ok), FinishBroadcast);
    RunAppend(s, [Issue(m), TakeSnapshot], [Write(c, ok), FinishBroadcast]);
    var conn := Written(s.conns[c].Noticing(m), m, ok, Commander);
    assert t.conns[c := conn] == map[c := conn];
    assert Next(Next(t, Write(c, ok)), FinishBroadcast) == s.(state := Update(s.state, m), conns := map[c := conn]);
  }

  lemma SnapshotOfOne(s: System, m: Message, c: nat)
    requires s.operator.Idle? && s.conns.Keys == {c} && s.conns[c].InMap()
    ensures Next(Next(s, Issue(m)), TakeSnapshot)
         == s.(state := Update(s.state, m), operator := Broadcasting(m, {c}), conns := map[c := s.conns[c].Noticing(m)])
  {
    var t := Next(Next(s, Issue(m)), TakeSnapshot);
    assert t.conns == map[c := s.conns[c].Noticing(m)];
    assert t.operator.targets == {c};
  }

  /** A registration that reads the state but has not replayed it yet. */
  lemma RegisterReaches(s: System, c: nat)
    requires c !in s.conns && 0 in s.daemons && 0 !in s.current
    ensures Run(s, Register(c)) ==
            Some(s.(conns := s.conns[c := Conn(0, Registered(s.state, Replay(s.state)), true, [], s.daemons[0], map[], {})],
                    current := s.current[0 := c]))
  {
    Run2(s, Dial(0, c), Insert(c));
    var t := Next(Next(s, Dial(0, c)), Insert(c));
    assert [ReadState(c)][1..] == [];
    RunAppend(s, [Dial(0, c), Insert(c)], [ReadState(c)]);
    var u := Next(t, ReadState(c));
    assert Run(t, [ReadState(c)]) == Run(u, []);
    assert u.conns == s.conns[c := Conn(0, Registered(s.state, Replay(s.state)), true, [], s.daemons[0], map[], {})];
  }

  /** A command issued with no daemon connected. */
  lemma QuietCommand(m: Message)
    ensures Run(ONE_DAEMON, [Issue(m), TakeSnapshot] + [FinishBroadcast]) == Some(ONE_DAEMON.(state := Update(NEW_STATE, m)))
  {
    Run2(ONE_DAEMON, Issue(m), TakeSnapshot);
    var t := Next(Next(ONE_DAEMON, Issue(m)), TakeSnapshot);
    assert t.operator.targets == {};
    assert t.conns == map[];
    assert Run(t, [FinishBroadcast]) == Run(Next(t, FinishBroadcast), []);
    assert [FinishBroadcast][1..] == [];
    RunAppend(ONE_DAEMON, [Issue(m), TakeSnapshot], [FinishBroadcast]);
  }

  /** First the old value is set, then the new one overtakes its replay. */
  function Overtaking(earlier: Message, later: Message): seq<Action> {
    [Issue(earlier), TakeSnapshot] + [FinishBroadcast] + Register(7) + Command(later, 7, true) +
    ([SendReplay(7, true), Deliver(0)] + [Deliver(0)])
  }

  /** The overlap condition of `FreshDaemonConverges` is needed.  For every
      setting, every earlier value that is replayed and every later one, a fresh
      daemon that registers after the first command and before the second ends
      up, for good, with the first value when the broadcast of the second gets
      between the state read and the replay send: a resume or a bandwidth change
      is lost. */
  lemma OvertakenReplayWins(earlier: Message, later: Message, k: Component)
    requires Replay(Update(NEW_STATE, earlier)) == [earlier] && Touches(earlier, k) && Touches(later, k)
    ensures Initial(ONE_DAEMON)
    ensures var r := Run(ONE_DAEMON, Overtaking(earlier, later));
      && r.Some? && Settled(r.value, 0)
      && r.value.conns[r.value.current[0]].atConnect == FRESH_DAEMON
      && Wanted(r.value.state, k) == Carried(later) && Actual(r.value.daemons[0], k) == Carried(earlier)
  {
    var one := Update(NEW_STATE, earlier);
    var s1 := ONE_DAEMON.(state := one);
    QuietCommand(earlier);
    RegisterReaches(s1, 7);
    var conn := Conn(0, Registered(one, [earlier]), true, [], FRESH_DAEMON, map[], {});
    var s2 := System(one, Idle, map[7 := conn], FRESH, map[0 := 7]);
    CommandReaches(s2, later, 7, true);
    var s3 := s2.(state := Update(one, later), conns := map[7 := conn.Noticing(later).Sent(later, Commander)]);
    var a, b, c, e := [Issue(earlier), TakeSnapshot] + [FinishBroadcast], Register(7), Command(later, 7, true), [SendReplay(7, true), Deliver(0)] + [Deliver(0)];
    RunAppend(ONE_DAEMON, a, b);
    RunAppend(ONE_DAEMON, a + b, c);
    RunAppend(ONE_DAEMON, a + b + c, e);
    assert Run(ONE_DAEMON, Overtaking(earlier, later)) == Run(s3, e);
    ReplayThenRead(s3, earlier, later);
    MessageEffect(one, FRESH_DAEMON, later, k);
    MessageEffect(one, ApplyCommand(FRESH_DAEMON, later), earlier, k);
  }

  lemma ReplayThenRead(s: System, earlier: Message, later: Message)
    requires s.operator.Idle? && s.current == map[0 := 7] && s.daemons == FRESH && 7 in s.conns
    requires s.conns[7].phase.Registered? && s.conns[7].phase.todo == [earlier] && s.conns[7].queue == [later] && s.conns[7].up
    ensures var r := Run(s, [SendReplay(7, true), Deliver(0)] + [Deliver(0)]);
      && r.Some? && Settled(r.value, 0) && r.value.state == s.state
      && r.value.current == s.current && r.value.conns[7].atConnect == s.conns[7].atConnect
      && r.value.daemons == map[0 := ApplyCommand(ApplyCommand(FRESH_DAEMON, later), earlier)]
  {
    Run2(s, SendReplay(7, true), Deliver(0));
    var t := Next(Next(s, SendReplay(7, true)), Deliver(0));
    assert t.conns[7].queue == [earlier];
    assert [Deliver(0)][1..] == [];
    RunAppend(s, [SendReplay(7, true), Deliver(0)], [Deliver(0)]);
    assert Run(t, [Deliver(0)]) == Some(Next(t, Deliver(0)));
  }

  function Reconnecting(g: GateKind): seq<Action> {
    Register(7) + Command(Pause(g), 7, true) + [Deliver(0), HangUp(0)] + Command(Resume(g), 7, false) + Register(8)
  }

  /** A paused daemon that loses its connection and dials again after a resume
      stays paused, with no overlap at all: only pauses are replayed. */
  lemma ResumeIsLostOnReconnect(g: GateKind)
    ensures var r := Run(ONE_DAEMON, Reconnecting(g));
      && r.Some? && Settled(r.value, 0)
      && r.value.conns[r.value.current[0]].overlapped == {}
      && Wanted(r.value.state, Gate(g)) == Open && Actual(r.value.daemons[0], Gate(g)) == Paused
  {
    var a, b, e := Register(7) + Command(Pause(g), 7, true), [Deliver(0), HangUp(0)], Command(Resume(g), 7, false);
    PausedThenGone(g);
    var s3 := Run(ONE_DAEMON, a + b).value;
    CommandReaches(s3, Resume(g), 7, false);
    var s4 := Run(s3, e).value;
    RegisterReaches(s4, 8);
    RunAppend(ONE_DAEMON, a + b, e);
    RunAppend(ONE_DAEMON, a + b + e, Register(8));
  }

  /** The daemon has read the pause and hung up. */
  lemma PausedThenGone(g: GateKind)
    ensures var r := Run(ONE_DAEMON, Register(7) + Command(Pause(g), 7, true) + [Deliver(0), HangUp(0)]);
      && r.Some? && r.value.operator.Idle? && r.value.state == Update(NEW_STATE, Pause(g))
      && r.value.daemons == map[0 := ApplyCommand(FRESH_DAEMON, Pause(g))] && r.value.current == map[]
      && r.value.conns.Keys == {7} && r.value.conns[7].InMap() && !r.value.conns[7].up
  {
    RegisterReaches(ONE_DAEMON, 7);
    var s1 := Run(ONE_DAEMON, Register(7)).value;
    CommandReaches(s1, Pause(g), 7, true);
    var s2 := Run(s1, Command(Pause(g), 7, true)).value;
    ReadThenHangUp(s2, 7);
    RunAppend(ONE_DAEMON, Register(7), Command(Pause(g), 7, true));
    RunAppend(ONE_DAEMON, Register(7) + Command(Pause(g), 7, true), [Deliver(0), HangUp(0)]);
    assert ApplyCommand(FRESH_DAEMON, Pause(g)) == ApplyCommand(FRESH_DAEMON, s2.conns[7].queue[0]);
  }

  lemma ReadThenHangUp(s: System, c: nat)
    requires s.operator.Idle? && s.conns.Keys == {c} && s.current == map[0 := c] && s.daemons.Keys == {0}
    requires s.conns[c].InMap() && s.conns[c].queue != []
    ensures var r := Run(s, [Deliver(0), HangUp(0)]);
      && r.Some? && r.value.operator.Idle? && r.value.state == s.state
      && r.value.daemons == map[0 := ApplyCommand(s.daemons[0], s.conns[c].queue[0])] && r.value.current == map[]
      && r.value.conns.Keys == {c} && r.value.conns[c].InMap() && !r.value.conns[c].up
  {
    Run2(s, Deliver(0), HangUp(0));
    var t := Next(Next(s, Deliver(0)), HangUp(0));
    assert t.daemons == map[0 := ApplyCommand(s.daemons[0], s.conns[c].queue[0])];
    assert t.current == map[];
  }

  // ------------------------------------------------- uninterrupted operations

  function Writes(conns: map<nat, Conn>, order: seq<nat>): (r: seq<Action>)
    requires forall c :: c in order ==> c in conns
  {
    seq(|order|, i requires 0 <= i < |order| => assert order[i] in order; Write(order[i], conns[order[i]].up))
  }

  function AfterBroadcast(conns: map<nat, Conn>, order: seq<nat>, m: Message): map<nat, Conn> {
    map c | c in conns :: if c in order then Written(conns[c], m, conns[c].up, Commander) else conns[c]
  }

  lemma AfterBroadcastFirst(conns: map<nat, Conn>, order: seq<nat>, m: Message)
    requires order != [] && order[0] !in order[1..] && order[0] in conns
    ensures AfterBroadcast(conns, order, m)
         == AfterBroadcast(conns[order[0] := Written(conns[order[0]], m, conns[order[0]].up, Commander)], order[1..], m)
  {
  }

  lemma {:induction false} BroadcastReaches(s: System, m: Message, order: seq<nat>)
    requires forall i, j :: 0 <= i < j < |order| ==> order[i] != order[j]
    requires forall c :: c in order ==> c in s.conns
    requires s.operator == Broadcasting(m, set c | c in order)
    ensures Run(s, Writes(s.conns, order)) ==
            Some(s.(operator := Broadcasting(m, {}), conns := AfterBroadcast(s.conns, order, m)))
    decreases |order|
  {
    if order == [] {
      assert s.operator.targets == {};
      assert AfterBroadcast(s.conns, order, m) == s.conns;
    } else {
      var a := Write(order[0], s.conns[order[0]].up);
      var t := Next(s, a);
      assert order == [order[0]] + order[1..];
      assert (set c | c in order) - {order[0]} == set c | c in order[1..];
      assert Writes(s.conns, order)[1..] == Writes(t.conns, order[1..]);
      BroadcastReaches(t, m, order[1..]);
      AfterBroadcastFirst(s.conns, order, m);
      assert Enabled(s, a) && Writes(s.conns, order)[0] == a;
    }
  }

  function WholeCommand(s: System, m: Message, order: seq<nat>): seq<Action>
    requires forall c :: c in order ==> c in s.conns
  {
    [Issue(m), TakeSnapshot] + Writes(s.conns, order) + [FinishBroadcast]
  }

  lemma WholeCommandReaches(s: System, m: Message, order: seq<nat>)
    requires s.operator.Idle?
    requires forall i, j :: 0 <= i < j < |order| ==> order[i] != order[j]
    requires forall c :: c in order <==> c in s.conns && s.conns[c].InMap()
    ensures Run(s, WholeCommand(s, m, order)) ==
            Some(s.(state := Update(s.state, m), conns := AfterBroadcast(Noticed(s.conns, m), order, m)))
  {
    Run2(s, Issue(m), TakeSnapshot);
    var t := Next(Next(s, Issue(m)), TakeSnapshot);
    assert t.operator.targets == set c | c in order;
    assert Writes(t.conns, order) == Writes(s.conns, order);
    BroadcastReaches(t, m, order);
    var u := Run(t, Writes(s.conns, order)).value;
    assert Run(u, [FinishBroadcast]) == Run(Next(u, FinishBroadcast), []);
    RunAppend(s, [Issue(m), TakeSnapshot], Writes(s.conns, order));
    RunAppend(s, [Issue(m), TakeSnapshot] + Writes(s.conns, order), [FinishBroadcast]);
  }

  /** A command that nothing interrupts, whatever order the map is walked in,
      has the effect of the sequential `ControlPlane.Command`: the message goes
      to every live connection in the map once, and nowhere else. */
  lemma UninterruptedCommand(s: System, m: Message, order: seq<nat>)
    requires s.operator.Idle?
    requires forall i, j :: 0 <= i < j < |order| ==> order[i] != order[j]
    requires forall c :: c in order <==> c in s.conns && s.conns[c].InMap()
    ensures var r := Run(s, WholeCommand(s, m, order));
      && r.Some? && r.value.state == Update(s.state, m) && r.value.operator.Idle?
      && r.value.daemons == s.daemons && r.value.current == s.current && r.value.conns.Keys == s.conns.Keys
      && forall c :: c in s.conns ==>
           && r.value.conns[c].queue == s.conns[c].queue + (if s.conns[c].InMap() && s.conns[c].up then [m] else [])
           && r.value.conns[c].phase == s.conns[c].phase && r.value.conns[c].up == s.conns[c].up
  {
    WholeCommandReaches(s, m, order);
  }

  /** A live connection that registers without interruption receives the replay
      of the state, as the sequential `ControlPlane.RegisterDaemon` sends it. */
  lemma UninterruptedRegistration(s: System, c: nat)
    requires c in s.conns && s.conns[c].phase.Dialled? && s.conns[c].up
    ensures var r := Run(s, [Insert(c), ReadState(c)] + seq(|Replay(s.state)|, i => SendReplay(c, true)));
      && r.Some? && r.value.state == s.state && r.value.daemons == s.daemons && r.value.operator == s.operator
      && r.value.conns.Keys == s.conns.Keys
      && r.value.conns[c].queue == s.conns[c].queue + Replay(s.state)
      && r.value.conns[c].phase == Registered(s.state, []) && r.value.conns[c].up
      && forall x :: x in s.conns && x != c ==> r.value.conns[x] == s.conns[x]
  {
    Run2(s, Insert(c), ReadState(c));
    var t := Next(Next(s, Insert(c)), ReadState(c));
    SendsReach(t, c);
    RunAppend(s, [Insert(c), ReadState(c)], seq(|Replay(s.state)|, i => SendReplay(c, true)));
  }

  /** From `s` to `t` the connection received `sent`; nothing else happened. */
  predicate OnlySent(s: System, t: System, c: nat, sent: seq<Message>) {
    && t.state == s.state && t.daemons == s.daemons && t.operator == s.operator
    && t.conns.Keys == s.conns.Keys && c in s.conns
    && t.conns[c].queue == s.conns[c].queue + sent
    && t.conns[c].up == s.conns[c].up
    && forall x :: x in s.conns && x != c ==> t.conns[x] == s.conns[x]
  }

  lemma SendOne(s: System, c: nat)
    requires c in s.conns && s.conns[c].phase.Registered? && s.conns[c].up && s.conns[c].phase.todo != []
    ensures Enabled(s, SendReplay(c, true))
    ensures var t := Next(s, SendReplay(c, true)); var phase := s.conns[c].phase;
      OnlySent(s, t, c, [phase.todo[0]]) && t.conns[c].phase == Registered(phase.snap, phase.todo[1..])
  {
  }

  lemma {:induction false} SendsReach(s: System, c: nat)
    requires c in s.conns && s.conns[c].phase.Registered? && s.conns[c].up
    ensures var r := Run(s, seq(|s.conns[c].phase.todo|, i => SendReplay(c, true)));
      && r.Some? && OnlySent(s, r.value, c, s.conns[c].phase.todo)
      && r.value.conns[c].phase == Registered(s.conns[c].phase.snap, [])
    decreases |s.conns[c].phase.todo|
  {
    var todo := s.conns[c].phase.todo;
    var acts := seq(|todo|, i => SendReplay(c, true));
    if todo != [] {
      var t := Next(s, SendReplay(c, true));
      SendOne(s, c);
      assert acts[1..] == seq(|t.conns[c].phase.todo|, i => SendReplay(c, true));
      assert todo == [todo[0]] + todo[1..];
      SendsReach(t, c);
      assert Run(s, acts) == Run(t, acts[1..]);
    } else {
      assert acts == [];
    }
  }
}
