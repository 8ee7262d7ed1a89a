/** The pause gate of a daemon (pkg/daemon/gate.go).

    A gate hands every waiter the channel that was current when the waiter
    arrived.  Pausing installs a fresh open channel, resuming closes the current
    one.  `GateState` is the abstract value: one flag per channel ever created. */
module GateModel {

  datatype GateOp = PauseOp | ResumeOp

  /** `closed[g]` tells whether the channel of generation `g` has been closed;
      the last generation is the one new waiters get. */
  datatype GateState = GateState(paused: bool, closed: seq<bool>) {
    predicate Valid() {
      && |closed| > 0
      && (paused <==> !closed[|closed| - 1])
      && forall g :: 0 <= g < |closed| - 1 ==> closed[g]
    }

    function Current(): (g: int) { |closed| - 1 }
  }

  const NEW_GATE := GateState(false, [true])

  function Apply(g: GateState, op: GateOp): (r: GateState)
    requires g.Valid()
    ensures r.Valid()
  {
    match op
    case PauseOp => if g.paused then g else GateState(true, g.closed + [false])
    case ResumeOp => if g.paused then GateState(false, g.closed[g.Current() := true]) else g
  }

  /** The gate after the first operations of a run, in lock order. */
  function After(g: GateState, ops: seq<GateOp>): (r: GateState)
    requires g.Valid()
    ensures r.Valid()
    decreases |ops|
  {
    if ops == [] then g else Apply(After(g, ops[..|ops| - 1]), ops[|ops| - 1])
  }

  /** The gate in the middle of a run. */
  function At(g: GateState, ops: seq<GateOp>, i: nat): (r: GateState)
    requires g.Valid() && i <= |ops|
    ensures r.Valid()
  {
    After(g, ops[..i])
  }

  lemma OneStep(g: GateState, ops: seq<GateOp>, i: nat)
    requires g.Valid() && i < |ops|
    ensures At(g, ops, i + 1) == Apply(At(g, ops, i), ops[i])
  {
    assert ops[..i + 1][..i] == ops[..i];
  }

  /** No channel disappears and a closed channel stays closed. */
  lemma {:induction false} ChannelsOnlyClose(g: GateState, ops: seq<GateOp>, i: nat, j: nat)
    requires g.Valid() && i <= j <= |ops|
    ensures |At(g, ops, i).closed| <= |At(g, ops, j).closed|
    ensures forall c :: 0 <= c < |At(g, ops, i).closed| && At(g, ops, i).closed[c] ==> At(g, ops, j).closed[c]
    decreases j
  {
    if i < j {
      ChannelsOnlyClose(g, ops, i, j - 1);
      OneStep(g, ops, j - 1);
    }
  }

  /** While the gate stays paused it keeps the channel it had. */
  lemma {:induction false} PausedKeepsChannel(g: GateState, ops: seq<GateOp>, i: nat, j: nat)
    requires g.Valid() && i <= j <= |ops|
    requires forall k :: i <= k <= j ==> At(g, ops, k).paused
    ensures At(g, ops, j).closed == At(g, ops, i).closed
    decreases j
  {
    if i < j {
      PausedKeepsChannel(g, ops, i, j - 1);
      OneStep(g, ops, j - 1);
      assert At(g, ops, j - 1).paused && At(g, ops, j).paused;
    }
  }

  /** `Wait` exactly: a waiter that fetched its channel after `i` operations can
      return nil after `j` operations if and only if the gate was open at some
      moment in between.  So a wait never passes a gate that was paused
      throughout, and a waiter that a `Resume` released cannot be held again by
      a `Pause` that follows at once. */
  lemma WaitReturnsIffGateWasOpen(g: GateState, ops: seq<GateOp>, i: nat, j: nat)
    requires g.Valid() && i <= j <= |ops|
    ensures |At(g, ops, i).closed| <= |At(g, ops, j).closed|
    ensures At(g, ops, j).closed[At(g, ops, i).Current()] <==> exists k :: i <= k <= j && !At(g, ops, k).paused
  {
    ChannelsOnlyClose(g, ops, i, j);
    var c := At(g, ops, i).Current();
    if k :| i <= k <= j && !At(g, ops, k).paused {
      ChannelsOnlyClose(g, ops, i, k);
      ChannelsOnlyClose(g, ops, k, j);
      assert At(g, ops, k).closed[c];
    } else {
      PausedKeepsChannel(g, ops, i, j);
      assert At(g, ops, j).paused;
    }
  }

  predicate OpenAfter(ops: seq<GateOp>, i: nat)
    requires i <= |ops|
  {
    i == 0 || ops[i - 1].ResumeOp?
  }

  /** In terms of the operations alone: a new gate is paused exactly if the last
      operation was a pause; and a waiter that came after `i` of them can pass
      after `j` exactly if the last one before it was a resume, or there was
      none, or a resume came since. */
  lemma {:induction false} GateFollowsOperations(ops: seq<GateOp>, i: nat, j: nat)
    requires i <= j <= |ops|
    ensures At(NEW_GATE, ops, j).paused <==> !OpenAfter(ops, j)
    ensures |At(NEW_GATE, ops, i).closed| <= |At(NEW_GATE, ops, j).closed|
    ensures At(NEW_GATE, ops, j).closed[At(NEW_GATE, ops, i).Current()] <==>
      OpenAfter(ops, i) || exists k :: i <= k < j && ops[k] == ResumeOp
  {
    forall k | 0 <= k <= j ensures At(NEW_GATE, ops, k).paused <==> !OpenAfter(ops, k) {
      if k > 0 { OneStep(NEW_GATE, ops, k - 1); }
    }
    WaitReturnsIffGateWasOpen(NEW_GATE, ops, i, j);
    if k :| i <= k <= j && !At(NEW_GATE, ops, k).paused {
      assert OpenAfter(ops, k);
      if i < k { assert ops[k - 1] == ResumeOp; }
    }
    if k :| i <= k < j && ops[k] == ResumeOp { assert OpenAfter(ops, k + 1); }
  }

  /** A channel of the runtime; closing it twice would panic. */
  class Channel {
    var closed: bool

    constructor ()
      ensures !closed
    {
      closed := false;
    }

    method Close()
      requires !closed
      modifies this
      ensures closed
    {
      closed := true;
    }
  }

  datatype WaitOutcome = Passed | Cancelled | Blocked

  class Gate {
    var paused: bool
    var resumeCh: Channel
    ghost var generations: seq<Channel>  // every channel ever installed, oldest first

    ghost predicate Valid()
      reads this, generations
    {
      && |generations| > 0
      && resumeCh == generations[|generations| - 1]
      && (forall i, j :: 0 <= i < j < |generations| ==> generations[i] != generations[j])
      && View().Valid()
    }

    ghost function View(): GateState
      reads this, generations
    {
      GateState(paused, seq(|generations|, i requires 0 <= i < |generations| reads this, generations => generations[i].closed))
    }

    constructor ()
      ensures Valid() && View() == NEW_GATE
      ensures fresh(set c | c in generations)
    {
      var ch := new Channel();
      ch.Close();
      paused, resumeCh, generations := false, ch, [ch];
      new;
      assert View().closed == [true];
    }

    method Pause()
      requires Valid()
      modifies this
      ensures Valid() && View() == Apply(old(View()), PauseOp)
      ensures paused && !resumeCh.closed && (old(paused) <==> resumeCh == old(resumeCh))
      ensures forall c :: c in generations ==> c in old(generations) || fresh(c)
    {
      if !paused {
        paused := true;
        resumeCh := new Channel();
        generations := generations + [resumeCh];
        assert View().closed == old(View().closed) + [false];
      }
    }

    method Resume()
      requires Valid()
      modifies this, resumeCh
      ensures Valid() && View() == Apply(old(View()), ResumeOp)
      ensures !paused && resumeCh.closed && resumeCh == old(resumeCh)
      ensures generations == old(generations)
    {
      if paused {
        paused := false;
        resumeCh.Close();
        assert View().closed == old(View().closed)[|generations| - 1 := true];
      }
    }

    /** The locked half of `Wait`: fetch the current channel. */
    method WaitChannel() returns (ch: Channel)
      requires Valid()
      ensures ch == generations[View().Current()]
    {
      ch := resumeCh;
    }
  }

  /** The `select` of `Wait`: with both cases ready the runtime picks either. */
  method Select(ch: Channel, done: bool) returns (r: WaitOutcome)
    ensures r == Passed ==> ch.closed
    ensures r == Cancelled ==> done
    ensures r == Blocked <==> !ch.closed && !done
  {
    if ch.closed && done {
      if * { r := Passed; } else { r := Cancelled; }
    } else if ch.closed {
      r := Passed;
    } else if done {
      r := Cancelled;
    } else {
      r := Blocked;
    }
  }
}
