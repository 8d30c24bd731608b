/**
 * The routines of the older MotionManager as functions of the rig state. Its
 * phases command velocities (position left as is) and judge every reading by
 * whether it lies within 15 of a goal position.
 */
module MotionPhases {
  import opened Common
  import opened MyController
  import opened Rig
  import VelocityCurveGenerator

  // ---------------------------------------------------------------- readings near the goal

  /** The torques of the readings near the goal, in order. */
  function NearTorques(rs: seq<Reading>, goal: real): seq<real>
    decreases |rs|
  {
    if rs == [] then []
    else (if Near(rs[0].position, goal) then [rs[0].torque] else []) + NearTorques(rs[1..], goal)
  }

  /** A run of replies is its first reply followed by the run one further on. */
  lemma RepliesCons(o: Oracle, at: nat, n: nat)
    requires n > 0
    ensures Replies(o, at, n)[0] == o.reply(at)
    ensures Replies(o, at, n)[1..] == Replies(o, at + 1, n - 1)
  {
  }

  /** So its near torques are the first reply's, if near, then the rest's. */
  lemma NearTorquesCons(o: Oracle, at: nat, n: nat, goal: real)
    requires n > 0
    ensures NearTorques(Replies(o, at, n), goal) ==
            (if Near(o.reply(at).position, goal) then [o.reply(at).torque] else []) + NearTorques(Replies(o, at + 1, n - 1), goal)
  {
    RepliesCons(o, at, n);
  }

  /** Every near torque comes from one reading: there are never more than readings. */
  lemma {:induction false} NearTorquesBound(rs: seq<Reading>, goal: real)
    ensures |NearTorques(rs, goal)| <= |rs|
    decreases |rs|
  {
    if rs != [] {
      NearTorquesBound(rs[1..], goal);
    }
  }

  // ---------------------------------------------------------------- holds

  function HoldWrite(position: real): Command {
    Write(Val(position), Val(0.0))
  }

  /** holdPosition and holdPositionNanosleep: a timed hold that logs every tick's torque. */
  function HoldPosition(o: Oracle, w: World, position: real, duration: real): World {
    Repeat(o, w, HoldWrite(position), HoldTicks(duration), true)
  }

  /**
   * A hold sends one write per tick, consumes one reply per tick, appends
   * exactly one torque per tick (the reply's), and reads no switch.
   */
  lemma HoldPositionEffect(o: Oracle, w: World, position: real, duration: real)
    ensures var n := HoldTicks(duration);
            var w' := HoldPosition(o, w, position, duration);
            w'.sent == w.sent + Copies(HoldWrite(position), n) &&
            w'.replyAt == w.replyAt + n &&
            w'.torques == w.torques + TorquesFrom(o, w.replyAt, n) &&
            w'.homeAt == w.homeAt && w'.extendAt == w.extendAt
  {
  }

  /** holdPositionNan: write-only commands, which consume no reply and log nothing. */
  function HoldPositionNan(w: World, duration: real): World {
    w.(sent := w.sent + Copies(WriteOnly(Unchanged, Val(0.0)), HoldTicks(duration)))
  }

  // ---------------------------------------------------------------- sensed acceleration

  const AccelerationStallTorque := 0.5

  /** The velocity-mode write for one sample: position left as is. */
  function VelocityWrite(velocity: real): Command {
    Write(Unchanged, Val(velocity))
  }

  function VelocityWrites(vs: seq<real>): (cs: seq<Command>)
    ensures |cs| == |vs| && forall k :: 0 <= k < |vs| ==> cs[k] == VelocityWrite(vs[k])
  {
    seq(|vs|, k requires 0 <= k < |vs| => VelocityWrite(vs[k]))
  }

  /**
   * The sensed sweep of runAcceleration: one tick per velocity; a reading
   * near the goal logs its torque and then stops the sweep on a high torque or
   * on a pressed extend switch.
   */
  function VelocitySweep(o: Oracle, w: World, vs: seq<real>, goal: real): World
    decreases |vs|
  {
    if vs == [] then w
    else
      var r := NextReply(o, w);
      var w1 := Receive(Send(w, VelocityWrite(vs[0])));
      if !Near(r.position, goal) then VelocitySweep(o, w1, vs[1..], goal)
      else
        var w2 := Log(w1, r.torque);
        if r.torque >= AccelerationStallTorque then w2
        else if o.extend(w2.extendAt) == 0 then ReadExtend(w2)
        else VelocitySweep(o, ReadExtend(w2), vs[1..], goal)
  }

  /** runAcceleration: the sweep over the generated curve, returning the curve's last sample. */
  function RunAcceleration(o: Oracle, w: World, tanh: real -> real, startVelocity: real, endVelocity: real,
                           steps: int, goal: real): (World, real)
    requires steps > 0
  {
    var vs := VelocityCurveGenerator.Curve(tanh, startVelocity, endVelocity, steps);
    (VelocitySweep(o, w, vs, goal), vs[|vs| - 1])
  }

  /** Why a sweep stopped before its last velocity: a near reading with a high torque or a pressed switch. */
  predicate StoppedEarly(o: Oracle, r: Reading, goal: real, extendAt: nat) {
    Near(r.position, goal) && (r.torque >= AccelerationStallTorque || (extendAt > 0 && o.extend(extendAt - 1) == 0))
  }

  /**
   * What a sweep from `w` over `vs` that ended in `w'` did: it commanded a
   * prefix of the velocities in order, consuming one reply each; it logged
   * exactly the near torques of those replies and read no home switch; and
   * when it stopped short, the last reading was near the goal and either
   * stalled or found the extend switch pressed.
   */
  predicate SweptPrefix(o: Oracle, w: World, vs: seq<real>, goal: real, w': World) {
    w.replyAt <= w'.replyAt <= w.replyAt + |vs| &&
    var ticks := w'.replyAt - w.replyAt;
    (|vs| > 0 ==> ticks > 0) &&
    w'.sent == w.sent + VelocityWrites(vs[..ticks]) &&
    w'.torques == w.torques + NearTorques(Replies(o, w.replyAt, ticks), goal) &&
    w'.homeAt == w.homeAt && w.extendAt <= w'.extendAt &&
    (ticks < |vs| ==> StoppedEarly(o, o.reply(w'.replyAt - 1), goal, w'.extendAt))
  }

  /** One tick that did not stop the sweep, followed by a sweep of the rest, is a sweep of the whole. */
  lemma SweptPrefixStep(o: Oracle, w: World, vs: seq<real>, goal: real, w2: World, w': World)
    requires vs != []
    requires w2.sent == w.sent + [VelocityWrite(vs[0])] && w2.replyAt == w.replyAt + 1
    requires w2.homeAt == w.homeAt && w.extendAt <= w2.extendAt
    requires var r := o.reply(w.replyAt);
             w2.torques == w.torques + (if Near(r.position, goal) then [r.torque] else [])
    requires SweptPrefix(o, w2, vs[1..], goal, w')
    ensures SweptPrefix(o, w, vs, goal, w')
  {
    var ticks := w'.replyAt - w.replyAt;
    var r := o.reply(w.replyAt);
    VelocityWritesPrefixCons(vs, ticks);
    ConcatAssoc(w.sent, [VelocityWrite(vs[0])], VelocityWrites(vs[1..][..ticks - 1]));
    NearTorquesCons(o, w.replyAt, ticks, goal);
    ConcatAssoc(w.torques, if Near(r.position, goal) then [r.torque] else [], NearTorques(Replies(o, w.replyAt + 1, ticks - 1), goal));
  }

  /** The writes of a non-empty prefix: the first velocity's, then those of the rest's prefix. */
  lemma VelocityWritesPrefixCons(vs: seq<real>, n: nat)
    requires 0 < n <= |vs|
    ensures VelocityWrites(vs[..n]) == [VelocityWrite(vs[0])] + VelocityWrites(vs[1..][..n - 1])
  {
    assert vs[..n] == [vs[0]] + vs[1..][..n - 1];
  }

  lemma {:induction false} VelocitySweepEnds(o: Oracle, w: World, vs: seq<real>, goal: real)
    ensures SweptPrefix(o, w, vs, goal, VelocitySweep(o, w, vs, goal))
    decreases |vs|
  {
    if vs == [] {
      assert w.sent + VelocityWrites([]) == w.sent;
      assert w.torques + NearTorques(Replies(o, w.replyAt, 0), goal) == w.torques;
    } else {
      var r := NextReply(o, w);
      var w1 := Receive(Send(w, VelocityWrite(vs[0])));
      var w' := VelocitySweep(o, w, vs, goal);
      if Near(r.position, goal) && (r.torque >= AccelerationStallTorque || o.extend(w.extendAt) == 0) {
        assert vs[..1] == [vs[0]];
        NearTorquesCons(o, w.replyAt, 1, goal);
      } else {
        var w2 := if Near(r.position, goal) then ReadExtend(Log(w1, r.torque)) else w1;
        VelocitySweepEnds(o, w2, vs[1..], goal);
        assert w' == VelocitySweep(o, w2, vs[1..], goal);
        SweptPrefixStep(o, w, vs, goal, w2, w');
      }
    }
  }

  /** Whatever the sweep did, runAcceleration returns start + tanh(2) * (end - start). */
  lemma RunAccelerationResult(o: Oracle, w: World, tanh: real -> real, startVelocity: real, endVelocity: real,
                              steps: int, goal: real)
    requires steps > 0
    ensures RunAcceleration(o, w, tanh, startVelocity, endVelocity, steps, goal).1 ==
            startVelocity + tanh(2.0) * (endVelocity - startVelocity)
  {
    VelocityCurveGenerator.CurveLength(tanh, startVelocity, endVelocity, steps);
    VelocityCurveGenerator.CurveLast(tanh, startVelocity, endVelocity, steps);
  }

  // ---------------------------------------------------------------- stable velocity

  const StableStallTorque := 0.8

  /**
   * maintainStableVelocity over at most `fuel` ticks: the same velocity every
   * tick; a reading near the goal logs its torque and ends the loop on a high
   * torque, on reaching the goal, or on a pressed extend switch.
   */
  function StableLoop(o: Oracle, w: World, velocity: real, goal: real, fuel: nat): (World, Option<real>)
    decreases fuel
  {
    if fuel == 0 then (w, None)
    else
      var r := NextReply(o, w);
      var w1 := Receive(Send(w, VelocityWrite(velocity)));
      if !Near(r.position, goal) then StableLoop(o, w1, velocity, goal, fuel - 1)
      else
        var w2 := Log(w1, r.torque);
        if r.torque >= StableStallTorque || r.position <= goal then (w2, Some(r.position))
        else if o.extend(w2.extendAt) == 0 then (ReadExtend(w2), Some(r.position))
        else StableLoop(o, ReadExtend(w2), velocity, goal, fuel - 1)
  }

  /** Every run of the stable-velocity loop is described by StablyRan. */
  lemma {:induction false} StableLoopEnds(o: Oracle, w: World, velocity: real, goal: real, fuel: nat)
    ensures StablyRan(o, w, velocity, goal, fuel, StableLoop(o, w, velocity, goal, fuel).0, StableLoop(o, w, velocity, goal, fuel).1)
    decreases fuel
  {
    if fuel == 0 {
      assert w.sent + Copies(VelocityWrite(velocity), 0) == w.sent;
      assert w.torques + NearTorques(Replies(o, w.replyAt, 0), goal) == w.torques;
    } else {
      var r := NextReply(o, w);
      var w1 := Receive(Send(w, VelocityWrite(velocity)));
      if Near(r.position, goal) && (Halts(r, goal) || o.extend(w.extendAt) == 0) {
        StableLoopStops(o, w, velocity, goal, fuel);
      } else {
        var w2 := if Near(r.position, goal) then ReadExtend(Log(w1, r.torque)) else w1;
        StableLoopEnds(o, w2, velocity, goal, fuel - 1);
        assert StableLoop(o, w, velocity, goal, fuel) == StableLoop(o, w2, velocity, goal, fuel - 1);
        StablyRanStep(o, w, velocity, goal, fuel, w2, StableLoop(o, w2, velocity, goal, fuel - 1).0, StableLoop(o, w2, velocity, goal, fuel - 1).1);
      }
    }
  }

  /** A first reading near the goal that halts, or meets an extend read of 0, ends the run after one tick. */
  lemma StableLoopStops(o: Oracle, w: World, velocity: real, goal: real, fuel: nat)
    requires fuel > 0
    requires var r := NextReply(o, w); Near(r.position, goal) && (Halts(r, goal) || o.extend(w.extendAt) == 0)
    ensures StablyRan(o, w, velocity, goal, fuel, StableLoop(o, w, velocity, goal, fuel).0, StableLoop(o, w, velocity, goal, fuel).1)
  {
    NearTorquesCons(o, w.replyAt, 1, goal);
    assert Copies(VelocityWrite(velocity), 1) == [VelocityWrite(velocity)];
    assert NearTorques(Replies(o, w.replyAt, 0), goal) == [];
  }

  /**
   * What a stable-velocity run from `w` of at most `fuel` ticks that ended in
   * `w'` with `result` did: it sent only the one velocity command and read no
   * home switch; it logged the near torques of the replies it consumed; a
   * returned position is the last reading's and lies within 15 of the goal;
   * only an exhausted bound returns nothing; the extend switch was read as
   * StableReads says.
   */
  predicate StablyRan(o: Oracle, w: World, velocity: real, goal: real, fuel: nat, w': World, result: Option<real>) {
    w.replyAt <= w'.replyAt <= w.replyAt + fuel &&
    var ticks := w'.replyAt - w.replyAt;
    w'.sent == w.sent + Copies(VelocityWrite(velocity), ticks) &&
    w'.torques == w.torques + NearTorques(Replies(o, w.replyAt, ticks), goal) &&
    w'.homeAt == w.homeAt && w.extendAt <= w'.extendAt &&
    (result.None? ==> ticks == fuel) &&
    (result.Some? ==> ticks > 0 && result == Some(o.reply(w'.replyAt - 1).position) && Near(result.value, goal)) &&
    StableReads(o, w, goal, w', result)
  }

  /** A near reading that ends the loop before the extend switch is read: a high torque, or the goal reached. */
  predicate Halts(r: Reading, goal: real) {
    r.torque >= StableStallTorque || r.position <= goal
  }

  /** The run ended on a near reading that did not halt by itself, so on an extend read of 0. */
  predicate StoppedByExtend(o: Oracle, w: World, goal: real, w': World, result: Option<real>) {
    result.Some? && w'.replyAt > w.replyAt && !Halts(o.reply(w'.replyAt - 1), goal)
  }

  /**
   * Why the stable-velocity loop went on and why it stopped: every near
   * reading before the last one neither halted nor met a pressed extend
   * switch; the extend switch was read once per such reading, and once more
   * when the last reading did not halt, in which case that read was 0 and
   * the earlier ones were all nonzero. So a returned position had a torque
   * of at least 0.8, had reached the goal, or met an extend read of 0.
   */
  predicate StableReads(o: Oracle, w: World, goal: real, w': World, result: Option<real>) {
    w.replyAt <= w'.replyAt && w.extendAt <= w'.extendAt &&
    var ticks := w'.replyAt - w.replyAt;
    var passed := if result.Some? && ticks > 0 then ticks - 1 else ticks;
    var byExtend := StoppedByExtend(o, w, goal, w', result);
    (forall k :: w.replyAt <= k < w.replyAt + passed && Near(o.reply(k).position, goal) ==> !Halts(o.reply(k), goal)) &&
    w'.extendAt - w.extendAt == |NearTorques(Replies(o, w.replyAt, passed), goal)| + (if byExtend then 1 else 0) &&
    (byExtend ==> o.extend(w'.extendAt - 1) == 0) &&
    AllNonZero(Values(o.extend, w.extendAt, w'.extendAt - w.extendAt - (if byExtend then 1 else 0)))
  }

  /** A tick that did not end the run keeps StableReads of the rest true of the whole. */
  lemma StableReadsStep(o: Oracle, w: World, goal: real, w2: World, w': World, result: Option<real>)
    requires w2.replyAt == w.replyAt + 1
    requires var r := o.reply(w.replyAt);
             w2.extendAt == w.extendAt + (if Near(r.position, goal) then 1 else 0) &&
             (Near(r.position, goal) ==> !Halts(r, goal) && o.extend(w.extendAt) != 0)
    requires result.Some? ==> w'.replyAt > w2.replyAt
    requires StableReads(o, w2, goal, w', result)
    ensures StableReads(o, w, goal, w', result)
  {
    var r := o.reply(w.replyAt);
    var ticks := w'.replyAt - w.replyAt;
    var passed := if result.Some? && ticks > 0 then ticks - 1 else ticks;
    var byExtend := StoppedByExtend(o, w, goal, w', result);
    assert byExtend == StoppedByExtend(o, w2, goal, w', result);
    forall k | w.replyAt <= k < w.replyAt + passed && Near(o.reply(k).position, goal) ensures !Halts(o.reply(k), goal) {
    }
    NearTorquesCons(o, w.replyAt, passed, goal);
    assert |NearTorques(Replies(o, w.replyAt, passed), goal)| ==
           (if Near(r.position, goal) then 1 else 0) + |NearTorques(Replies(o, w2.replyAt, passed - 1), goal)|;
    var n := w'.extendAt - w.extendAt - (if byExtend then 1 else 0);
    if Near(r.position, goal) {
      ValuesCons(o.extend, w.extendAt, n);
      assert AllNonZero(Values(o.extend, w.extendAt, n));
    } else {
      assert Values(o.extend, w.extendAt, n) == Values(o.extend, w2.extendAt, n);
    }
  }

  /** One tick that did not end the run, followed by a run of the rest, is a run of the whole. */
  lemma StablyRanStep(o: Oracle, w: World, velocity: real, goal: real, fuel: nat, w2: World, w': World, result: Option<real>)
    requires fuel > 0
    requires w2.sent == w.sent + [VelocityWrite(velocity)] && w2.replyAt == w.replyAt + 1
    requires w2.homeAt == w.homeAt
    requires var r := o.reply(w.replyAt);
             w2.torques == w.torques + (if Near(r.position, goal) then [r.torque] else []) &&
             w2.extendAt == w.extendAt + (if Near(r.position, goal) then 1 else 0) &&
             (Near(r.position, goal) ==> !Halts(r, goal) && o.extend(w.extendAt) != 0)
    requires StablyRan(o, w2, velocity, goal, fuel - 1, w', result)
    ensures StablyRan(o, w, velocity, goal, fuel, w', result)
  {
    StableReadsStep(o, w, goal, w2, w', result);
    var ticks := w'.replyAt - w.replyAt;
    var r := o.reply(w.replyAt);
    CopiesCons(VelocityWrite(velocity), ticks);
    ConcatAssoc(w.sent, [VelocityWrite(velocity)], Copies(VelocityWrite(velocity), ticks - 1));
    NearTorquesCons(o, w.replyAt, ticks, goal);
    ConcatAssoc(w.torques, if Near(r.position, goal) then [r.torque] else [], NearTorques(Replies(o, w.replyAt + 1, ticks - 1), goal));
  }

  // ---------------------------------------------------------------- queries

  /** getInitialPosition: three queries, of which only the third reading is kept. */
  function InitialPosition(o: Oracle, w: World): (World, real) {
    (Repeat(o, w, Query, 3, false), o.reply(w.replyAt + 2).position)
  }

  /** The three queries are sent back to back and consume three replies; nothing is logged. */
  lemma InitialPositionEffect(o: Oracle, w: World)
    ensures InitialPosition(o, w).0 == w.(sent := w.sent + [Query, Query, Query], replyAt := w.replyAt + 3)
  {
    assert Copies(Query, 3) == [Query, Query, Query];
    assert w.torques + [] == w.torques;
  }

  // ---------------------------------------------------------------- homing without the home switch at every tick

  const BlindHomingVelocity := 4.5
  const BlindWarmup := 13
  const BlindStallTorque := 0.05
  const BlindBackoffTicks := 100

  /** The backoff after a stall: 100 ticks in reverse, each logging its torque. */
  function BlindBackoff(o: Oracle, w: World): World {
    Repeat(o, w, VelocityWrite(-BlindHomingVelocity), BlindBackoffTicks, true)
  }

  /**
   * homingNanosleep over at most `fuel` ticks. A reading within 15 of the
   * initial position logs its torque; past the warm-up a torque of at least
   * 0.05 is a stall (backoff, Stalled); otherwise the home switch is read and
   * a pressed switch ends the run (Finished). Far readings read no switch.
   */
  function BlindHomingLoop(o: Oracle, w: World, initial: real, index: nat, fuel: nat): (World, Outcome)
    decreases fuel
  {
    if fuel == 0 then (w, OutOfFuel)
    else
      var r := NextReply(o, w);
      var w1 := Receive(Send(w, VelocityWrite(BlindHomingVelocity)));
      if !Near(r.position, initial) then BlindHomingLoop(o, w1, initial, index + 1, fuel - 1)
      else
        var w2 := Log(w1, r.torque);
        if index + 1 > BlindWarmup && r.torque >= BlindStallTorque then (BlindBackoff(o, w2), Stalled)
        else if o.home(w2.homeAt) == 0 then (ReadHome(w2), Finished)
        else BlindHomingLoop(o, ReadHome(w2), initial, index + 1, fuel - 1)
  }

  function HomingNanosleep(o: Oracle, w: World, initial: real, fuel: nat): (World, Outcome) {
    BlindHomingLoop(o, w, initial, 0, fuel)
  }

  /** The backoff commands a blind homing run that ended with `outcome` sent. */
  function BlindBurst(outcome: Outcome): nat {
    if outcome == Stalled then BlindBackoffTicks else 0
  }

  /**
   * What a blind homing run from `w` (tick `index`, bound `fuel`) that ended
   * in `w'` with `outcome` did. It sent `ticks` forward commands, then the
   * 100 backoff commands if it stalled. It logged the near torques of the
   * forward replies, then every backoff torque. It never read the extend
   * switch. It read the home switch once per near reading, except for a
   * stalling one. Every home value was nonzero but a Finished run's last. A
   * stall happened past the warm-up, on a near reading with a high torque.
   */
  predicate BlindHomed(o: Oracle, w: World, initial: real, index: nat, fuel: nat, w': World, outcome: Outcome) {
    BlindCommands(w, fuel, w', outcome) && BlindLogged(o, w, initial, w', outcome) &&
    BlindSwitches(o, w, initial, w', outcome) && BlindStallCause(o, w, initial, index, w', outcome)
  }

  /** The forward commands, at most one per unit of fuel, and the backoff after a stall. */
  predicate BlindCommands(w: World, fuel: nat, w': World, outcome: Outcome) {
    var burst := BlindBurst(outcome);
    w.replyAt + burst <= w'.replyAt &&
    var ticks := w'.replyAt - w.replyAt - burst;
    ticks <= fuel && (outcome == OutOfFuel ==> ticks == fuel) &&
    w'.sent == w.sent + Copies(VelocityWrite(BlindHomingVelocity), ticks) + Copies(VelocityWrite(-BlindHomingVelocity), burst)
  }

  /** The near torques of the forward replies, then every backoff torque. */
  predicate BlindLogged(o: Oracle, w: World, initial: real, w': World, outcome: Outcome) {
    var burst := BlindBurst(outcome);
    w.replyAt + burst <= w'.replyAt &&
    var ticks := w'.replyAt - w.replyAt - burst;
    w'.torques == w.torques + NearTorques(Replies(o, w.replyAt, ticks), initial) + TorquesFrom(o, w.replyAt + ticks, burst)
  }

  /** The switch reads: none of extend, one home read per near reading but a stalling one. */
  predicate BlindSwitches(o: Oracle, w: World, initial: real, w': World, outcome: Outcome) {
    var burst := BlindBurst(outcome);
    w.replyAt + burst <= w'.replyAt &&
    var ticks := w'.replyAt - w.replyAt - burst;
    w'.extendAt == w.extendAt &&
    w.homeAt <= w'.homeAt &&
    w'.homeAt - w.homeAt + (if outcome == Stalled then 1 else 0) == |NearTorques(Replies(o, w.replyAt, ticks), initial)| &&
    (outcome == Finished ==> w'.homeAt > w.homeAt && o.home(w'.homeAt - 1) == 0) &&
    AllNonZero(Values(o.home, w.homeAt, w'.homeAt - w.homeAt - (if outcome == Finished then 1 else 0)))
  }

  /** A stall happened past the warm-up, on a near reading with a high torque. */
  predicate BlindStallCause(o: Oracle, w: World, initial: real, index: nat, w': World, outcome: Outcome) {
    var burst := BlindBurst(outcome);
    w.replyAt + burst <= w'.replyAt &&
    var ticks := w'.replyAt - w.replyAt - burst;
    outcome == Stalled ==> ticks > 0 && index + ticks > BlindWarmup &&
                           Near(o.reply(w.replyAt + ticks - 1).position, initial) &&
                           o.reply(w.replyAt + ticks - 1).torque >= BlindStallTorque
  }

  lemma ValuesCons(f: nat -> int, at: nat, n: nat)
    requires n > 0
    ensures Values(f, at, n)[0] == f(at) && Values(f, at, n)[1..] == Values(f, at + 1, n - 1)
  {
  }

  /** A stall on the first tick: one forward command, then the backoff. */
  lemma BlindHomedStall(o: Oracle, w: World, initial: real, index: nat, fuel: nat)
    requires fuel > 0
    requires var r := NextReply(o, w); Near(r.position, initial) && index + 1 > BlindWarmup && r.torque >= BlindStallTorque
    ensures var r := NextReply(o, w);
            BlindHomed(o, w, initial, index, fuel, BlindBackoff(o, Log(Receive(Send(w, VelocityWrite(BlindHomingVelocity))), r.torque)), Stalled)
  {
    var r := NextReply(o, w);
    var w2 := Log(Receive(Send(w, VelocityWrite(BlindHomingVelocity))), r.torque);
    BlindStalledAfterOne(o, w, initial, index, fuel, BlindBackoff(o, w2));
  }

  /** The state after one stalling forward tick and the backoff is a Stalled run. */
  lemma BlindStalledAfterOne(o: Oracle, w: World, initial: real, index: nat, fuel: nat, w': World)
    requires fuel > 0
    requires var r := o.reply(w.replyAt); Near(r.position, initial) && index + 1 > BlindWarmup && r.torque >= BlindStallTorque
    requires w'.sent == (w.sent + [VelocityWrite(BlindHomingVelocity)]) + Copies(VelocityWrite(-BlindHomingVelocity), BlindBackoffTicks)
    requires w'.replyAt == w.replyAt + 1 + BlindBackoffTicks
    requires w'.torques == (w.torques + [o.reply(w.replyAt).torque]) + TorquesFrom(o, w.replyAt + 1, BlindBackoffTicks)
    requires w'.homeAt == w.homeAt && w'.extendAt == w.extendAt
    ensures BlindHomed(o, w, initial, index, fuel, w', Stalled)
  {
    assert Copies(VelocityWrite(BlindHomingVelocity), 1) == [VelocityWrite(BlindHomingVelocity)];
    assert BlindCommands(w, fuel, w', Stalled);
    NearTorquesCons(o, w.replyAt, 1, initial);
    assert NearTorques(Replies(o, w.replyAt, 1), initial) == [o.reply(w.replyAt).torque];
    assert BlindLogged(o, w, initial, w', Stalled);
    assert Values(o.home, w.homeAt, 0) == [];
  }

  /** A pressed home switch on the first tick. */
  lemma BlindHomedHome(o: Oracle, w: World, initial: real, index: nat, fuel: nat)
    requires fuel > 0
    requires var r := NextReply(o, w); Near(r.position, initial) && o.home(w.homeAt) == 0
    ensures var r := NextReply(o, w);
            BlindHomed(o, w, initial, index, fuel, ReadHome(Log(Receive(Send(w, VelocityWrite(BlindHomingVelocity))), r.torque)), Finished)
  {
    var r := NextReply(o, w);
    assert Copies(VelocityWrite(BlindHomingVelocity), 1) == [VelocityWrite(BlindHomingVelocity)];
    assert Copies(VelocityWrite(-BlindHomingVelocity), 0) == [];
    assert TorquesFrom(o, w.replyAt + 1, 0) == [];
    NearTorquesCons(o, w.replyAt, 1, initial);
    assert NearTorques(Replies(o, w.replyAt, 1), initial) == [r.torque];
    assert Values(o.home, w.homeAt, 0) == [];
  }

  /** The requirements on one tick that did not end a blind homing run. */
  predicate BlindTick(o: Oracle, w: World, initial: real, w2: World) {
    var r := o.reply(w.replyAt);
    w2.sent == w.sent + [VelocityWrite(BlindHomingVelocity)] && w2.replyAt == w.replyAt + 1 &&
    w2.extendAt == w.extendAt &&
    w2.torques == w.torques + (if Near(r.position, initial) then [r.torque] else []) &&
    w2.homeAt == w.homeAt + (if Near(r.position, initial) then 1 else 0) &&
    (Near(r.position, initial) ==> o.home(w.homeAt) != 0)
  }

  lemma BlindCommandsStep(o: Oracle, w: World, initial: real, fuel: nat, w2: World, w': World, outcome: Outcome)
    requires fuel > 0 && BlindTick(o, w, initial, w2)
    requires BlindCommands(w2, fuel - 1, w', outcome)
    ensures BlindCommands(w, fuel, w', outcome)
  {
    var ticks := w'.replyAt - w.replyAt - BlindBurst(outcome);
    var forward := VelocityWrite(BlindHomingVelocity);
    CopiesCons(forward, ticks);
    ConcatAssoc(w.sent, [forward], Copies(forward, ticks - 1));
  }

  lemma BlindLoggedStep(o: Oracle, w: World, initial: real, w2: World, w': World, outcome: Outcome)
    requires BlindTick(o, w, initial, w2)
    requires BlindLogged(o, w2, initial, w', outcome)
    ensures BlindLogged(o, w, initial, w', outcome)
  {
    var r := o.reply(w.replyAt);
    var ticks := w'.replyAt - w.replyAt - BlindBurst(outcome);
    var head := if Near(r.position, initial) then [r.torque] else [];
    NearTorquesCons(o, w.replyAt, ticks, initial);
    ConcatAssoc(w.torques, head, NearTorques(Replies(o, w.replyAt + 1, ticks - 1), initial));
  }

  lemma BlindSwitchesStep(o: Oracle, w: World, initial: real, w2: World, w': World, outcome: Outcome)
    requires BlindTick(o, w, initial, w2)
    requires BlindSwitches(o, w2, initial, w', outcome)
    ensures BlindSwitches(o, w, initial, w', outcome)
  {
    var r := o.reply(w.replyAt);
    var ticks := w'.replyAt - w.replyAt - BlindBurst(outcome);
    NearTorquesCons(o, w.replyAt, ticks, initial);
    var n := w'.homeAt - w.homeAt - (if outcome == Finished then 1 else 0);
    if Near(r.position, initial) && n > 0 {
      ValuesCons(o.home, w.homeAt, n);
    }
    if !Near(r.position, initial) {
      assert Values(o.home, w.homeAt, n) == Values(o.home, w2.homeAt, n);
    }
  }

  /** One tick that did not end the run, followed by a run of the rest, is a run of the whole. */
  lemma BlindHomedStep(o: Oracle, w: World, initial: real, index: nat, fuel: nat, w2: World, w': World, outcome: Outcome)
    requires fuel > 0 && BlindTick(o, w, initial, w2)
    requires BlindHomed(o, w2, initial, index + 1, fuel - 1, w', outcome)
    ensures BlindHomed(o, w, initial, index, fuel, w', outcome)
  {
    BlindCommandsStep(o, w, initial, fuel, w2, w', outcome);
    BlindLoggedStep(o, w, initial, w2, w', outcome);
    BlindSwitchesStep(o, w, initial, w2, w', outcome);
  }

  lemma {:induction false} BlindHomingLoopEnds(o: Oracle, w: World, initial: real, index: nat, fuel: nat)
    ensures var (w', outcome) := BlindHomingLoop(o, w, initial, index, fuel);
            BlindHomed(o, w, initial, index, fuel, w', outcome)
    decreases fuel
  {
    if fuel == 0 {
      assert w.sent + Copies(VelocityWrite(BlindHomingVelocity), 0) + Copies(VelocityWrite(-BlindHomingVelocity), 0) == w.sent;
      assert w.torques + NearTorques(Replies(o, w.replyAt, 0), initial) + TorquesFrom(o, w.replyAt, 0) == w.torques;
      assert Values(o.home, w.homeAt, 0) == [];
    } else {
      var r := NextReply(o, w);
      var w1 := Receive(Send(w, VelocityWrite(BlindHomingVelocity)));
      if Near(r.position, initial) && index + 1 > BlindWarmup && r.torque >= BlindStallTorque {
        BlindHomedStall(o, w, initial, index, fuel);
      } else if Near(r.position, initial) && o.home(w.homeAt) == 0 {
        BlindHomedHome(o, w, initial, index, fuel);
      } else {
        var w2 := if Near(r.position, initial) then ReadHome(Log(w1, r.torque)) else w1;
        BlindHomingLoopEnds(o, w2, initial, index + 1, fuel - 1);
        var (w', outcome) := BlindHomingLoop(o, w2, initial, index + 1, fuel - 1);
        assert BlindHomingLoop(o, w, initial, index, fuel) == (w', outcome);
        BlindHomedStep(o, w, initial, index, fuel, w2, w', outcome);
      }
    }
  }

  /** Within the first 13 ticks no torque counts as a stall. */
  lemma BlindHomingWarmup(o: Oracle, w: World, initial: real, fuel: nat)
    requires fuel <= BlindWarmup
    ensures HomingNanosleep(o, w, initial, fuel).1 != Stalled
  {
    BlindHomingLoopEnds(o, w, initial, 0, fuel);
  }
}
