/**
 * The motion phases of PositionManager as functions of the rig state: what each
 * phase sends, which replies and switch values it consumes, what it logs and
 * where it leaves the commanded and current positions.
 */
module PositionPhases {
  import opened Common
  import opened MyController
  import opened Rig

  /** The rig state after a phase, with the commanded and current positions the phase leaves. */
  datatype Motion = Motion(world: World, commanded: real, current: real)

  /** The position every stall recovery, homing run and extension restarts from. */
  const RestPosition := 500.0

  // ---------------------------------------------------------------- replies

  /** The torques of the readings whose position is in the valid window, in order. */
  function WindowTorques(rs: seq<Reading>): seq<real>
    decreases |rs|
  {
    if rs == [] then []
    else (if InWindow(rs[0].position) then [rs[0].torque] else []) + WindowTorques(rs[1..])
  }

  /** The current position after a run of readings: only in-window readings overwrite it. */
  function LastInWindow(rs: seq<Reading>, current: real): real
    decreases |rs|
  {
    if rs == [] then current
    else LastInWindow(rs[1..], if InWindow(rs[0].position) then rs[0].position else current)
  }

  /** With no in-window reading the current position is left alone. */
  lemma {:induction false} LastInWindowUnchanged(rs: seq<Reading>, current: real)
    requires forall k :: 0 <= k < |rs| ==> !InWindow(rs[k].position)
    ensures LastInWindow(rs, current) == current
    decreases |rs|
  {
    if rs != [] {
      LastInWindowUnchanged(rs[1..], current);
    }
  }

  /** Otherwise it is the position of the last in-window reading. */
  lemma {:induction false} LastInWindowIsLast(rs: seq<Reading>, current: real, j: nat)
    requires j < |rs| && InWindow(rs[j].position)
    requires forall k :: j < k < |rs| ==> !InWindow(rs[k].position)
    ensures LastInWindow(rs, current) == rs[j].position
    decreases |rs|
  {
    if j == 0 {
      LastInWindowUnchanged(rs[1..], rs[0].position);
    } else {
      LastInWindowIsLast(rs[1..], if InWindow(rs[0].position) then rs[0].position else current, j - 1);
    }
  }

  /** What the gate does for the whole run: the result is the old position or some in-window reading. */
  lemma {:induction false} LastInWindowGate(rs: seq<Reading>, current: real)
    ensures LastInWindow(rs, current) == current ||
            exists k :: 0 <= k < |rs| && InWindow(rs[k].position) && LastInWindow(rs, current) == rs[k].position
    decreases |rs|
  {
    if rs != [] {
      var next := if InWindow(rs[0].position) then rs[0].position else current;
      LastInWindowGate(rs[1..], next);
      if LastInWindow(rs[1..], next) != next {
        var k :| 0 <= k < |rs[1..]| && InWindow(rs[1..][k].position) && LastInWindow(rs[1..], next) == rs[1..][k].position;
        assert rs[k + 1] == rs[1..][k];
      }
    }
  }

  /** The logged torques are exactly those of the in-window readings: one per reading, none for the others. */
  lemma {:induction false} WindowTorquesCount(rs: seq<Reading>)
    ensures |WindowTorques(rs)| <= |rs|
    ensures (forall k :: 0 <= k < |rs| ==> !InWindow(rs[k].position)) ==> WindowTorques(rs) == []
    ensures (forall k :: 0 <= k < |rs| ==> InWindow(rs[k].position)) ==>
              WindowTorques(rs) == seq(|rs|, k requires 0 <= k < |rs| => rs[k].torque)
    decreases |rs|
  {
    if rs != [] {
      WindowTorquesCount(rs[1..]);
      if forall k :: 0 <= k < |rs| ==> InWindow(rs[k].position) {
        assert forall k :: 0 <= k < |rs[1..]| ==> InWindow(rs[1..][k].position) by {
          forall k | 0 <= k < |rs[1..]| ensures InWindow(rs[1..][k].position) {
            assert rs[1..][k] == rs[k + 1];
          }
        }
      }
    }
  }

  // ---------------------------------------------------------------- acceleration

  /**
   * The waypoints of an acceleration ramp: `steps + 1` entries from `start`,
   * the velocity growing by `perStep` each entry and each entry the previous
   * one plus the velocity.
   */
  function AccelPositions(start: real, perStep: real, steps: nat): (ps: seq<real>)
    ensures |ps| == steps + 1 && ps[0] == start
    decreases steps
  {
    if steps == 0 then [start]
    else
      var prev := AccelPositions(start, perStep, steps - 1);
      prev + [prev[steps - 1] + steps as real * perStep]
  }

  /** One more step appends the previous waypoint plus the step's velocity. */
  lemma AccelPositionsSnoc(start: real, perStep: real, steps: nat)
    requires steps > 0
    ensures AccelPositions(start, perStep, steps) ==
            AccelPositions(start, perStep, steps - 1) + [AccelPositions(start, perStep, steps - 1)[steps - 1] + steps as real * perStep]
  {
  }

  /** A shorter ramp is a prefix of a longer one. */
  lemma {:induction false} AccelPositionsPrefix(start: real, perStep: real, k: nat, steps: nat)
    requires k <= steps
    ensures AccelPositions(start, perStep, steps)[..k + 1] == AccelPositions(start, perStep, k)
    decreases steps
  {
    if k < steps {
      AccelPositionsPrefix(start, perStep, k, steps - 1);
      var ps := AccelPositions(start, perStep, steps);
      assert ps[..steps] == AccelPositions(start, perStep, steps - 1);
      assert ps[..k + 1] == ps[..steps][..k + 1];
    }
  }

  /**
   * Entry i is entry i - 1 plus the i-th velocity i * perStep, and in closed
   * form twice the distance from the start is perStep * i * (i + 1).
   */
  lemma {:induction false} AccelPositionsShape(start: real, perStep: real, steps: nat, i: nat)
    requires i <= steps
    ensures 0 < i ==> AccelPositions(start, perStep, steps)[i] ==
                      AccelPositions(start, perStep, steps)[i - 1] + i as real * perStep
    ensures 2.0 * (AccelPositions(start, perStep, steps)[i] - start) == perStep * (i * (i + 1)) as real
    decreases i
  {
    var ps := AccelPositions(start, perStep, steps);
    AccelPositionsPrefix(start, perStep, i, steps);
    assert ps[i] == ps[..i + 1][i];
    if 0 < i {
      AccelPositionsPrefix(start, perStep, i - 1, steps);
      assert ps[i - 1] == ps[..i][i - 1];
      assert ps[..i] == AccelPositions(start, perStep, i - 1);
      AccelPositionsShape(start, perStep, steps, i - 1);
      TriangleStep(ps[i - 1], ps[i], start, perStep, i);
    }
  }

  /** The closed form carries over one step: i * (i + 1) = (i - 1) * i + 2 * i. */
  lemma TriangleStep(prev: real, next: real, start: real, perStep: real, i: nat)
    requires 0 < i && next == prev + i as real * perStep
    requires 2.0 * (prev - start) == perStep * ((i - 1) * i) as real
    ensures 2.0 * (next - start) == perStep * (i * (i + 1)) as real
  {
    assert (i * (i + 1)) as real == ((i - 1) * i) as real + 2.0 * i as real;
  }

  /** The velocity added per acceleration step; a ramp of no steps never uses it. */
  function AccelPerStep(maxSpeed: real, steps: nat, forward: bool): (a: real)
    ensures steps > 0 ==> a * steps as real == (if forward then -maxSpeed else maxSpeed)
  {
    if steps == 0 then 0.0 else (if forward then -maxSpeed else maxSpeed) / steps as real
  }

  /** The write commands of position mode for a run of waypoints, velocity left as is. */
  function PositionWrites(ps: seq<real>): (cs: seq<Command>)
    ensures |cs| == |ps| && forall k :: 0 <= k < |ps| ==> cs[k] == Write(Val(ps[k]), Unchanged)
  {
    seq(|ps|, k requires 0 <= k < |ps| => Write(Val(ps[k]), Unchanged))
  }

  /**
   * Command each waypoint in turn, read the reply, and take its position as
   * the current one only when it is in the window; optionally log the torque
   * of every in-window reply.
   */
  function Sweep(o: Oracle, w: World, ps: seq<real>, current: real, logTorque: bool): (World, real)
    decreases |ps|
  {
    if ps == [] then (w, current)
    else
      var r := NextReply(o, w);
      var w1 := Receive(Send(w, Write(Val(ps[0]), Unchanged)));
      if InWindow(r.position) then Sweep(o, if logTorque then Log(w1, r.torque) else w1, ps[1..], r.position, logTorque)
      else Sweep(o, w1, ps[1..], current, logTorque)
  }

  /**
   * A sweep sends one write per waypoint, consumes one reply per waypoint,
   * reads no switch, and logs the in-window torques (or nothing) ...
   */
  lemma {:induction false} SweepWorld(o: Oracle, w: World, ps: seq<real>, current: real, logTorque: bool)
    ensures Sweep(o, w, ps, current, logTorque).0 ==
            w.(sent := w.sent + PositionWrites(ps), replyAt := w.replyAt + |ps|,
               torques := w.torques + (if logTorque then WindowTorques(Replies(o, w.replyAt, |ps|)) else []))
    decreases |ps|
  {
    if ps == [] {
      assert w.sent + PositionWrites(ps) == w.sent;
    } else {
      var r := NextReply(o, w);
      var w1 := Receive(Send(w, Write(Val(ps[0]), Unchanged)));
      var w2 := if InWindow(r.position) && logTorque then Log(w1, r.torque) else w1;
      var next := if InWindow(r.position) then r.position else current;
      assert Sweep(o, w, ps, current, logTorque) == Sweep(o, w2, ps[1..], next, logTorque);
      SweepWorld(o, w2, ps[1..], next, logTorque);
      PositionWritesCons(ps);
      ConcatAssoc(w.sent, [Write(Val(ps[0]), Unchanged)], PositionWrites(ps[1..]));
      if logTorque {
        var head := if InWindow(r.position) then [r.torque] else [];
        WindowTorquesCons(o, w.replyAt, |ps|);
        assert w2.torques == w.torques + head;
        ConcatAssoc(w.torques, head, WindowTorques(Replies(o, w.replyAt + 1, |ps| - 1)));
      }
    }
  }

  lemma PositionWritesCons(ps: seq<real>)
    requires ps != []
    ensures PositionWrites(ps) == [Write(Val(ps[0]), Unchanged)] + PositionWrites(ps[1..])
  {
  }

  /** The window torques of a run of replies: the first reply's, if in window, then the rest's. */
  lemma WindowTorquesCons(o: Oracle, at: nat, n: nat)
    requires n > 0
    ensures WindowTorques(Replies(o, at, n)) ==
            (if InWindow(o.reply(at).position) then [o.reply(at).torque] else []) + WindowTorques(Replies(o, at + 1, n - 1))
  {
    assert Replies(o, at, n)[1..] == Replies(o, at + 1, n - 1);
  }

  /** ... and leaves the current position at the last in-window reading. */
  lemma {:induction false} SweepCurrent(o: Oracle, w: World, ps: seq<real>, current: real, logTorque: bool)
    ensures Sweep(o, w, ps, current, logTorque).1 == LastInWindow(Replies(o, w.replyAt, |ps|), current)
    decreases |ps|
  {
    if ps != [] {
      var rs := Replies(o, w.replyAt, |ps|);
      var r := NextReply(o, w);
      var w1 := Receive(Send(w, Write(Val(ps[0]), Unchanged)));
      var w2 := if InWindow(r.position) && logTorque then Log(w1, r.torque) else w1;
      var next := if InWindow(r.position) then r.position else current;
      assert Sweep(o, w, ps, current, logTorque) == Sweep(o, w2, ps[1..], next, logTorque);
      SweepCurrent(o, w2, ps[1..], next, logTorque);
      assert Replies(o, w2.replyAt, |ps| - 1) == rs[1..];
    }
  }

  /** A sweep reads no extend switch, so its extend-read count passes through. */
  lemma {:induction false} SweepIgnoresExtend(o: Oracle, w: World, ps: seq<real>, current: real, logTorque: bool, e: nat)
    ensures Sweep(o, w.(extendAt := e), ps, current, logTorque) ==
            (Sweep(o, w, ps, current, logTorque).0.(extendAt := e), Sweep(o, w, ps, current, logTorque).1)
    decreases |ps|
  {
    if ps != [] {
      var r := NextReply(o, w);
      var w1 := Receive(Send(w, Write(Val(ps[0]), Unchanged)));
      var w2 := if InWindow(r.position) && logTorque then Log(w1, r.torque) else w1;
      var next := if InWindow(r.position) then r.position else current;
      assert Sweep(o, w, ps, current, logTorque) == Sweep(o, w2, ps[1..], next, logTorque);
      SweepIgnoresExtend(o, w2, ps[1..], next, logTorque, e);
    }
  }

  /**
   * performAcceleration (forward) and performAccelerationReverse: build the
   * ramp from the current position, then sweep it; the reverse ramp logs the
   * in-window torques, the forward one logs none.
   */
  function Acceleration(o: Oracle, w: World, commanded: real, current: real,
                        maxSpeed: real, steps: nat, forward: bool): Motion
  {
    var ps := AccelPositions(current, AccelPerStep(maxSpeed, steps, forward), steps);
    var (w', current') := Sweep(o, w, ps, current, !forward);
    Motion(w', ps[steps], current')
  }

  /**
   * Acceleration sends exactly steps + 1 writes, one per ramp entry, with the
   * commanded position ending at the last entry; forward logs no torque.
   */
  lemma AccelerationEffect(o: Oracle, w: World, commanded: real, current: real,
                           maxSpeed: real, steps: nat, forward: bool)
    ensures var m := Acceleration(o, w, commanded, current, maxSpeed, steps, forward);
            var ps := AccelPositions(current, AccelPerStep(maxSpeed, steps, forward), steps);
            var rs := Replies(o, w.replyAt, steps + 1);
            m.world.sent == w.sent + PositionWrites(ps) &&
            m.world.replyAt == w.replyAt + steps + 1 &&
            m.world.homeAt == w.homeAt && m.world.extendAt == w.extendAt &&
            m.world.torques == w.torques + (if forward then [] else WindowTorques(rs)) &&
            m.commanded == ps[steps] &&
            m.current == LastInWindow(rs, current)
  {
    var ps := AccelPositions(current, AccelPerStep(maxSpeed, steps, forward), steps);
    SweepWorld(o, w, ps, current, !forward);
    SweepCurrent(o, w, ps, current, !forward);
  }

  // ---------------------------------------------------------------- cruising

  /**
   * The constants of a cruise: the per-tick velocity, the direction (forward
   * runs while the current position is at or above the end position, reverse
   * while at or below), the tick index after which a stall counts, and the
   * stall torque.
   */
  datatype CruiseParams = CruiseParams(velocity: real, forward: bool, endPosition: real, warmup: nat, threshold: real)

  /** performCruising: -maxSpeed per tick, stalls count after tick 23 at torque 0.20. */
  function ForwardCruise(maxSpeed: real, endPosition: real): CruiseParams {
    CruiseParams(-maxSpeed, true, endPosition, 23, 0.20)
  }

  /** performCruisingReverse: +maxSpeed per tick, stalls count after tick 7 at torque 0.40. */
  function ReverseCruise(maxSpeed: real, endPosition: real): CruiseParams {
    CruiseParams(maxSpeed, false, endPosition, 7, 0.40)
  }

  predicate Cruising(p: CruiseParams, current: real) {
    if p.forward then current >= p.endPosition else current <= p.endPosition
  }

  const RecoveryTicks := 250
  /** The recovery burst holds the position as is and drives at -2.5. */
  const RecoveryCommand := Write(Unchanged, Val(-2.5))

  /**
   * What a cruise does on a stall: one extend-switch read (its value is only
   * printed), stop, rezero to 500, then 250 recovery ticks that log every torque.
   */
  function StallRecovery(o: Oracle, w: World): World {
    Repeat(o, Send(Send(ReadExtend(w), Stop), Rezero(RestPosition)), RecoveryCommand, RecoveryTicks, true)
  }

  lemma StallRecoveryEffect(o: Oracle, w: World)
    ensures StallRecovery(o, w) ==
            w.(sent := w.sent + [Stop, Rezero(RestPosition)] + Copies(RecoveryCommand, RecoveryTicks),
               replyAt := w.replyAt + RecoveryTicks, extendAt := w.extendAt + 1,
               torques := w.torques + TorquesFrom(o, w.replyAt, RecoveryTicks))
  {
    var w1 := Send(Send(ReadExtend(w), Stop), Rezero(RestPosition));
    assert w1.sent == w.sent + [Stop, Rezero(RestPosition)];
  }

  /**
   * The cruise loop; `index` counts the ticks done so far and `fuel` bounds the
   * ticks still allowed.
   */
  function CruiseLoop(o: Oracle, p: CruiseParams, w: World, commanded: real, current: real,
                      index: nat, fuel: nat): (Motion, Outcome)
    decreases fuel
  {
    if !Cruising(p, current) then (Motion(w, commanded, current), Finished)
    else if fuel == 0 then (Motion(w, commanded, current), OutOfFuel)
    else
      var target := commanded + p.velocity;
      var r := NextReply(o, w);
      var w1 := Receive(Send(w, Write(Val(target), Unchanged)));
      if !InWindow(r.position) then CruiseLoop(o, p, w1, target, current, index + 1, fuel - 1)
      else
        var w2 := if p.forward then w1 else Log(w1, r.torque);
        if index + 1 > p.warmup && r.torque >= p.threshold then
          (Motion(StallRecovery(o, w2), RestPosition, RestPosition), Stalled)
        else CruiseLoop(o, p, w2, target, r.position, index + 1, fuel - 1)
  }

  /** A whole cruise; the reverse one first logs a 0.0 torque as a phase marker. */
  function Cruise(o: Oracle, p: CruiseParams, w: World, commanded: real, current: real, fuel: nat): (Motion, Outcome) {
    CruiseLoop(o, p, if p.forward then w else Log(w, 0.0), commanded, current, 0, fuel)
  }

  /** The waypoints of `n` cruise ticks: each tick adds the velocity to the commanded position. */
  function CruiseTargets(commanded: real, velocity: real, n: nat): (ps: seq<real>)
    ensures |ps| == n && forall k :: 0 <= k < n ==> ps[k] == commanded + (k + 1) as real * velocity
  {
    seq(n, k requires 0 <= k < n => commanded + (k + 1) as real * velocity)
  }

  lemma CruiseTargetsTail(commanded: real, velocity: real, n: nat)
    requires n > 0
    ensures CruiseTargets(commanded, velocity, n)[0] == commanded + velocity
    ensures CruiseTargets(commanded, velocity, n)[1..] == CruiseTargets(commanded + velocity, velocity, n - 1)
  {
    var ps := CruiseTargets(commanded, velocity, n);
    forall k | 0 <= k < n - 1 ensures ps[1..][k] == CruiseTargets(commanded + velocity, velocity, n - 1)[k] {
      assert (k + 2) as real * velocity == velocity + (k + 1) as real * velocity;
    }
  }

  /** A cruise that ends without a stall ends because the position passed the end position. */
  lemma {:induction false} CruiseFinishedPassed(o: Oracle, p: CruiseParams, w: World, commanded: real, current: real,
                                               index: nat, fuel: nat)
    ensures var (m, outcome) := CruiseLoop(o, p, w, commanded, current, index, fuel);
            outcome == Finished ==> !Cruising(p, m.current)
    decreases fuel
  {
    if Cruising(p, current) && fuel > 0 {
      var r := NextReply(o, w);
      var w1 := Receive(Send(w, Write(Val(commanded + p.velocity), Unchanged)));
      var w2 := if p.forward then w1 else Log(w1, r.torque);
      CruiseFinishedPassed(o, p, w1, commanded + p.velocity, current, index + 1, fuel - 1);
      CruiseFinishedPassed(o, p, w2, commanded + p.velocity, r.position, index + 1, fuel - 1);
    }
  }

  /** No stall is recognised during the warm-up ticks. */
  lemma {:induction false} CruiseWarmup(o: Oracle, p: CruiseParams, w: World, commanded: real, current: real,
                                       index: nat, fuel: nat)
    requires index + fuel <= p.warmup
    ensures CruiseLoop(o, p, w, commanded, current, index, fuel).1 != Stalled
    decreases fuel
  {
    if Cruising(p, current) && fuel > 0 {
      var r := NextReply(o, w);
      var w1 := Receive(Send(w, Write(Val(commanded + p.velocity), Unchanged)));
      var w2 := if p.forward then w1 else Log(w1, r.torque);
      CruiseWarmup(o, p, w1, commanded + p.velocity, current, index + 1, fuel - 1);
      CruiseWarmup(o, p, w2, commanded + p.velocity, r.position, index + 1, fuel - 1);
    }
  }

  predicate TorquesBelow(rs: seq<Reading>, threshold: real) {
    forall k :: 0 <= k < |rs| ==> rs[k].torque < threshold
  }

  /** No stall is recognised unless some reply reaches the stall torque. */
  lemma {:induction false} CruiseStallNeedsTorque(o: Oracle, p: CruiseParams, w: World, commanded: real, current: real,
                                                 index: nat, fuel: nat)
    requires TorquesBelow(Replies(o, w.replyAt, fuel), p.threshold)
    ensures CruiseLoop(o, p, w, commanded, current, index, fuel).1 != Stalled
    decreases fuel
  {
    if Cruising(p, current) && fuel > 0 {
      var rs := Replies(o, w.replyAt, fuel);
      var r := NextReply(o, w);
      var w1 := Receive(Send(w, Write(Val(commanded + p.velocity), Unchanged)));
      var w2 := if p.forward then w1 else Log(w1, r.torque);
      assert rs[0] == r;
      assert Replies(o, w1.replyAt, fuel - 1) == rs[1..];
      CruiseStallNeedsTorque(o, p, w1, commanded + p.velocity, current, index + 1, fuel - 1);
      CruiseStallNeedsTorque(o, p, w2, commanded + p.velocity, r.position, index + 1, fuel - 1);
    }
  }

  /**
   * A cruise that ends without a stall is a sweep over its waypoints: it sent
   * `ticks` writes, each `velocity` beyond the previous one, consumed `ticks`
   * replies, and read no switch.
   */
  lemma {:induction false} CruiseIsSweep(o: Oracle, p: CruiseParams, w: World, commanded: real, current: real,
                                        index: nat, fuel: nat)
    ensures var (m, outcome) := CruiseLoop(o, p, w, commanded, current, index, fuel);
            outcome != Stalled ==> CruiseSwept(o, p, w, commanded, current, fuel, m)
    decreases fuel
  {
    var (m, outcome) := CruiseLoop(o, p, w, commanded, current, index, fuel);
    if outcome != Stalled {
      if !Cruising(p, current) || fuel == 0 {
        assert CruiseTargets(commanded, p.velocity, 0) == [];
      } else {
        var target := commanded + p.velocity;
        var r := NextReply(o, w);
        var w1 := Receive(Send(w, Write(Val(target), Unchanged)));
        var w2 := if InWindow(r.position) && !p.forward then Log(w1, r.torque) else w1;
        var next := if InWindow(r.position) then r.position else current;
        assert CruiseLoop(o, p, w, commanded, current, index, fuel) == CruiseLoop(o, p, w2, target, next, index + 1, fuel - 1);
        CruiseIsSweep(o, p, w2, target, next, index + 1, fuel - 1);
        CruiseSweptStep(o, p, w, commanded, current, fuel, m);
      }
    }
  }

  /**
   * That a cruise from `w` ended in `m` as a sweep: it ran `ticks` ticks, at
   * most `fuel`, and its state is the sweep over its first `ticks` waypoints,
   * ending commanded `ticks` velocities beyond the start.
   */
  predicate CruiseSwept(o: Oracle, p: CruiseParams, w: World, commanded: real, current: real, fuel: nat, m: Motion) {
    w.replyAt <= m.world.replyAt <= w.replyAt + fuel &&
    var ticks := m.world.replyAt - w.replyAt;
    (m.world, m.current) == Sweep(o, w, CruiseTargets(commanded, p.velocity, ticks), current, !p.forward) &&
    m.commanded == commanded + ticks as real * p.velocity
  }

  /** A tick that did not stall, followed by a sweep of the rest, is a sweep of the whole. */
  lemma CruiseSweptStep(o: Oracle, p: CruiseParams, w: World, commanded: real, current: real, fuel: nat, m: Motion)
    requires fuel > 0
    requires var r := NextReply(o, w);
             var w1 := Receive(Send(w, Write(Val(commanded + p.velocity), Unchanged)));
             CruiseSwept(o, p, if InWindow(r.position) && !p.forward then Log(w1, r.torque) else w1,
                         commanded + p.velocity, if InWindow(r.position) then r.position else current, fuel - 1, m)
    ensures CruiseSwept(o, p, w, commanded, current, fuel, m)
  {
    var target := commanded + p.velocity;
    var r := NextReply(o, w);
    var w1 := Receive(Send(w, Write(Val(target), Unchanged)));
    var w2 := if InWindow(r.position) && !p.forward then Log(w1, r.torque) else w1;
    var next := if InWindow(r.position) then r.position else current;
    var ticks := m.world.replyAt - w.replyAt;
    var ps := CruiseTargets(commanded, p.velocity, ticks);
    CruiseTargetsTail(commanded, p.velocity, ticks);
    assert Sweep(o, w, ps, current, !p.forward) == Sweep(o, w2, ps[1..], next, !p.forward);
    assert target + (ticks - 1) as real * p.velocity == commanded + ticks as real * p.velocity;
  }

  /**
   * The state a stall leaves, relative to the state `w` the cruise began in:
   * commanded = current = 500, the sent log ending with stop, rezero to 500
   * and the 250 recovery writes, whose 250 torques end the torque log, and
   * exactly one extend-switch read.
   */
  predicate RecoveredFrom(o: Oracle, w: World, m: Motion) {
    m.commanded == RestPosition && m.current == RestPosition &&
    |m.world.sent| >= |w.sent| + 2 + RecoveryTicks &&
    m.world.sent[|m.world.sent| - 2 - RecoveryTicks..] == [Stop, Rezero(RestPosition)] + Copies(RecoveryCommand, RecoveryTicks) &&
    m.world.replyAt >= w.replyAt + RecoveryTicks &&
    m.world.extendAt == w.extendAt + 1 && m.world.homeAt == w.homeAt &&
    |m.world.torques| >= |w.torques| + RecoveryTicks &&
    m.world.torques[|m.world.torques| - RecoveryTicks..] == TorquesFrom(o, m.world.replyAt - RecoveryTicks, RecoveryTicks)
  }

  lemma RecoveryFrom(o: Oracle, w: World, w2: World)
    requires |w2.sent| >= |w.sent| && w2.replyAt >= w.replyAt && |w2.torques| >= |w.torques|
    requires w2.extendAt == w.extendAt && w2.homeAt == w.homeAt
    ensures RecoveredFrom(o, w, Motion(StallRecovery(o, w2), RestPosition, RestPosition))
    ensures StallRecovery(o, w2).torques[..|StallRecovery(o, w2).torques| - RecoveryTicks] == w2.torques
  {
    StallRecoveryEffect(o, w2);
    var m := StallRecovery(o, w2);
    var tail := [Stop, Rezero(RestPosition)] + Copies(RecoveryCommand, RecoveryTicks);
    assert m.sent == w2.sent + tail;
    assert m.sent[|m.sent| - 2 - RecoveryTicks..] == tail;
    assert m.torques == w2.torques + TorquesFrom(o, w2.replyAt, RecoveryTicks);
  }

  /** A stall's end state, recovered from `w`; a forward cruise logged no torque before the burst. */
  predicate StallEnded(o: Oracle, w: World, m: Motion, forward: bool) {
    RecoveredFrom(o, w, m) &&
    (forward ==> m.world.torques[..|m.world.torques| - RecoveryTicks] == w.torques)
  }

  /** A state recovered from a later state of the same cruise is recovered from the earlier one. */
  lemma StallEndedEarlier(o: Oracle, w: World, w2: World, m: Motion, forward: bool)
    requires |w2.sent| >= |w.sent| && w2.replyAt >= w.replyAt && |w2.torques| >= |w.torques|
    requires w2.extendAt == w.extendAt && w2.homeAt == w.homeAt
    requires forward ==> w2.torques == w.torques
    requires StallEnded(o, w2, m, forward)
    ensures StallEnded(o, w, m, forward)
  {
  }

  /** A tick whose in-window reply reaches the stall torque after the warm-up ends the cruise recovered. */
  lemma CruiseStallsNow(o: Oracle, p: CruiseParams, w: World, commanded: real, current: real, index: nat, fuel: nat)
    requires Cruising(p, current) && fuel > 0
    requires var r := NextReply(o, w); InWindow(r.position) && index + 1 > p.warmup && r.torque >= p.threshold
    ensures var (m, outcome) := CruiseLoop(o, p, w, commanded, current, index, fuel);
            outcome == Stalled && StallEnded(o, w, m, p.forward)
  {
    var r := NextReply(o, w);
    var w1 := Receive(Send(w, Write(Val(commanded + p.velocity), Unchanged)));
    var w2 := if p.forward then w1 else Log(w1, r.torque);
    CruiseStallUnfold(o, p, w, commanded, current, index, fuel);
    RecoveryFrom(o, w, w2);
  }

  /** The cruise loop on a stalling tick: the stall recovery from the state after the tick. */
  lemma CruiseStallUnfold(o: Oracle, p: CruiseParams, w: World, commanded: real, current: real, index: nat, fuel: nat)
    requires Cruising(p, current) && fuel > 0
    requires var r := NextReply(o, w); InWindow(r.position) && index + 1 > p.warmup && r.torque >= p.threshold
    ensures var r := NextReply(o, w);
            var w1 := Receive(Send(w, Write(Val(commanded + p.velocity), Unchanged)));
            CruiseLoop(o, p, w, commanded, current, index, fuel) ==
              (Motion(StallRecovery(o, if p.forward then w1 else Log(w1, r.torque)), RestPosition, RestPosition), Stalled)
  {
  }

  /** A stalled cruise ends recovered; a forward one logged no torque before the burst. */
  lemma {:induction false} CruiseStall(o: Oracle, p: CruiseParams, w: World, commanded: real, current: real,
                                      index: nat, fuel: nat)
    ensures var (m, outcome) := CruiseLoop(o, p, w, commanded, current, index, fuel);
            outcome == Stalled ==> StallEnded(o, w, m, p.forward)
    decreases fuel
  {
    if Cruising(p, current) && fuel > 0 {
      var target := commanded + p.velocity;
      var r := NextReply(o, w);
      var w1 := Receive(Send(w, Write(Val(target), Unchanged)));
      var w2 := if InWindow(r.position) && !p.forward then Log(w1, r.torque) else w1;
      var next := if InWindow(r.position) then r.position else current;
      if InWindow(r.position) && index + 1 > p.warmup && r.torque >= p.threshold {
        CruiseStallsNow(o, p, w, commanded, current, index, fuel);
      } else {
        var (m, outcome) := CruiseLoop(o, p, w2, target, next, index + 1, fuel - 1);
        assert CruiseLoop(o, p, w, commanded, current, index, fuel) == (m, outcome);
        CruiseStall(o, p, w2, target, next, index + 1, fuel - 1);
        if outcome == Stalled {
          StallEndedEarlier(o, w, w2, m, p.forward);
        }
      }
    }
  }

  // ---------------------------------------------------------------- deceleration

  /** The per-tick velocity decrement of a deceleration of `steps` ticks. */
  function DecelRate(maxSpeed: real, steps: nat): (rate: real)
    ensures steps > 0 ==> rate * steps as real == maxSpeed
  {
    if steps == 0 then 0.0 else maxSpeed / steps as real
  }

  /** The waypoints of `n` deceleration ticks: add the velocity, then lower it by `rate`. */
  function DecelTargets(commanded: real, velocity: real, rate: real, n: nat): (ps: seq<real>)
    ensures |ps| == n
    decreases n
  {
    if n == 0 then [] else [commanded + velocity] + DecelTargets(commanded + velocity, velocity - rate, rate, n - 1)
  }

  /**
   * performDeceleration: each tick commands the next waypoint and reads the
   * reply; then the velocity is lowered by the rate, the loop stops once the
   * velocity is no longer negative, and otherwise reads the extend switch and
   * stops when it reads 0.
   */
  function DecelLoop(o: Oracle, w: World, commanded: real, current: real, velocity: real, rate: real, left: nat): Motion
    decreases left
  {
    if left == 0 then Motion(w, commanded, current)
    else
      var target := commanded + velocity;
      var r := NextReply(o, w);
      var w1 := Receive(Send(w, Write(Val(target), Unchanged)));
      var next := if InWindow(r.position) then r.position else current;
      var v := velocity - rate;
      if v >= 0.0 then Motion(w1, target, next)
      else if o.extend(w1.extendAt) == 0 then Motion(ReadExtend(w1), target, next)
      else DecelLoop(o, ReadExtend(w1), target, next, v, rate, left - 1)
  }

  /** Forward deceleration starts at -maxSpeed and subtracts maxSpeed / steps per tick. */
  function Deceleration(o: Oracle, w: World, commanded: real, current: real, maxSpeed: real, steps: nat): Motion {
    DecelLoop(o, w, commanded, current, -maxSpeed, DecelRate(maxSpeed, steps), steps)
  }

  /**
   * From a negative velocity with a non-negative rate the velocity only grows
   * more negative, so the "velocity reached 0" exit is never taken: every tick
   * reads the extend switch, and the loop ends after all its ticks or right
   * after the first extend read of 0. Along the way it is a sweep of the
   * deceleration waypoints that logs no torque.
   */
  lemma {:induction false} DecelLoopEnds(o: Oracle, w: World, commanded: real, current: real,
                                        velocity: real, rate: real, left: nat)
    requires velocity < 0.0 && rate >= 0.0
    ensures DecelSwept(o, w, commanded, current, velocity, rate, left, DecelLoop(o, w, commanded, current, velocity, rate, left))
    decreases left
  {
    if left > 0 {
      var target := commanded + velocity;
      var r := NextReply(o, w);
      var w1 := Receive(Send(w, Write(Val(target), Unchanged)));
      var next := if InWindow(r.position) then r.position else current;
      var m := DecelLoop(o, w, commanded, current, velocity, rate, left);
      if o.extend(w1.extendAt) == 0 {
        assert m.world.replyAt - w.replyAt == 1;
        assert Values(o.extend, w.extendAt, 1)[0] == o.extend(w.extendAt);
        assert DecelTargets(commanded, velocity, rate, 1) == [target];
      } else {
        var w2 := ReadExtend(w1);
        assert m == DecelLoop(o, w2, target, next, velocity - rate, rate, left - 1);
        DecelLoopEnds(o, w2, target, next, velocity - rate, rate, left - 1);
        DecelSweptStep(o, w, commanded, current, velocity, rate, left, m);
      }
    }
  }

  /**
   * What a forward deceleration from `w` that ended in `m` did, in `ticks`
   * ticks: at least one tick when any were allowed, one extend read per tick,
   * all non-zero but the last, which is 0 unless every tick ran; and its
   * state is the sweep of the deceleration waypoints that logs no torque.
   */
  predicate DecelSwept(o: Oracle, w: World, commanded: real, current: real, velocity: real, rate: real, left: nat, m: Motion) {
    w.replyAt <= m.world.replyAt <= w.replyAt + left &&
    var ticks := m.world.replyAt - w.replyAt;
    (left > 0 ==> ticks > 0) &&
    m.world.extendAt == w.extendAt + ticks &&
    (forall k :: 0 <= k < ticks - 1 ==> Values(o.extend, w.extendAt, ticks)[k] != 0) &&
    (ticks < left ==> Values(o.extend, w.extendAt, ticks)[ticks - 1] == 0) &&
    m.world == Sweep(o, w, DecelTargets(commanded, velocity, rate, ticks), current, false).0.(extendAt := w.extendAt + ticks) &&
    m.current == Sweep(o, w, DecelTargets(commanded, velocity, rate, ticks), current, false).1
  }

  /** A tick whose extend read was non-zero, followed by a deceleration of the rest, is a deceleration of the whole. */
  lemma DecelSweptStep(o: Oracle, w: World, commanded: real, current: real, velocity: real, rate: real, left: nat, m: Motion)
    requires left > 0 && o.extend(w.extendAt) != 0
    requires var r := NextReply(o, w);
             var w2 := ReadExtend(Receive(Send(w, Write(Val(commanded + velocity), Unchanged))));
             DecelSwept(o, w2, commanded + velocity, if InWindow(r.position) then r.position else current,
                        velocity - rate, rate, left - 1, m)
    ensures DecelSwept(o, w, commanded, current, velocity, rate, left, m)
  {
    var target := commanded + velocity;
    var r := NextReply(o, w);
    var w1 := Receive(Send(w, Write(Val(target), Unchanged)));
    var w2 := ReadExtend(w1);
    var next := if InWindow(r.position) then r.position else current;
    var ticks := m.world.replyAt - w.replyAt;
    var vs := Values(o.extend, w.extendAt, ticks);
    assert Values(o.extend, w2.extendAt, ticks - 1) == vs[1..];
    assert vs[0] == o.extend(w.extendAt);
    var ps := DecelTargets(commanded, velocity, rate, ticks);
    assert ps[1..] == DecelTargets(target, velocity - rate, rate, ticks - 1);
    SweepIgnoresExtend(o, w1, ps[1..], next, false, w1.extendAt + 1);
    assert Sweep(o, w, ps, current, false) == Sweep(o, w1, ps[1..], next, false);
  }

  /**
   * performDecelerationReverse: the same ticks from +maxSpeed, but in-window
   * torques are logged, no switch is read, and the loop stops as soon as the
   * lowered velocity is no longer positive.
   */
  function DecelReverseLoop(o: Oracle, w: World, commanded: real, current: real, velocity: real, rate: real, left: nat): Motion
    decreases left
  {
    if left == 0 then Motion(w, commanded, current)
    else
      var target := commanded + velocity;
      var r := NextReply(o, w);
      var w1 := Receive(Send(w, Write(Val(target), Unchanged)));
      var v := velocity - rate;
      var w2 := if InWindow(r.position) then Log(w1, r.torque) else w1;
      var next := if InWindow(r.position) then r.position else current;
      if v <= 0.0 then Motion(w2, target, next)
      else DecelReverseLoop(o, w2, target, next, v, rate, left - 1)
  }

  function DecelerationReverse(o: Oracle, w: World, commanded: real, current: real, maxSpeed: real, steps: nat): Motion {
    DecelReverseLoop(o, w, commanded, current, maxSpeed, DecelRate(maxSpeed, steps), steps)
  }

  /**
   * When the velocity is exactly `left` decrements, the reverse deceleration
   * runs all `left` ticks: it is the sweep of the deceleration waypoints that
   * logs the in-window torques, ending at the last waypoint.
   */
  lemma {:induction false} DecelReverseLoopRunsAll(o: Oracle, w: World, commanded: real, current: real,
                                                  velocity: real, rate: real, left: nat)
    requires rate > 0.0 && left > 0 && velocity == rate * left as real
    ensures var m := DecelReverseLoop(o, w, commanded, current, velocity, rate, left);
            var ps := DecelTargets(commanded, velocity, rate, left);
            (m.world, m.current) == Sweep(o, w, ps, current, true) && m.commanded == ps[left - 1]
    decreases left
  {
    var target := commanded + velocity;
    var r := NextReply(o, w);
    var w1 := Receive(Send(w, Write(Val(target), Unchanged)));
    var w2 := if InWindow(r.position) then Log(w1, r.torque) else w1;
    var next := if InWindow(r.position) then r.position else current;
    assert velocity - rate == rate * (left - 1) as real;
    if left > 1 {
      DecelReverseLoopRunsAll(o, w2, target, next, velocity - rate, rate, left - 1);
    }
  }

  /**
   * With a positive speed and at least one step, the reverse deceleration
   * sends exactly `steps` writes and consumes exactly `steps` replies.
   */
  lemma DecelerationReverseSteps(o: Oracle, w: World, commanded: real, current: real, maxSpeed: real, steps: nat)
    requires maxSpeed > 0.0 && steps > 0
    ensures var m := DecelerationReverse(o, w, commanded, current, maxSpeed, steps);
            var ps := DecelTargets(commanded, maxSpeed, DecelRate(maxSpeed, steps), steps);
            var rs := Replies(o, w.replyAt, steps);
            m.world == w.(sent := w.sent + PositionWrites(ps), replyAt := w.replyAt + steps,
                          torques := w.torques + WindowTorques(rs)) &&
            m.current == LastInWindow(rs, current)
  {
    var rate := DecelRate(maxSpeed, steps);
    var ps := DecelTargets(commanded, maxSpeed, rate, steps);
    DecelReverseLoopRunsAll(o, w, commanded, current, maxSpeed, rate, steps);
    SweepWorld(o, w, ps, current, true);
    SweepCurrent(o, w, ps, current, true);
  }

  /**
   * With a positive speed, forward deceleration ends only after all its steps
   * or right after an extend-switch read of 0, and logs no torque.
   */
  lemma DecelerationEnds(o: Oracle, w: World, commanded: real, current: real, maxSpeed: real, steps: nat)
    requires maxSpeed > 0.0
    ensures var m := Deceleration(o, w, commanded, current, maxSpeed, steps);
            var ticks := m.world.replyAt - w.replyAt;
            0 <= ticks <= steps && (steps > 0 ==> ticks > 0) &&
            m.world.extendAt == w.extendAt + ticks &&
            (ticks == steps || o.extend(w.extendAt + ticks - 1) == 0) &&
            |m.world.sent| == |w.sent| + ticks &&
            m.world.torques == w.torques && m.world.homeAt == w.homeAt
  {
    var rate := DecelRate(maxSpeed, steps);
    var m := Deceleration(o, w, commanded, current, maxSpeed, steps);
    DecelLoopEnds(o, w, commanded, current, -maxSpeed, rate, steps);
    var ticks := m.world.replyAt - w.replyAt;
    var ps := DecelTargets(commanded, -maxSpeed, rate, ticks);
    SweepWorld(o, w, ps, current, false);
    if ticks < steps {
      assert Values(o.extend, w.extendAt, ticks)[ticks - 1] == o.extend(w.extendAt + (ticks - 1));
    }
  }

  // ---------------------------------------------------------------- homing

  const HomingVelocity := 4.5
  const BackoffTicks := 100

  /**
   * What homing does on a stall: one extend read that is only printed, a
   * second one whose non-zero value triggers 100 backoff ticks at -4.5 (no
   * torque logged), then a rezero to 500.
   */
  function HomingStall(o: Oracle, w: World): World {
    var w1 := ReadExtend(w);
    var backoff := o.extend(w1.extendAt) != 0;
    var w2 := ReadExtend(w1);
    var w3 := if backoff then Repeat(o, w2, Write(Unchanged, Val(-HomingVelocity)), BackoffTicks, false) else w2;
    Send(w3, Rezero(RestPosition))
  }

  /** The stall handling of homing, written out. */
  lemma HomingStallEffect(o: Oracle, w: World)
    ensures var backoff := o.extend(w.extendAt + 1) != 0;
            HomingStall(o, w) ==
              w.(sent := w.sent + (if backoff then Copies(Write(Unchanged, Val(-HomingVelocity)), BackoffTicks) else []) +
                         [Rezero(RestPosition)],
                 replyAt := w.replyAt + (if backoff then BackoffTicks else 0),
                 extendAt := w.extendAt + 2)
  {
    var w2 := ReadExtend(ReadExtend(w));
    assert w2.sent + [] == w2.sent;
  }

  /**
   * The homing loop: read the home switch (0 means homed: rezero to 500);
   * otherwise drive at +4.5, read the reply, and follow in-window positions
   * with both the commanded and the current position; an in-window reply
   * after tick 20 with torque at least 0.13 is an obstruction.
   */
  function HomingLoop(o: Oracle, w: World, commanded: real, current: real, index: nat, fuel: nat): (Motion, Outcome)
    decreases fuel
  {
    if fuel == 0 then (Motion(w, commanded, current), OutOfFuel)
    else if o.home(w.homeAt) == 0 then (Motion(Send(ReadHome(w), Rezero(RestPosition)), RestPosition, RestPosition), Finished)
    else
      var r := NextReply(o, w);
      var w1 := Receive(Send(ReadHome(w), Write(Unchanged, Val(HomingVelocity))));
      if !InWindow(r.position) then HomingLoop(o, w1, commanded, current, index + 1, fuel - 1)
      else if index + 1 > 20 && r.torque >= 0.13 then
        (Motion(HomingStall(o, w1), RestPosition, RestPosition), Stalled)
      else HomingLoop(o, w1, r.position, r.position, index + 1, fuel - 1)
  }

  /** homing: rezero to 500 first, then the loop; Finished means homed, Stalled means obstructed. */
  function Homing(o: Oracle, w: World, commanded: real, current: real, fuel: nat): (Motion, Outcome) {
    HomingLoop(o, Send(w, Rezero(RestPosition)), commanded, current, 0, fuel)
  }

  /**
   * The home switch reads of a run from `w` to `w'`: a Finished run's last
   * read was 0, and every other read was non-zero.
   */
  predicate HomeReads(o: Oracle, w: World, w': World, outcome: Outcome) {
    w.homeAt <= w'.homeAt &&
    (outcome == Finished ==>
       w'.homeAt > w.homeAt && Values(o.home, w.homeAt, w'.homeAt - w.homeAt)[w'.homeAt - w.homeAt - 1] == 0) &&
    AllNonZero(Values(o.home, w.homeAt, w'.homeAt - w.homeAt - (if outcome == Finished then 1 else 0)))
  }

  /** A run that ended after a single home read. */
  lemma HomeReadsOne(o: Oracle, w: World, w': World, outcome: Outcome)
    requires w'.homeAt == w.homeAt + 1 && outcome != OutOfFuel
    requires outcome == Finished <==> o.home(w.homeAt) == 0
    ensures HomeReads(o, w, w', outcome)
  {
    assert Values(o.home, w.homeAt, 1)[0] == o.home(w.homeAt);
  }

  /** A non-zero home read followed by the reads of the rest of the run. */
  lemma HomeReadsStep(o: Oracle, w: World, w1: World, w': World, outcome: Outcome)
    requires w1.homeAt == w.homeAt + 1 && o.home(w.homeAt) != 0
    requires HomeReads(o, w1, w', outcome)
    ensures HomeReads(o, w, w', outcome)
  {
    var n := w'.homeAt - w.homeAt;
    var vs := Values(o.home, w.homeAt, n);
    assert Values(o.home, w1.homeAt, n - 1) == vs[1..];
    assert vs[0] == o.home(w.homeAt);
    var d := if outcome == Finished then 1 else 0;
    assert Values(o.home, w1.homeAt, n - 1 - d) == Values(o.home, w.homeAt, n - d)[1..];
  }

  /**
   * What a homing run that ended with `m` and `outcome` did: it logged no
   * torque; homed or obstructed, it left commanded = current = 500 with a
   * rezero to 500 as the last command; its home reads are as HomeReads says.
   */
  predicate HomingEnded(o: Oracle, w: World, m: Motion, outcome: Outcome) {
    m.world.torques == w.torques && HomeReads(o, w, m.world, outcome) &&
    (outcome != OutOfFuel ==>
       m.commanded == RestPosition && m.current == RestPosition &&
       |m.world.sent| > 0 && m.world.sent[|m.world.sent| - 1] == Rezero(RestPosition))
  }

  /**
   * Homing that ends, homed or obstructed, leaves commanded = current = 500
   * with a rezero to 500 as the last command; homed only right after a home
   * switch read of 0, every earlier home read having been non-zero; homing
   * never logs a torque.
   */
  lemma {:induction false} HomingLoopEnds(o: Oracle, w: World, commanded: real, current: real, index: nat, fuel: nat)
    ensures var (m, outcome) := HomingLoop(o, w, commanded, current, index, fuel);
            HomingEnded(o, w, m, outcome)
    decreases fuel
  {
    var (m, outcome) := HomingLoop(o, w, commanded, current, index, fuel);
    if fuel > 0 && o.home(w.homeAt) != 0 {
      var r := NextReply(o, w);
      var w1 := Receive(Send(ReadHome(w), Write(Unchanged, Val(HomingVelocity))));
      if InWindow(r.position) && index + 1 > 20 && r.torque >= 0.13 {
        HomingStallEffect(o, w1);
        HomeReadsOne(o, w, m.world, Stalled);
      } else {
        var next := if InWindow(r.position) then r.position else commanded;
        var nextCur := if InWindow(r.position) then r.position else current;
        assert HomingLoop(o, w, commanded, current, index, fuel) == HomingLoop(o, w1, next, nextCur, index + 1, fuel - 1);
        HomingLoopEnds(o, w1, next, nextCur, index + 1, fuel - 1);
        HomeReadsStep(o, w, w1, m.world, outcome);
      }
    } else if fuel > 0 {
      HomeReadsOne(o, w, m.world, Finished);
    }
  }

  /** No obstruction is recognised in the first 20 ticks. */
  lemma {:induction false} HomingWarmup(o: Oracle, w: World, commanded: real, current: real, index: nat, fuel: nat)
    requires index + fuel <= 20
    ensures HomingLoop(o, w, commanded, current, index, fuel).1 != Stalled
    decreases fuel
  {
    if fuel > 0 && o.home(w.homeAt) != 0 {
      var r := NextReply(o, w);
      var w1 := Receive(Send(ReadHome(w), Write(Unchanged, Val(HomingVelocity))));
      HomingWarmup(o, w1, commanded, current, index + 1, fuel - 1);
      HomingWarmup(o, w1, r.position, r.position, index + 1, fuel - 1);
    }
  }

  // ---------------------------------------------------------------- queries

  /** The first position of a batch that is in the window. */
  function FirstInWindow(ps: seq<real>): (r: Option<real>)
    ensures r.Some? ==> InWindow(r.value)
    decreases |ps|
  {
    if ps == [] then None
    else if InWindow(ps[0]) then Some(ps[0])
    else FirstInWindow(ps[1..])
  }

  predicate NoneInWindow(ps: seq<real>) {
    forall k :: 0 <= k < |ps| ==> !InWindow(ps[k])
  }

  /** FirstInWindow finds a position exactly when there is one, and it is the earliest. */
  lemma {:induction false} FirstInWindowSpec(ps: seq<real>)
    ensures FirstInWindow(ps).None? <==> NoneInWindow(ps)
    ensures FirstInWindow(ps).Some? ==>
              exists j :: 0 <= j < |ps| && ps[j] == FirstInWindow(ps).value &&
                          forall k :: 0 <= k < j ==> !InWindow(ps[k])
    decreases |ps|
  {
    if ps != [] && !InWindow(ps[0]) {
      FirstInWindowSpec(ps[1..]);
      if FirstInWindow(ps[1..]).Some? {
        var j :| 0 <= j < |ps[1..]| && ps[1..][j] == FirstInWindow(ps[1..]).value &&
                 forall k :: 0 <= k < j ==> !InWindow(ps[1..][k]);
        assert ps[j + 1] == ps[1..][j];
        forall k | 0 <= k < j + 1 ensures !InWindow(ps[k]) {
          if k > 0 {
            assert ps[k] == ps[1..][k - 1];
          }
        }
      } else {
        forall k | 0 <= k < |ps| ensures !InWindow(ps[k]) {
          if k > 0 {
            assert ps[k] == ps[1..][k - 1];
          }
        }
      }
    }
  }

  function Positions(rs: seq<Reading>): (ps: seq<real>)
    ensures |ps| == |rs| && forall k :: 0 <= k < |rs| ==> ps[k] == rs[k].position
  {
    seq(|rs|, k requires 0 <= k < |rs| => rs[k].position)
  }

  /**
   * tripleQuery: batches of three queries until a batch holds an in-window
   * position, which is returned; `fuel` bounds the batches.
   */
  function TripleQueryLoop(o: Oracle, w: World, fuel: nat): (World, Option<real>)
    decreases fuel
  {
    if fuel == 0 then (w, None)
    else
      var batch := Positions(Replies(o, w.replyAt, 3));
      var w' := Repeat(o, w, Query, 3, false);
      match FirstInWindow(batch)
      case Some(p) => (w', Some(p))
      case None => TripleQueryLoop(o, w', fuel - 1)
  }

  /**
   * What a tripleQuery run from `w` with `fuel` batches that ended in `w'`
   * with `r` did: it only sent queries, three per batch, at most `fuel`
   * batches; a found position is in the window and is the first in-window
   * position of the last batch, every earlier batch holding none; finding
   * none used up every batch, none of which held one.
   */
  predicate Queried(o: Oracle, w: World, fuel: nat, w': World, r: Option<real>) {
    w.replyAt <= w'.replyAt <= w.replyAt + 3 * fuel &&
    (w'.replyAt - w.replyAt) % 3 == 0 &&
    w' == w.(sent := w.sent + Copies(Query, w'.replyAt - w.replyAt), replyAt := w'.replyAt) &&
    (r.Some? ==> InWindow(r.value) && w'.replyAt >= w.replyAt + 3 &&
                 r == FirstInWindow(Positions(Replies(o, w'.replyAt - 3, 3)))) &&
    (r.None? ==> w'.replyAt == w.replyAt + 3 * fuel) &&
    forall b: nat :: b < (w'.replyAt - w.replyAt) / 3 - (if r.Some? then 1 else 0) ==> NoneInWindow(Batch(o, w.replyAt, b))
  }

  /** The positions of batch `b` of three replies counted from reply `at`. */
  function Batch(o: Oracle, at: nat, b: nat): seq<real> {
    Positions(Replies(o, at + 3 * b, 3))
  }

  /** A batch without an in-window position, followed by a run of the rest, is a run of the whole. */
  lemma QueriedStep(o: Oracle, w: World, fuel: nat, w1: World, w': World, r: Option<real>)
    requires fuel > 0 && w1 == w.(sent := w.sent + Copies(Query, 3), replyAt := w.replyAt + 3)
    requires NoneInWindow(Batch(o, w.replyAt, 0))
    requires Queried(o, w1, fuel - 1, w', r)
    ensures Queried(o, w, fuel, w', r)
  {
    var n := w'.replyAt - w1.replyAt;
    assert Copies(Query, 3) + Copies(Query, n) == Copies(Query, n + 3);
    ConcatAssoc(w.sent, Copies(Query, 3), Copies(Query, n));
    forall b: nat | b < (w'.replyAt - w.replyAt) / 3 - (if r.Some? then 1 else 0)
      ensures NoneInWindow(Batch(o, w.replyAt, b))
    {
      if b > 0 {
        assert Batch(o, w.replyAt, b) == Batch(o, w1.replyAt, b - 1);
      }
    }
  }

  /** tripleQuery only sends queries, three per batch, and returns an in-window position taken from its last batch. */
  lemma {:induction false} TripleQueryResult(o: Oracle, w: World, fuel: nat)
    ensures var (w', r) := TripleQueryLoop(o, w, fuel);
            Queried(o, w, fuel, w', r)
    decreases fuel
  {
    if fuel > 0 {
      var w1 := Repeat(o, w, Query, 3, false);
      assert w1 == w.(sent := w.sent + Copies(Query, 3), replyAt := w.replyAt + 3);
      if FirstInWindow(Positions(Replies(o, w.replyAt, 3))).None? {
        FirstInWindowSpec(Positions(Replies(o, w.replyAt, 3)));
        assert Batch(o, w.replyAt, 0) == Positions(Replies(o, w.replyAt, 3));
        TripleQueryResult(o, w1, fuel - 1);
        var (w', r) := TripleQueryLoop(o, w1, fuel - 1);
        QueriedStep(o, w, fuel, w1, w', r);
      }
    } else {
      assert w.sent + Copies(Query, 0) == w.sent;
    }
  }

  const MaxAttempts := 5

  /** validQuery: at most five queries; the first in-window position, else -1. */
  function ValidQueryLoop(o: Oracle, w: World, attemptCount: nat): (World, real)
    requires attemptCount <= MaxAttempts
    decreases MaxAttempts - attemptCount
  {
    if attemptCount == MaxAttempts then (w, -1.0)
    else
      var r := NextReply(o, w);
      var w1 := Receive(Send(w, Query));
      if InWindow(r.position) then (w1, r.position)
      else ValidQueryLoop(o, w1, attemptCount + 1)
  }

  /**
   * validQuery returns -1 exactly when none of its remaining attempts were in
   * the window, and otherwise the position of the first in-window reply, after
   * sending one query per attempt used.
   */
  lemma {:induction false} ValidQueryResult(o: Oracle, w: World, attemptCount: nat)
    requires attemptCount <= MaxAttempts
    ensures var (w', p) := ValidQueryLoop(o, w, attemptCount);
            ValidQueried(o, w, attemptCount, w', p)
    decreases MaxAttempts - attemptCount
  {
    if attemptCount < MaxAttempts {
      var r := NextReply(o, w);
      var w1 := Receive(Send(w, Query));
      if InWindow(r.position) {
        ValidQueryFirst(o, w, attemptCount);
      } else {
        ValidQueryResult(o, w1, attemptCount + 1);
        var (w', p) := ValidQueryLoop(o, w1, attemptCount + 1);
        ValidQueryStep(o, w, attemptCount, w', p);
      }
    } else {
      assert w.sent + Copies(Query, 0) == w.sent;
    }
  }

  /**
   * What a validQuery run from attempt `attemptCount` that ended in `w'` with
   * `p` did: it sent one query per attempt used, at most the attempts left;
   * -1 exactly when none of the remaining attempts' replies were in the
   * window, and otherwise the first in-window position of the replies read.
   */
  predicate ValidQueried(o: Oracle, w: World, attemptCount: nat, w': World, p: real)
    requires attemptCount <= MaxAttempts
  {
    var n := w'.replyAt - w.replyAt;
    w.replyAt <= w'.replyAt <= w.replyAt + MaxAttempts - attemptCount &&
    w' == w.(sent := w.sent + Copies(Query, n), replyAt := w'.replyAt) &&
    (p == -1.0 <==> NoneInWindow(Positions(Replies(o, w.replyAt, MaxAttempts - attemptCount)))) &&
    (p != -1.0 ==> n > 0 && FirstInWindow(Positions(Replies(o, w.replyAt, n))) == Some(p))
  }

  /** An in-window first reply ends validQuery after one query. */
  lemma ValidQueryFirst(o: Oracle, w: World, attemptCount: nat)
    requires attemptCount < MaxAttempts && InWindow(NextReply(o, w).position)
    ensures ValidQueried(o, w, attemptCount, Receive(Send(w, Query)), NextReply(o, w).position)
  {
    var r := NextReply(o, w);
    var rs := Replies(o, w.replyAt, MaxAttempts - attemptCount);
    assert Positions(Replies(o, w.replyAt, 1)) == [r.position];
    assert w.sent + Copies(Query, 1) == w.sent + [Query];
    assert !NoneInWindow(Positions(rs)) by {
      assert Positions(rs)[0] == r.position;
    }
  }

  /** An out-of-window reply, followed by a run of the remaining attempts, is a run of them all. */
  lemma ValidQueryStep(o: Oracle, w: World, attemptCount: nat, w': World, p: real)
    requires attemptCount < MaxAttempts && !InWindow(o.reply(w.replyAt).position)
    requires ValidQueried(o, Receive(Send(w, Query)), attemptCount + 1, w', p)
    ensures ValidQueried(o, w, attemptCount, w', p)
  {
    var w1 := Receive(Send(w, Query));
    var n := w'.replyAt - w.replyAt;
    assert w1.replyAt == w.replyAt + 1 && w1.sent == w.sent + [Query];
    NoneInWindowStep(o, w.replyAt, MaxAttempts - attemptCount);
    assert p == -1.0 <==> NoneInWindow(Positions(Replies(o, w.replyAt, MaxAttempts - attemptCount)));
    if p != -1.0 {
      FirstInWindowStep(o, w.replyAt, n);
    }
    CopiesCons(Query, n);
    ConcatAssoc(w.sent, [Query], Copies(Query, n - 1));
    assert w'.sent == w.sent + Copies(Query, n);
  }

  /** Behind an out-of-window first reply, no reply is in the window iff none of the rest is. */
  lemma NoneInWindowStep(o: Oracle, at: nat, m: nat)
    requires m > 0 && !InWindow(o.reply(at).position)
    ensures NoneInWindow(Positions(Replies(o, at, m))) <==> NoneInWindow(Positions(Replies(o, at + 1, m - 1)))
  {
    var ps := Positions(Replies(o, at, m));
    assert ps[1..] == Positions(Replies(o, at + 1, m - 1));
    if NoneInWindow(ps[1..]) {
      forall k | 0 <= k < |ps| ensures !InWindow(ps[k]) {
        if k > 0 {
          assert ps[k] == ps[1..][k - 1];
        }
      }
    }
  }

  /** Behind an out-of-window first reply, the first in-window position is that of the rest. */
  lemma FirstInWindowStep(o: Oracle, at: nat, n: nat)
    requires n > 0 && !InWindow(o.reply(at).position)
    ensures FirstInWindow(Positions(Replies(o, at, n))) == FirstInWindow(Positions(Replies(o, at + 1, n - 1)))
  {
    var qs := Positions(Replies(o, at, n));
    assert qs[1..] == Positions(Replies(o, at + 1, n - 1));
  }

  // ---------------------------------------------------------------- holds

  /** holdPosition: one write of the position at zero velocity, and its reply. */
  function HoldPosition(o: Oracle, w: World, position: real): World {
    Tick(o, w, Write(Val(position), Val(0.0)), false)
  }

  /** holdPositionDuration: HoldTicks(duration) such ticks, nothing logged. */
  function HoldPositionDuration(o: Oracle, w: World, position: real, duration: real): World {
    Repeat(o, w, Write(Val(position), Val(0.0)), HoldTicks(duration), false)
  }

  /** holdPositionNan: one zero-velocity write that leaves the position as is. */
  function HoldPositionNan(o: Oracle, w: World): World {
    Tick(o, w, Write(Unchanged, Val(0.0)), false)
  }

  /** A timed hold sends HoldTicks(duration) copies of its write and consumes as many replies. */
  lemma HoldPositionDurationEffect(o: Oracle, w: World, position: real, duration: real)
    ensures HoldPositionDuration(o, w, position, duration) ==
            w.(sent := w.sent + Copies(Write(Val(position), Val(0.0)), HoldTicks(duration)),
               replyAt := w.replyAt + HoldTicks(duration))
  {
  }

  // ---------------------------------------------------------------- growth

  /** No phase takes back a command, a reading or a logged torque. */
  lemma {:induction false} SweepGrows(o: Oracle, w: World, ps: seq<real>, current: real, logTorque: bool)
    ensures Grows(w, Sweep(o, w, ps, current, logTorque).0)
    decreases |ps|
  {
    if ps != [] {
      var r := NextReply(o, w);
      var w1 := Receive(Send(w, Write(Val(ps[0]), Unchanged)));
      var w2 := if InWindow(r.position) && logTorque then Log(w1, r.torque) else w1;
      var next := if InWindow(r.position) then r.position else current;
      assert Sweep(o, w, ps, current, logTorque) == Sweep(o, w2, ps[1..], next, logTorque);
      SweepGrows(o, w2, ps[1..], next, logTorque);
      assert Grows(w, w2);
      GrowsTrans(w, w2, Sweep(o, w, ps, current, logTorque).0);
    }
  }

  lemma AccelerationGrows(o: Oracle, w: World, commanded: real, current: real, maxSpeed: real, steps: nat, forward: bool)
    ensures Grows(w, Acceleration(o, w, commanded, current, maxSpeed, steps, forward).world)
  {
    SweepGrows(o, w, AccelPositions(current, AccelPerStep(maxSpeed, steps, forward), steps), current, !forward);
  }

  lemma StallRecoveryGrows(o: Oracle, w: World)
    ensures Grows(w, StallRecovery(o, w))
  {
    var w1 := Send(Send(ReadExtend(w), Stop), Rezero(RestPosition));
    assert Grows(w, w1);
    RepeatGrows(o, w1, RecoveryCommand, RecoveryTicks, true);
  }

  lemma {:induction false} CruiseLoopGrows(o: Oracle, p: CruiseParams, w: World, commanded: real, current: real,
                                          index: nat, fuel: nat)
    ensures Grows(w, CruiseLoop(o, p, w, commanded, current, index, fuel).0.world)
    decreases fuel
  {
    if Cruising(p, current) && fuel > 0 {
      var target := commanded + p.velocity;
      var r := NextReply(o, w);
      var w1 := Receive(Send(w, Write(Val(target), Unchanged)));
      var w2 := if p.forward then w1 else Log(w1, r.torque);
      var m := CruiseLoop(o, p, w, commanded, current, index, fuel).0;
      if !InWindow(r.position) {
        CruiseLoopGrows(o, p, w1, target, current, index + 1, fuel - 1);
        GrowsTrans(w, w1, m.world);
      } else if index + 1 > p.warmup && r.torque >= p.threshold {
        StallRecoveryGrows(o, w2);
        GrowsTrans(w, w2, m.world);
      } else {
        CruiseLoopGrows(o, p, w2, target, r.position, index + 1, fuel - 1);
        GrowsTrans(w, w2, m.world);
      }
    }
  }

  lemma CruiseGrows(o: Oracle, p: CruiseParams, w: World, commanded: real, current: real, fuel: nat)
    ensures Grows(w, Cruise(o, p, w, commanded, current, fuel).0.world)
  {
    var w0 := if p.forward then w else Log(w, 0.0);
    CruiseLoopGrows(o, p, w0, commanded, current, 0, fuel);
    GrowsTrans(w, w0, Cruise(o, p, w, commanded, current, fuel).0.world);
  }

  lemma {:induction false} DecelLoopGrows(o: Oracle, w: World, commanded: real, current: real, velocity: real, rate: real, left: nat)
    ensures Grows(w, DecelLoop(o, w, commanded, current, velocity, rate, left).world)
    decreases left
  {
    if left > 0 {
      var target := commanded + velocity;
      var r := NextReply(o, w);
      var w1 := Receive(Send(w, Write(Val(target), Unchanged)));
      var next := if InWindow(r.position) then r.position else current;
      var v := velocity - rate;
      if v < 0.0 && o.extend(w1.extendAt) != 0 {
        DecelLoopGrows(o, ReadExtend(w1), target, next, v, rate, left - 1);
        GrowsTrans(w, ReadExtend(w1), DecelLoop(o, w, commanded, current, velocity, rate, left).world);
      }
    }
  }

  lemma {:induction false} DecelReverseLoopGrows(o: Oracle, w: World, commanded: real, current: real, velocity: real, rate: real, left: nat)
    ensures Grows(w, DecelReverseLoop(o, w, commanded, current, velocity, rate, left).world)
    decreases left
  {
    if left > 0 {
      var target := commanded + velocity;
      var r := NextReply(o, w);
      var w1 := Receive(Send(w, Write(Val(target), Unchanged)));
      var v := velocity - rate;
      var w2 := if InWindow(r.position) then Log(w1, r.torque) else w1;
      var next := if InWindow(r.position) then r.position else current;
      if v > 0.0 {
        DecelReverseLoopGrows(o, w2, target, next, v, rate, left - 1);
        GrowsTrans(w, w2, DecelReverseLoop(o, w, commanded, current, velocity, rate, left).world);
      }
    }
  }

  lemma HomingStallGrows(o: Oracle, w: World)
    ensures Grows(w, HomingStall(o, w))
  {
    HomingStallEffect(o, w);
  }

  lemma {:induction false} HomingLoopGrows(o: Oracle, w: World, commanded: real, current: real, index: nat, fuel: nat)
    ensures Grows(w, HomingLoop(o, w, commanded, current, index, fuel).0.world)
    decreases fuel
  {
    if fuel > 0 && o.home(w.homeAt) != 0 {
      var r := NextReply(o, w);
      var w1 := Receive(Send(ReadHome(w), Write(Unchanged, Val(HomingVelocity))));
      var m := HomingLoop(o, w, commanded, current, index, fuel).0;
      if !InWindow(r.position) {
        HomingLoopGrows(o, w1, commanded, current, index + 1, fuel - 1);
      } else if index + 1 > 20 && r.torque >= 0.13 {
        HomingStallGrows(o, w1);
      } else {
        HomingLoopGrows(o, w1, r.position, r.position, index + 1, fuel - 1);
      }
      GrowsTrans(w, w1, m.world);
    }
  }

  lemma HomingGrows(o: Oracle, w: World, commanded: real, current: real, fuel: nat)
    ensures Grows(w, Homing(o, w, commanded, current, fuel).0.world)
  {
    var w0 := Send(w, Rezero(RestPosition));
    HomingLoopGrows(o, w0, commanded, current, 0, fuel);
    GrowsTrans(w, w0, Homing(o, w, commanded, current, fuel).0.world);
  }

  lemma DecelerationGrows(o: Oracle, w: World, commanded: real, current: real, maxSpeed: real, steps: nat)
    ensures Grows(w, Deceleration(o, w, commanded, current, maxSpeed, steps).world)
  {
    DecelLoopGrows(o, w, commanded, current, -maxSpeed, DecelRate(maxSpeed, steps), steps);
  }

  lemma DecelerationReverseGrows(o: Oracle, w: World, commanded: real, current: real, maxSpeed: real, steps: nat)
    ensures Grows(w, DecelerationReverse(o, w, commanded, current, maxSpeed, steps).world)
  {
    DecelReverseLoopGrows(o, w, commanded, current, maxSpeed, DecelRate(maxSpeed, steps), steps);
  }

  lemma HoldsGrow(o: Oracle, w: World, position: real, duration: real)
    ensures Grows(w, HoldPosition(o, w, position))
    ensures Grows(w, HoldPositionDuration(o, w, position, duration))
  {
    UpdatesGrow(o, w, Write(Val(position), Val(0.0)), 0.0, false);
    RepeatGrows(o, w, Write(Val(position), Val(0.0)), HoldTicks(duration), false);
  }
}
