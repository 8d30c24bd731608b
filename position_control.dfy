/**
 * The control program: a state machine over the motor's life cycle, polled
 * once per loop iteration. Each iteration reads the safety switch first; a
 * reading of 0 pre-empts whatever state the machine was in.
 */
module PositionControl {
  import opened MyController
  import opened MyGpio
  import opened Rig
  import opened PositionPhases
  import opened PositionManager

  datatype MotorState =
    | Initial
    | WaitingToHome
    | Homing
    | Homed
    | WaitingToExtend
    | Extending
    | Extended
    | Sheathing
    | ExtendError
    | SafetyLockout

  /**
   * The values one iteration read: the safety switch, the home switch, the
   * activate switch, the safety switch's second read in lockout, and whether
   * homing succeeded. A switch the iteration's state does not read is
   * recorded as 1 (released) and homing that did not run as false.
   */
  datatype Inputs = Inputs(safety: int, home: int, activate: int, release: int, homed: bool)

  /** The state an iteration acts in: lockout if the safety switch read 0 (only 0 is false as a bool). */
  function Acting(s: MotorState, i: Inputs): MotorState {
    if i.safety == 0 then SafetyLockout else s
  }

  /** One iteration of the control loop. */
  function Step(s: MotorState, i: Inputs): (next: MotorState)
    ensures next != ExtendError
  {
    match Acting(s, i)
    case Initial => if i.home == 0 then Homing else WaitingToHome
    case WaitingToHome => if i.activate == 0 then Homing else WaitingToHome
    case Homing => if i.homed then Homed else WaitingToHome
    case Homed => WaitingToExtend
    case WaitingToExtend => if i.activate == 0 then Extending else WaitingToExtend
    case Extending => Extended
    case Extended => if i.activate == 0 then Sheathing else Extended
    case Sheathing => Homing
    case ExtendError => Initial
    case SafetyLockout => if i.release == 0 then Initial else SafetyLockout
  }

  /** The states visited from `s` under a run of iterations. */
  function Trace(s: MotorState, inputs: seq<Inputs>): (ts: seq<MotorState>)
    ensures |ts| == |inputs| + 1 && ts[0] == s
    decreases |inputs|
  {
    if inputs == [] then [s] else [s] + Trace(Step(s, inputs[0]), inputs[1..])
  }

  /** One more iteration appends its successor state. */
  lemma {:induction false} TraceSnoc(s: MotorState, inputs: seq<Inputs>, i: Inputs)
    ensures Trace(s, inputs + [i]) == Trace(s, inputs) + [Step(Trace(s, inputs)[|inputs|], i)]
    decreases |inputs|
  {
    if inputs == [] {
      assert [i][1..] == [];
    } else {
      assert (inputs + [i])[1..] == inputs[1..] + [i];
      TraceSnoc(Step(s, inputs[0]), inputs[1..], i);
    }
  }

  /** Consecutive states of a trace are related by Step. */
  lemma {:induction false} TraceSteps(s: MotorState, inputs: seq<Inputs>, k: nat)
    requires k < |inputs|
    ensures Trace(s, inputs)[k + 1] == Step(Trace(s, inputs)[k], inputs[k])
    decreases k
  {
    if k > 0 {
      TraceSteps(Step(s, inputs[0]), inputs[1..], k - 1);
    }
  }

  /** A read of 0 from the safety switch sends every state to lockout, released the same iteration by a second 0. */
  lemma SafetyPreempts(s: MotorState, i: Inputs)
    requires i.safety == 0
    ensures Step(s, i) == if i.release == 0 then Initial else SafetyLockout
  {
  }

  /** An unavailable safety line (-1) counts as a safe reading, exactly like 1. */
  lemma UnavailableSafetyIsSafe(s: MotorState, i: Inputs)
    ensures Step(s, i.(safety := LineUnavailable)) == Step(s, i.(safety := 1))
  {
  }

  /** The machine re-enters Initial only out of lockout or out of ExtendError. */
  lemma InitialOnlyFromLockout(s: MotorState, i: Inputs)
    ensures Step(s, i) == Initial <==>
            (Acting(s, i) == SafetyLockout && i.release == 0) || Acting(s, i) == ExtendError
  {
  }

  /** Nothing ever moves to ExtendError, so a run from Initial never visits it. */
  lemma {:induction false} TraceAvoidsExtendError(s: MotorState, inputs: seq<Inputs>)
    requires s != ExtendError
    ensures forall k :: 0 <= k < |inputs| + 1 ==> Trace(s, inputs)[k] != ExtendError
    decreases |inputs|
  {
    if inputs != [] {
      TraceAvoidsExtendError(Step(s, inputs[0]), inputs[1..]);
      forall k | 1 <= k < |inputs| + 1 ensures Trace(s, inputs)[k] != ExtendError {
        assert Trace(s, inputs)[k] == Trace(Step(s, inputs[0]), inputs[1..])[k - 1];
      }
    }
  }

  /** With the safety switch safe: the forward cycle and the return to homing. */
  lemma SafeTransitions(s: MotorState, i: Inputs)
    requires i.safety != 0
    ensures Step(Homing, i) == (if i.homed then Homed else WaitingToHome)
    ensures Step(Homed, i) == WaitingToExtend
    ensures Step(WaitingToExtend, i) == (if i.activate == 0 then Extending else WaitingToExtend)
    ensures Step(Extending, i) == Extended
    ensures Step(Extended, i) == (if i.activate == 0 then Sheathing else Extended)
    ensures Step(Sheathing, i) == Homing
    ensures Step(Initial, i) == (if i.home == 0 then Homing else WaitingToHome)
  {
  }

  /** The configuration the control program runs the manager with. */
  const MaxSpeed := 0.055
  const CruisingEndPosition := 480.0
  const CruisingReverseEndPosition := 520.0
  const StepsToAccelerate := 50
  const DecelerationSteps := 20
  /** The hold after homing and after extending: half a second, 487 ticks. */
  const SettleDuration := 0.5

  /** The manager's motion parameters: top speed, the two cruise end positions and the ramp lengths. */
  datatype Config = Config(maxSpeed: real, cruisingEndPosition: real, cruisingReverseEndPosition: real,
                           stepsToAccelerate: nat, decelerationSteps: nat)

  /** The configuration the control program builds its manager with. */
  const Program := Config(MaxSpeed, CruisingEndPosition, CruisingReverseEndPosition, StepsToAccelerate, DecelerationSteps)

  /** The configuration a manager runs its phases with. */
  ghost function ConfigOf(pm: PositionManager): Config
    reads pm
  {
    Config(pm.maxSpeed, pm.cruisingEndPosition, pm.cruisingReverseEndPosition, pm.stepsToAccelerate, pm.decelerationSteps)
  }

  // ---------------------------------------------------------------- the work of the moving states

  /**
   * The Homing state's work: homing, then the half-second hold at the
   * commanded position whether homing succeeded or not. When homing used up
   * its bound the source would still be homing, and nothing follows.
   */
  function HomeRun(o: Oracle, w: World, commanded: real, current: real, fuel: nat): (Motion, Outcome) {
    var (m, outcome) := PositionPhases.Homing(o, w, commanded, current, fuel);
    if outcome == OutOfFuel then (m, outcome)
    else (m.(world := HoldPositionDuration(o, m.world, m.commanded, SettleDuration)), outcome)
  }

  /**
   * The Extending state's work: re-zero at 500 and take 500 as both positions,
   * then the forward acceleration, cruise and deceleration, then the
   * half-second hold. Exhausted when the cruise used up its bound.
   */
  function ExtendRun(o: Oracle, w: World, c: Config, fuel: nat): (Motion, bool) {
    var m1 := Acceleration(o, Send(w, Rezero(500.0)), 500.0, 500.0, c.maxSpeed, c.stepsToAccelerate, true);
    var (m2, outcome) := Cruise(o, ForwardCruise(c.maxSpeed, c.cruisingEndPosition), m1.world, m1.commanded, m1.current, fuel);
    if outcome == OutOfFuel then (m2, true)
    else
      var m3 := Deceleration(o, m2.world, m2.commanded, m2.current, c.maxSpeed, c.decelerationSteps);
      (m3.(world := HoldPositionDuration(o, m3.world, m3.commanded, SettleDuration)), false)
  }

  /**
   * The Sheathing state's work: re-zero at 500 and take 500 as both positions,
   * then the reverse acceleration, cruise and deceleration, with no hold.
   * Exhausted when the cruise used up its bound.
   */
  function SheatheRun(o: Oracle, w: World, c: Config, fuel: nat): (Motion, bool) {
    var m1 := Acceleration(o, Send(w, Rezero(500.0)), 500.0, 500.0, c.maxSpeed, c.stepsToAccelerate, false);
    var (m2, outcome) := Cruise(o, ReverseCruise(c.maxSpeed, c.cruisingReverseEndPosition), m1.world, m1.commanded, m1.current, fuel);
    if outcome == OutOfFuel then (m2, true)
    else (DecelerationReverse(o, m2.world, m2.commanded, m2.current, c.maxSpeed, c.decelerationSteps), false)
  }

  /** The ramp an extension or a sheathing commands first, from 500. */
  function Ramp(c: Config, forward: bool): seq<real> {
    AccelPositions(500.0, AccelPerStep(c.maxSpeed, c.stepsToAccelerate, forward), c.stepsToAccelerate)
  }

  /** `s` ends with `t`. */
  predicate EndsWith<T(==)>(s: seq<T>, t: seq<T>) {
    |t| <= |s| && s[|s| - |t|..] == t
  }

  /** A hold followed by nothing: the last commands are the timed hold's writes. */
  lemma HoldEnds(o: Oracle, w: World, position: real)
    ensures EndsWith(HoldPositionDuration(o, w, position, SettleDuration).sent, Copies(Write(Val(position), Val(0.0)), 487))
    ensures Grows(w, HoldPositionDuration(o, w, position, SettleDuration))
  {
    HalfSecondHold();
    HoldPositionDurationEffect(o, w, position, SettleDuration);
    HoldsGrow(o, w, position, SettleDuration);
    var s := HoldPositionDuration(o, w, position, SettleDuration).sent;
    assert s == w.sent + Copies(Write(Val(position), Val(0.0)), 487);
    assert s[|s| - 487..] == Copies(Write(Val(position), Val(0.0)), 487);
  }

  /** Both motions start with the rezero to 500 and the ramp from 500; only the reverse ramp logs its in-window torques. */
  lemma RampStart(o: Oracle, w: World, c: Config, forward: bool)
    ensures var m1 := Acceleration(o, Send(w, Rezero(500.0)), 500.0, 500.0, c.maxSpeed, c.stepsToAccelerate, forward);
            Grows(w, m1.world) && m1.world.sent == w.sent + [Rezero(500.0)] + PositionWrites(Ramp(c, forward)) &&
            m1.world.torques == w.torques + (if forward then [] else WindowTorques(Replies(o, w.replyAt, c.stepsToAccelerate + 1)))
  {
    var w0 := Send(w, Rezero(500.0));
    AccelerationEffect(o, w0, 500.0, 500.0, c.maxSpeed, c.stepsToAccelerate, forward);
    AccelerationGrows(o, w0, 500.0, 500.0, c.maxSpeed, c.stepsToAccelerate, forward);
    assert Grows(w, w0);
    GrowsTrans(w, w0, Acceleration(o, w0, 500.0, 500.0, c.maxSpeed, c.stepsToAccelerate, forward).world);
  }

  /**
   * Homing, unless it ran out of its bound, leaves both positions at 500 and
   * ends with the rezero to 500 followed by 487 holds at 500; it starts with
   * a rezero to 500, logs no torque and homes only right after a home read of 0.
   */
  lemma HomeRunEffect(o: Oracle, w: World, commanded: real, current: real, fuel: nat)
    ensures var (m, outcome) := HomeRun(o, w, commanded, current, fuel);
            Grows(w, m.world) && w.sent + [Rezero(500.0)] <= m.world.sent && m.world.torques == w.torques &&
            HomeReads(o, w, m.world, outcome) &&
            (outcome != OutOfFuel ==>
               m.commanded == 500.0 && m.current == 500.0 &&
               EndsWith(m.world.sent, [Rezero(500.0)] + Copies(Write(Val(500.0), Val(0.0)), 487)))
  {
    var w0 := Send(w, Rezero(RestPosition));
    var (h, outcome) := PositionPhases.Homing(o, w, commanded, current, fuel);
    HomingLoopEnds(o, w0, commanded, current, 0, fuel);
    HomingGrows(o, w, commanded, current, fuel);
    PositionPhases.HomingLoopGrows(o, w0, commanded, current, 0, fuel);
    assert w.sent + [Rezero(500.0)] == w0.sent;
    if outcome != OutOfFuel {
      HoldEnds(o, h.world, h.commanded);
      HoldPositionDurationEffect(o, h.world, h.commanded, SettleDuration);
      HalfSecondHold();
      var s := HoldPositionDuration(o, h.world, h.commanded, SettleDuration).sent;
      assert s == h.world.sent + Copies(Write(Val(500.0), Val(0.0)), 487);
      assert s[|s| - 488..] == [Rezero(500.0)] + Copies(Write(Val(500.0), Val(0.0)), 487);
      GrowsTrans(w, h.world, HoldPositionDuration(o, h.world, h.commanded, SettleDuration));
    }
  }

  /**
   * An extension starts with the rezero to 500 and the forward ramp from 500,
   * logs nothing during the ramp, and, unless the cruise ran out of its
   * bound, ends with 487 holds at the final commanded position.
   */
  lemma ExtendRunEffect(o: Oracle, w: World, c: Config, fuel: nat)
    ensures var (m, exhausted) := ExtendRun(o, w, c, fuel);
            Grows(w, m.world) && w.sent + [Rezero(500.0)] + PositionWrites(Ramp(c, true)) <= m.world.sent &&
            (!exhausted ==> EndsWith(m.world.sent, Copies(Write(Val(m.commanded), Val(0.0)), 487)))
  {
    var m1 := Acceleration(o, Send(w, Rezero(500.0)), 500.0, 500.0, c.maxSpeed, c.stepsToAccelerate, true);
    RampStart(o, w, c, true);
    var p := ForwardCruise(c.maxSpeed, c.cruisingEndPosition);
    var (m2, outcome) := Cruise(o, p, m1.world, m1.commanded, m1.current, fuel);
    CruiseGrows(o, p, m1.world, m1.commanded, m1.current, fuel);
    GrowsTrans(w, m1.world, m2.world);
    if outcome != OutOfFuel {
      var m3 := Deceleration(o, m2.world, m2.commanded, m2.current, c.maxSpeed, c.decelerationSteps);
      DecelerationGrows(o, m2.world, m2.commanded, m2.current, c.maxSpeed, c.decelerationSteps);
      HoldEnds(o, m3.world, m3.commanded);
      GrowsTrans(w, m2.world, m3.world);
      GrowsTrans(w, m3.world, HoldPositionDuration(o, m3.world, m3.commanded, SettleDuration));
      GrowsTrans(m1.world, m2.world, m3.world);
      GrowsTrans(m1.world, m3.world, HoldPositionDuration(o, m3.world, m3.commanded, SettleDuration));
    }
  }

  /**
   * A sheathing starts with the rezero to 500 and the reverse ramp from 500,
   * and logs the in-window torques of the ramp's replies first.
   */
  lemma SheatheRunEffect(o: Oracle, w: World, c: Config, fuel: nat)
    ensures var (m, exhausted) := SheatheRun(o, w, c, fuel);
            Grows(w, m.world) && w.sent + [Rezero(500.0)] + PositionWrites(Ramp(c, false)) <= m.world.sent &&
            w.torques + WindowTorques(Replies(o, w.replyAt, c.stepsToAccelerate + 1)) <= m.world.torques
  {
    var m1 := Acceleration(o, Send(w, Rezero(500.0)), 500.0, 500.0, c.maxSpeed, c.stepsToAccelerate, false);
    RampStart(o, w, c, false);
    var p := ReverseCruise(c.maxSpeed, c.cruisingReverseEndPosition);
    var (m2, outcome) := Cruise(o, p, m1.world, m1.commanded, m1.current, fuel);
    CruiseGrows(o, p, m1.world, m1.commanded, m1.current, fuel);
    GrowsTrans(w, m1.world, m2.world);
    if outcome != OutOfFuel {
      DecelerationReverseGrows(o, m2.world, m2.commanded, m2.current, c.maxSpeed, c.decelerationSteps);
      var m3 := DecelerationReverse(o, m2.world, m2.commanded, m2.current, c.maxSpeed, c.decelerationSteps);
      GrowsTrans(w, m2.world, m3.world);
      GrowsTrans(m1.world, m2.world, m3.world);
    }
  }

  // ---------------------------------------------------------------- one iteration, as a function

  /** What the activate and the safety switch will read. */
  datatype Buttons = Buttons(activate: nat -> int, safety: nat -> int)

  /** The control program's rig: the manager's rig and the activate and safety read counts. */
  datatype Panel = Panel(world: World, activateAt: nat, safetyAt: nat)

  /** What one iteration hands the next: the rig, the motor state and the two positions. */
  datatype Machine = Machine(panel: Panel, state: MotorState, commanded: real, current: real)

  /** A waiting state: hold the commanded position, then read the activate switch. */
  function Await(o: Oracle, b: Buttons, p: Panel, stay: MotorState, pressed: MotorState,
                 input: Inputs, commanded: real, current: real): (Machine, Inputs, bool)
  {
    var activate := b.activate(p.activateAt);
    (Machine(Panel(HoldPosition(o, p.world, commanded), p.activateAt + 1, p.safetyAt),
             if activate == 0 then pressed else stay, commanded, current),
     input.(activate := activate), false)
  }

  /** Initial: read the home switch; 0 means already home, so start homing. */
  function CheckHome(o: Oracle, p: Panel, input: Inputs, commanded: real, current: real): (Machine, Inputs, bool) {
    var home := o.home(p.world.homeAt);
    (Machine(p.(world := ReadHome(p.world)), if home == 0 then Homing else WaitingToHome, commanded, current),
     input.(home := home), false)
  }

  /** Homing: home and settle; homed only when homing finished at the home switch. */
  function HomeStep(o: Oracle, p: Panel, input: Inputs, commanded: real, current: real, fuel: nat): (Machine, Inputs, bool) {
    var (h, outcome) := HomeRun(o, p.world, commanded, current, fuel);
    (Machine(p.(world := h.world), if outcome == Finished then Homed else WaitingToHome, h.commanded, h.current),
     input.(homed := outcome == Finished), outcome == OutOfFuel)
  }

  /** Extending: the forward motion, then Extended. */
  function ExtendStep(o: Oracle, p: Panel, input: Inputs, c: Config, fuel: nat): (Machine, Inputs, bool) {
    var (e, exhausted) := ExtendRun(o, p.world, c, fuel);
    (Machine(p.(world := e.world), Extended, e.commanded, e.current), input, exhausted)
  }

  /** Sheathing: the reverse motion, then Homing again (no obstruction is ever recorded). */
  function SheatheStep(o: Oracle, p: Panel, input: Inputs, c: Config, fuel: nat): (Machine, Inputs, bool) {
    var (e, exhausted) := SheatheRun(o, p.world, c, fuel);
    (Machine(p.(world := e.world), Homing, e.commanded, e.current), input, exhausted)
  }

  /** SafetyLockout: read the safety switch again (0 releases the lockout), and hold the commanded position. */
  function Lockout(o: Oracle, b: Buttons, p: Panel, input: Inputs, commanded: real, current: real): (Machine, Inputs, bool) {
    var release := b.safety(p.safetyAt);
    (Machine(Panel(HoldPosition(o, p.world, commanded), p.activateAt, p.safetyAt + 1),
             if release == 0 then Initial else SafetyLockout, commanded, current),
     input.(release := release), false)
  }

  /** The work of the state acted in, from the rig `p` after the safety read. */
  function Act(o: Oracle, b: Buttons, c: Config, acting: MotorState, p: Panel, input: Inputs,
               commanded: real, current: real, fuel: nat): (Machine, Inputs, bool)
  {
    match acting
    case Initial => CheckHome(o, p, input, commanded, current)
    case WaitingToHome => Await(o, b, p, WaitingToHome, Homing, input, commanded, current)
    case Homing => HomeStep(o, p, input, commanded, current, fuel)
    case Homed => (Machine(p, WaitingToExtend, commanded, current), input, false)
    case WaitingToExtend => Await(o, b, p, WaitingToExtend, Extending, input, commanded, current)
    case Extending => ExtendStep(o, p, input, c, fuel)
    case Extended => Await(o, b, p, Extended, Sheathing, input, commanded, current)
    case Sheathing => SheatheStep(o, p, input, c, fuel)
    case ExtendError => (Machine(p, Initial, commanded, current), input, false)
    case SafetyLockout => Lockout(o, b, p, input, commanded, current)
  }

  /**
   * One iteration of the control loop from `m`: the next machine, the values
   * it read, and whether a phase used up its bound. The safety switch is
   * read first; the state acted in then reads what it reads.
   */
  function Iterate(o: Oracle, b: Buttons, c: Config, m: Machine, fuel: nat): (Machine, Inputs, bool) {
    var input := Inputs(b.safety(m.panel.safetyAt), 1, 1, 1, false);
    Act(o, b, c, Acting(m.state, input), m.panel.(safetyAt := m.panel.safetyAt + 1), input, m.commanded, m.current, fuel)
  }

  /** Unless a phase ran out of its bound, an iteration moves the machine as Step says on the values it read. */
  lemma IterateFollowsStep(o: Oracle, b: Buttons, c: Config, m: Machine, fuel: nat)
    ensures var (m', input, exhausted) := Iterate(o, b, c, m, fuel);
            !exhausted ==> m'.state == Step(m.state, input)
  {
  }

  /**
   * The safety switch is read first, and a read of 0 stops all motion: the
   * iteration reads the safety switch once more (0 releases the lockout),
   * holds the commanded position for one tick and does nothing else.
   */
  lemma SafetyReadFirst(o: Oracle, b: Buttons, c: Config, m: Machine, fuel: nat)
    ensures var (m', input, exhausted) := Iterate(o, b, c, m, fuel);
            input.safety == b.safety(m.panel.safetyAt) &&
            (input.safety == 0 ==>
               input.release == b.safety(m.panel.safetyAt + 1) && !exhausted &&
               m' == Machine(Panel(HoldPosition(o, m.panel.world, m.commanded), m.panel.activateAt, m.panel.safetyAt + 2),
                             if input.release == 0 then Initial else SafetyLockout, m.commanded, m.current))
  {
  }

  /**
   * The recorded inputs are the values read: the home switch once in Initial,
   * the activate switch once (after a one-tick hold) in the three waiting
   * states, the safety switch a second time in lockout, and the homing
   * outcome in Homing; what the iteration did not read is recorded as
   * released (1) or not homed.
   */
  lemma {:induction false} IterateReads(o: Oracle, b: Buttons, c: Config, m: Machine, fuel: nat)
    ensures var (m', input, exhausted) := Iterate(o, b, c, m, fuel);
            var acting := Acting(m.state, input);
            var w := m.panel.world;
            var waiting := acting == WaitingToHome || acting == WaitingToExtend || acting == Extended;
            input.home == (if acting == Initial then o.home(w.homeAt) else 1) &&
            input.activate == (if waiting then b.activate(m.panel.activateAt) else 1) &&
            input.release == (if acting == SafetyLockout then b.safety(m.panel.safetyAt + 1) else 1) &&
            input.homed == (acting == Homing && PositionPhases.Homing(o, w, m.commanded, m.current, fuel).1 == Finished) &&
            m'.panel.safetyAt == m.panel.safetyAt + (if acting == SafetyLockout then 2 else 1) &&
            m'.panel.activateAt == m.panel.activateAt + (if waiting then 1 else 0) &&
            (acting == Initial ==> m'.panel.world == ReadHome(w)) &&
            (waiting ==> m'.panel.world == HoldPosition(o, w, m.commanded)) &&
            (exhausted ==> acting == Homing || acting == Extending || acting == Sheathing)
  {
    var input := Inputs(b.safety(m.panel.safetyAt), 1, 1, 1, false);
    match Acting(m.state, input)
    case Homing =>
      var (h, outcome) := PositionPhases.Homing(o, m.panel.world, m.commanded, m.current, fuel);
      assert HomeRun(o, m.panel.world, m.commanded, m.current, fuel).1 == outcome;
    case _ =>
  }

  /** An iteration takes back no command, reading or logged torque. */
  lemma IterateGrows(o: Oracle, b: Buttons, c: Config, m: Machine, fuel: nat)
    ensures var m' := Iterate(o, b, c, m, fuel).0;
            Grows(m.panel.world, m'.panel.world) &&
            m.panel.activateAt <= m'.panel.activateAt && m.panel.safetyAt <= m'.panel.safetyAt
  {
    var w := m.panel.world;
    var input := Inputs(b.safety(m.panel.safetyAt), 1, 1, 1, false);
    UpdatesGrow(o, w, Write(Val(m.commanded), Val(0.0)), 0.0, false);
    match Acting(m.state, input)
    case Homing => HomeRunEffect(o, w, m.commanded, m.current, fuel);
    case Extending => ExtendRunEffect(o, w, c, fuel);
    case Sheathing => SheatheRunEffect(o, w, c, fuel);
    case _ =>
  }

  /** `n` iterations from `m`, stopping early when a phase runs out of its bound: the last machine, the inputs of the completed iterations, and whether it stopped early. */
  function Run(o: Oracle, b: Buttons, c: Config, m: Machine, n: nat, fuel: nat): (Machine, seq<Inputs>, bool)
    decreases n
  {
    if n == 0 then (m, [], false)
    else
      var (m1, input, exhausted) := Iterate(o, b, c, m, fuel);
      if exhausted then (m1, [], true)
      else
        var (m2, inputs, exhausted2) := Run(o, b, c, m1, n - 1, fuel);
        (m2, [input] + inputs, exhausted2)
  }

  /**
   * A run completes all its iterations unless it stopped early; completed,
   * it ends in the last state of the trace of its inputs; and it only
   * appends to the logs and advances the read counts.
   */
  lemma {:induction false} RunTrace(o: Oracle, b: Buttons, c: Config, m: Machine, n: nat, fuel: nat)
    ensures var (m', inputs, exhausted) := Run(o, b, c, m, n, fuel);
            |inputs| <= n && (!exhausted ==> |inputs| == n && m'.state == Trace(m.state, inputs)[n]) &&
            Grows(m.panel.world, m'.panel.world) &&
            m.panel.activateAt <= m'.panel.activateAt && m.panel.safetyAt <= m'.panel.safetyAt
    decreases n
  {
    if n > 0 {
      var (m1, input, exhausted) := Iterate(o, b, c, m, fuel);
      IterateGrows(o, b, c, m, fuel);
      if !exhausted {
        IterateFollowsStep(o, b, c, m, fuel);
        RunTrace(o, b, c, m1, n - 1, fuel);
        var (m2, inputs, exhausted2) := Run(o, b, c, m1, n - 1, fuel);
        GrowsTrans(m.panel.world, m1.panel.world, m2.panel.world);
        if !exhausted2 {
          assert Trace(m.state, [input] + inputs) == [m.state] + Trace(m1.state, inputs);
        }
      }
    }
  }

  // ---------------------------------------------------------------- the control program

  /** The rig the control loop sees through the manager and its own two switches. */
  ghost function MachineOf(pm: PositionManager, activateSwitch: Gpio, safetySwitch: Gpio,
                           state: MotorState, commanded: real, current: real): Machine
    reads pm, pm.controller, pm.homeLimitSwitch, pm.extendLimitSwitch, activateSwitch, safetySwitch
  {
    Machine(PanelOf(pm, activateSwitch, safetySwitch), state, commanded, current)
  }

  /**
   * The control program for `iterations` loop iterations, every unbounded
   * phase allowed `phaseFuel` ticks. The first two commands put the
   * controller in a known state and re-zero it at 500; the loop is then Run
   * from Initial with both positions at 500 and an empty torque log. Stops
   * early, with `exhausted`, when a phase uses up its bound; the source
   * would still be inside that phase.
   */
  method ControlLoop(controller: Controller, homeLimitSwitch: Gpio, extendLimitSwitch: Gpio,
                     activateSwitch: Gpio, safetySwitch: Gpio, iterations: nat, phaseFuel: nat)
    returns (states: seq<MotorState>, inputs: seq<Inputs>, exhausted: bool)
    requires homeLimitSwitch != extendLimitSwitch && homeLimitSwitch != activateSwitch && homeLimitSwitch != safetySwitch
    requires extendLimitSwitch != activateSwitch && extendLimitSwitch != safetySwitch && activateSwitch != safetySwitch
    modifies controller, homeLimitSwitch, extendLimitSwitch, activateSwitch, safetySwitch
    ensures var o := Oracle(controller.replies, homeLimitSwitch.values, extendLimitSwitch.values);
            var w0 := World(old(controller.sent) + [Stop, Rezero(500.0)], old(controller.replyAt),
                            old(homeLimitSwitch.readAt), old(extendLimitSwitch.readAt), []);
            var m0 := Machine(Panel(w0, old(activateSwitch.readAt), old(safetySwitch.readAt)), Initial, 500.0, 500.0);
            var (m, ins, ex) := Run(o, Buttons(activateSwitch.values, safetySwitch.values), Program, m0, iterations, phaseFuel);
            inputs == ins && exhausted == ex &&
            controller.sent == m.panel.world.sent && controller.replyAt == m.panel.world.replyAt &&
            homeLimitSwitch.readAt == m.panel.world.homeAt && extendLimitSwitch.readAt == m.panel.world.extendAt &&
            activateSwitch.readAt == m.panel.activateAt && safetySwitch.readAt == m.panel.safetyAt
    ensures states == Trace(Initial, inputs)
    ensures |inputs| <= iterations && (!exhausted ==> |inputs| == iterations)
    ensures forall k :: 0 <= k < |states| ==> states[k] != ExtendError
    ensures old(controller.sent) + [Stop, Rezero(500.0)] <= controller.sent
  {
    controller.SendStopCommand();
    controller.SendRezeroCommand(500.0);
    var startPosition := 500.0;
    var commandedPosition := startPosition;
    var currentPosition := startPosition;
    var positionManager := new PositionManager(controller, homeLimitSwitch, extendLimitSwitch, MaxSpeed,
                                               CruisingEndPosition, CruisingReverseEndPosition,
                                               StepsToAccelerate, DecelerationSteps);
    ghost var o := positionManager.Answers();
    ghost var b := Buttons(activateSwitch.values, safetySwitch.values);
    ghost var c := Program;
    ghost var m0 := MachineOf(positionManager, activateSwitch, safetySwitch, Initial, commandedPosition, currentPosition);
    assert m0 == Machine(Panel(World(old(controller.sent) + [Stop, Rezero(500.0)], old(controller.replyAt),
                                     old(homeLimitSwitch.readAt), old(extendLimitSwitch.readAt), []),
                               old(activateSwitch.readAt), old(safetySwitch.readAt)), Initial, 500.0, 500.0);
    RunTrace(o, b, c, m0, iterations, phaseFuel);
    states, inputs, exhausted := RunLoop(positionManager, activateSwitch, safetySwitch, Initial, commandedPosition, currentPosition,
                                         iterations, phaseFuel);
    ghost var r := Run(o, b, c, m0, iterations, phaseFuel);
    assert r.0.panel == Panel(positionManager.Snap(), activateSwitch.readAt, safetySwitch.readAt);
    assert old(controller.sent) + [Stop, Rezero(500.0)] == m0.panel.world.sent;
    TraceAvoidsExtendError(Initial, inputs);
  }

  /**
   * The while loop of the control program from `state` and the two
   * positions: `iterations` iterations, or fewer when a phase runs out of
   * its bound. The final rig, the values read and `exhausted` are Run's;
   * the states visited are the trace of the values read.
   */
  method RunLoop(positionManager: PositionManager, activateSwitch: Gpio, safetySwitch: Gpio,
                 state0: MotorState, commanded0: real, current0: real, iterations: nat, phaseFuel: nat)
    returns (states: seq<MotorState>, inputs: seq<Inputs>, exhausted: bool)
    requires positionManager.Valid()
    requires activateSwitch != safetySwitch
    requires activateSwitch != positionManager.homeLimitSwitch && activateSwitch != positionManager.extendLimitSwitch
    requires safetySwitch != positionManager.homeLimitSwitch && safetySwitch != positionManager.extendLimitSwitch
    modifies positionManager.controller, positionManager.homeLimitSwitch, positionManager.extendLimitSwitch
    modifies activateSwitch, safetySwitch, positionManager`torques
    ensures var r := Run(positionManager.Answers(), Buttons(activateSwitch.values, safetySwitch.values), ConfigOf(positionManager),
                         old(MachineOf(positionManager, activateSwitch, safetySwitch, state0, commanded0, current0)),
                         iterations, phaseFuel);
            r.0.panel == Panel(positionManager.Snap(), activateSwitch.readAt, safetySwitch.readAt) &&
            inputs == r.1 && exhausted == r.2
    ensures states == Trace(state0, inputs)
  {
    ghost var o := positionManager.Answers();
    ghost var b := Buttons(activateSwitch.values, safetySwitch.values);
    ghost var c := ConfigOf(positionManager);
    ghost var m := MachineOf(positionManager, activateSwitch, safetySwitch, state0, commanded0, current0);
    ghost var spec := Run(o, b, c, m, iterations, phaseFuel);
    var state, commandedPosition, currentPosition := state0, commanded0, current0;
    states, inputs, exhausted := [state0], [], false;
    var n := 0;
    while n < iterations
      invariant n == |inputs| <= iterations
      invariant states == Trace(state0, inputs) && state == states[|inputs|]
      invariant positionManager.Valid() && ConfigOf(positionManager) == c
      invariant m == MachineOf(positionManager, activateSwitch, safetySwitch, state, commandedPosition, currentPosition)
      invariant RunRemains(o, b, c, m, iterations - n, phaseFuel, inputs, spec)
    {
      var next, input, stepExhausted;
      next, input, commandedPosition, currentPosition, stepExhausted :=
        Iteration(positionManager, activateSwitch, safetySwitch, state, commandedPosition, currentPosition, phaseFuel);
      ghost var m' := MachineOf(positionManager, activateSwitch, safetySwitch, next, commandedPosition, currentPosition);
      RunRemainsStep(o, b, c, m, iterations - n, phaseFuel, inputs, spec, m', input, stepExhausted);
      IterateFollowsStep(o, b, c, m, phaseFuel);
      if stepExhausted {
        m := m';
        exhausted := true;
        break;
      }
      TraceSnoc(state0, inputs, input);
      inputs := inputs + [input];
      states := states + [next];
      state := next;
      n := n + 1;
      m := m';
    }
  }

  /** The rest of a run from `m`, `n` iterations long, completes `spec` after the iterations whose inputs were `inputs`. */
  predicate RunRemains(o: Oracle, b: Buttons, c: Config, m: Machine, n: nat, fuel: nat, inputs: seq<Inputs>, spec: (Machine, seq<Inputs>, bool)) {
    var r := Run(o, b, c, m, n, fuel);
    r.0 == spec.0 && inputs + r.1 == spec.1 && r.2 == spec.2
  }

  /** After one more iteration the rest of the run still completes `spec`, or it was the last one when it was cut short. */
  lemma RunRemainsStep(o: Oracle, b: Buttons, c: Config, m: Machine, n: nat, fuel: nat, inputs: seq<Inputs>, spec: (Machine, seq<Inputs>, bool),
                       m': Machine, input: Inputs, exhausted: bool)
    requires n > 0 && RunRemains(o, b, c, m, n, fuel, inputs, spec) && Iterate(o, b, c, m, fuel) == (m', input, exhausted)
    ensures exhausted ==> spec == (m', inputs, true)
    ensures !exhausted ==> RunRemains(o, b, c, m', n - 1, fuel, inputs + [input], spec)
  {
    RunCons(o, b, c, m, n, fuel);
    assert inputs + [] == inputs;
    ConcatAssoc(inputs, [input], Run(o, b, c, m', n - 1, fuel).1);
  }

  /** A run of at least one iteration is that iteration, then the rest of the run unless the iteration was cut short. */
  lemma RunCons(o: Oracle, b: Buttons, c: Config, m: Machine, n: nat, fuel: nat)
    requires n > 0
    ensures var (m1, input, exhausted) := Iterate(o, b, c, m, fuel);
            var rest := Run(o, b, c, m1, n - 1, fuel);
            Run(o, b, c, m, n, fuel) == if exhausted then (m1, [], true) else (rest.0, [input] + rest.1, rest.2)
  {
  }

  /**
   * One iteration of the control loop: read the safety switch, then act in
   * the resulting state, reading the inputs that state reads. The new rig,
   * state and positions, the values read and `exhausted` are Iterate's.
   */
  method Iteration(positionManager: PositionManager, activateSwitch: Gpio, safetySwitch: Gpio,
                   state: MotorState, commandedPosition: real, currentPosition: real, phaseFuel: nat)
    returns (next: MotorState, input: Inputs, commanded: real, current: real, exhausted: bool)
    requires positionManager.Valid()
    requires activateSwitch != safetySwitch
    requires activateSwitch != positionManager.homeLimitSwitch && activateSwitch != positionManager.extendLimitSwitch
    requires safetySwitch != positionManager.homeLimitSwitch && safetySwitch != positionManager.extendLimitSwitch
    modifies positionManager.controller, positionManager.homeLimitSwitch, positionManager.extendLimitSwitch
    modifies activateSwitch, safetySwitch, positionManager`torques
    ensures (MachineOf(positionManager, activateSwitch, safetySwitch, next, commanded, current), input, exhausted) ==
            Iterate(positionManager.Answers(), Buttons(activateSwitch.values, safetySwitch.values), ConfigOf(positionManager),
                    old(MachineOf(positionManager, activateSwitch, safetySwitch, state, commandedPosition, currentPosition)), phaseFuel)
  {
    ghost var o := positionManager.Answers();
    commanded, current, exhausted := commandedPosition, currentPosition, false;
    var safetyOk := safetySwitch.ReadValue();
    input := Inputs(safetyOk, 1, 1, 1, false);
    next := state;
    if safetyOk == 0 {
      next := SafetyLockout;
    }
    if next == Homing || next == Extending || next == Sheathing {
      next, input, commanded, current, exhausted :=
        Move(positionManager, activateSwitch, safetySwitch, next, input, commanded, current, phaseFuel);
    } else {
      next, input, commanded, current, exhausted :=
        Pause(positionManager, activateSwitch, safetySwitch, next, input, commanded, current, phaseFuel);
    }
  }

  /** The states that run a motion phase: Homing, Extending and Sheathing. */
  method Move(positionManager: PositionManager, activateSwitch: Gpio, safetySwitch: Gpio, acting: MotorState,
                 input0: Inputs, commandedPosition: real, currentPosition: real, phaseFuel: nat)
    returns (next: MotorState, input: Inputs, commanded: real, current: real, exhausted: bool)
    requires positionManager.Valid()
    requires activateSwitch != safetySwitch
    requires activateSwitch != positionManager.homeLimitSwitch && activateSwitch != positionManager.extendLimitSwitch
    requires safetySwitch != positionManager.homeLimitSwitch && safetySwitch != positionManager.extendLimitSwitch
    modifies positionManager.controller, positionManager.homeLimitSwitch, positionManager.extendLimitSwitch
    modifies activateSwitch, safetySwitch, positionManager`torques
    ensures (MachineOf(positionManager, activateSwitch, safetySwitch, next, commanded, current), input, exhausted) ==
            Act(positionManager.Answers(), Buttons(activateSwitch.values, safetySwitch.values), ConfigOf(positionManager), acting,
                old(PanelOf(positionManager, activateSwitch, safetySwitch)), input0, commandedPosition, currentPosition, phaseFuel)
    requires acting == Homing || acting == Extending || acting == Sheathing
  {
    ghost var o := positionManager.Answers();
    ghost var p := PanelOf(positionManager, activateSwitch, safetySwitch);
    ghost var c := ConfigOf(positionManager);
    input := input0;
    if acting == Homing {
      var homingSuccess;
      commanded, current, homingSuccess, exhausted := HomeAndSettle(positionManager, commandedPosition, currentPosition, phaseFuel);
      input := input.(homed := homingSuccess);
      next := if homingSuccess then Homed else WaitingToHome;
      assert (MachineOf(positionManager, activateSwitch, safetySwitch, next, commanded, current), input, exhausted) ==
             HomeStep(o, p, input0, commandedPosition, currentPosition, phaseFuel);
    } else if acting == Extending {
      commanded, current, exhausted := Extend(positionManager, phaseFuel);
      next := Extended;
      assert (MachineOf(positionManager, activateSwitch, safetySwitch, next, commanded, current), input, exhausted) ==
             ExtendStep(o, p, input0, c, phaseFuel);
    } else {
      var obstructionEncountered := false;
      commanded, current, exhausted := Sheathe(positionManager, phaseFuel);
      next := if obstructionEncountered then WaitingToHome else Homing;
      assert (MachineOf(positionManager, activateSwitch, safetySwitch, next, commanded, current), input, exhausted) ==
             SheatheStep(o, p, input0, c, phaseFuel);
    }
  }

  /** The states that hold, read a switch or just move on. */
  method Pause(positionManager: PositionManager, activateSwitch: Gpio, safetySwitch: Gpio, acting: MotorState,
                 input0: Inputs, commandedPosition: real, currentPosition: real, phaseFuel: nat)
    returns (next: MotorState, input: Inputs, commanded: real, current: real, exhausted: bool)
    requires positionManager.Valid()
    requires activateSwitch != safetySwitch
    requires activateSwitch != positionManager.homeLimitSwitch && activateSwitch != positionManager.extendLimitSwitch
    requires safetySwitch != positionManager.homeLimitSwitch && safetySwitch != positionManager.extendLimitSwitch
    modifies positionManager.controller, positionManager.homeLimitSwitch, positionManager.extendLimitSwitch
    modifies activateSwitch, safetySwitch, positionManager`torques
    ensures (MachineOf(positionManager, activateSwitch, safetySwitch, next, commanded, current), input, exhausted) ==
            Act(positionManager.Answers(), Buttons(activateSwitch.values, safetySwitch.values), ConfigOf(positionManager), acting,
                old(PanelOf(positionManager, activateSwitch, safetySwitch)), input0, commandedPosition, currentPosition, phaseFuel)
    requires acting != Homing && acting != Extending && acting != Sheathing
  {
    ghost var o := positionManager.Answers();
    ghost var b := Buttons(activateSwitch.values, safetySwitch.values);
    ghost var p := PanelOf(positionManager, activateSwitch, safetySwitch);
    input, commanded, current, exhausted := input0, commandedPosition, currentPosition, false;
    if acting == Initial {
      var home := positionManager.homeLimitSwitch.ReadValue();
      input := input.(home := home);
      next := if home == 0 then Homing else WaitingToHome;
      assert (MachineOf(positionManager, activateSwitch, safetySwitch, next, commanded, current), input, exhausted) ==
             CheckHome(o, p, input0, commandedPosition, currentPosition);
    } else if acting == WaitingToHome || acting == WaitingToExtend || acting == Extended {
      var pressed := if acting == WaitingToHome then Homing else if acting == WaitingToExtend then Extending else Sheathing;
      next := Wait(positionManager, activateSwitch, commanded, acting, pressed);
      input := input.(activate := activateSwitch.values(activateSwitch.readAt - 1));
      assert (MachineOf(positionManager, activateSwitch, safetySwitch, next, commanded, current), input, exhausted) ==
             Await(o, b, p, acting, pressed, input0, commandedPosition, currentPosition);
    } else if acting == Homed {
      next := WaitingToExtend;
    } else if acting == ExtendError {
      next := Initial;
    } else {
      var release;
      next, release := Release(positionManager, safetySwitch, commanded);
      input := input.(release := release);
      assert (MachineOf(positionManager, activateSwitch, safetySwitch, next, commanded, current), input, exhausted) ==
             Lockout(o, b, p, input0, commandedPosition, currentPosition);
    }
  }

  /** The rig of the control program as the manager and the two switches hold it. */
  ghost function PanelOf(pm: PositionManager, activateSwitch: Gpio, safetySwitch: Gpio): Panel
    reads pm, pm.controller, pm.homeLimitSwitch, pm.extendLimitSwitch, activateSwitch, safetySwitch
  {
    Panel(pm.Snap(), activateSwitch.readAt, safetySwitch.readAt)
  }

  /** A waiting state's work: hold the commanded position one tick, then move on if the activate switch reads 0. */
  method Wait(positionManager: PositionManager, activateSwitch: Gpio, commanded: real, stay: MotorState, pressed: MotorState)
    returns (next: MotorState)
    requires positionManager.Valid()
    requires activateSwitch != positionManager.homeLimitSwitch && activateSwitch != positionManager.extendLimitSwitch
    modifies positionManager.controller, activateSwitch
    ensures positionManager.Snap() == PositionPhases.HoldPosition(positionManager.Answers(), old(positionManager.Snap()), commanded)
    ensures activateSwitch.readAt == old(activateSwitch.readAt) + 1
    ensures next == if activateSwitch.values(old(activateSwitch.readAt)) == 0 then pressed else stay
  {
    positionManager.HoldPosition(commanded);
    var activate := activateSwitch.ReadValue();
    next := if activate == 0 then pressed else stay;
  }

  /** SafetyLockout's work: read the safety switch again, 0 meaning released, then hold the commanded position one tick. */
  method Release(positionManager: PositionManager, safetySwitch: Gpio, commanded: real)
    returns (next: MotorState, release: int)
    requires positionManager.Valid()
    requires safetySwitch != positionManager.homeLimitSwitch && safetySwitch != positionManager.extendLimitSwitch
    modifies positionManager.controller, safetySwitch
    ensures positionManager.Snap() == PositionPhases.HoldPosition(positionManager.Answers(), old(positionManager.Snap()), commanded)
    ensures safetySwitch.readAt == old(safetySwitch.readAt) + 1
    ensures release == safetySwitch.values(old(safetySwitch.readAt))
    ensures next == if release == 0 then Initial else SafetyLockout
  {
    release := safetySwitch.ReadValue();
    next := SafetyLockout;
    if release == 0 {
      next := Initial;
    }
    positionManager.HoldPosition(commanded);
  }

  /**
   * The Homing state's work: home, then settle for half a second at the
   * commanded position. Exhausted when homing used up its bound (the source
   * would still be homing); homed when the home switch was reached.
   */
  method HomeAndSettle(positionManager: PositionManager, commandedPosition: real, currentPosition: real, phaseFuel: nat)
    returns (commanded: real, current: real, homingSuccess: bool, exhausted: bool)
    requires positionManager.Valid()
    modifies positionManager.controller, positionManager.homeLimitSwitch, positionManager.extendLimitSwitch
    ensures var (m, outcome) := HomeRun(positionManager.Answers(), old(positionManager.Snap()), commandedPosition, currentPosition, phaseFuel);
            Motion(positionManager.Snap(), commanded, current) == m &&
            homingSuccess == (outcome == Finished) && exhausted == (outcome == OutOfFuel)
  {
    var outcome;
    commanded, current, outcome := positionManager.Homing(commandedPosition, currentPosition, phaseFuel);
    homingSuccess := outcome == Finished;
    exhausted := outcome == OutOfFuel;
    if exhausted {
      return;
    }
    positionManager.HoldPositionDuration(commanded, SettleDuration);
  }

  /**
   * The Extending state's work: re-zero at 500, accelerate, cruise, decelerate
   * and settle, as ExtendRun. Exhausted when the cruise used up its bound.
   */
  method Extend(positionManager: PositionManager, phaseFuel: nat)
    returns (commandedPosition: real, currentPosition: real, exhausted: bool)
    requires positionManager.Valid()
    modifies positionManager.controller, positionManager.extendLimitSwitch, positionManager`torques
    ensures (Motion(positionManager.Snap(), commandedPosition, currentPosition), exhausted) ==
            ExtendRun(positionManager.Answers(), old(positionManager.Snap()), ConfigOf(positionManager), phaseFuel)
  {
    positionManager.controller.SendRezeroCommand(500.0);
    commandedPosition, currentPosition := 500.0, 500.0;
    commandedPosition, currentPosition := positionManager.PerformAcceleration(commandedPosition, currentPosition);
    var outcome;
    commandedPosition, currentPosition, outcome := positionManager.PerformCruising(commandedPosition, currentPosition, phaseFuel);
    if outcome == OutOfFuel {
      return commandedPosition, currentPosition, true;
    }
    var finalPosition;
    commandedPosition, currentPosition, finalPosition := positionManager.PerformDeceleration(commandedPosition, currentPosition);
    positionManager.HoldPositionDuration(commandedPosition, SettleDuration);
    exhausted := false;
  }

  /**
   * The Sheathing state's work: re-zero at 500, then the reverse acceleration,
   * cruise and deceleration, as SheatheRun. Exhausted when the cruise used up its bound.
   */
  method Sheathe(positionManager: PositionManager, phaseFuel: nat)
    returns (commandedPosition: real, currentPosition: real, exhausted: bool)
    requires positionManager.Valid()
    modifies positionManager.controller, positionManager.extendLimitSwitch, positionManager`torques
    ensures (Motion(positionManager.Snap(), commandedPosition, currentPosition), exhausted) ==
            SheatheRun(positionManager.Answers(), old(positionManager.Snap()), ConfigOf(positionManager), phaseFuel)
  {
    positionManager.controller.SendRezeroCommand(500.0);
    commandedPosition, currentPosition := 500.0, 500.0;
    commandedPosition, currentPosition := positionManager.PerformAccelerationReverse(commandedPosition, currentPosition);
    var outcome;
    commandedPosition, currentPosition, outcome := positionManager.PerformCruisingReverse(commandedPosition, currentPosition, phaseFuel);
    if outcome == OutOfFuel {
      return commandedPosition, currentPosition, true;
    }
    commandedPosition, currentPosition := positionManager.PerformDecelerationReverse(commandedPosition, currentPosition);
    exhausted := false;
  }
}
