/**
 * PositionManager: the position-mode motion phases run against the controller
 * and the two limit switches. Every phase method is proved to leave the rig in
 * exactly the state the matching function of PositionPhases describes.
 */
module PositionManager {
  import opened Common
  import opened MyController
  import opened MyGpio
  import opened Rig
  import opened PositionPhases

  class PositionManager {
    const controller: Controller
    const homeLimitSwitch: Gpio
    const extendLimitSwitch: Gpio
    var maxSpeed: real
    const cruisingEndPosition: real
    const cruisingReverseEndPosition: real
    const stepsToAccelerate: nat
    const decelerationSteps: nat
    var torques: seq<real>

    constructor (controller: Controller, homeLimitSwitch: Gpio, extendLimitSwitch: Gpio,
                 maxSpeed: real, cruisingEndPosition: real, cruisingReverseEndPosition: real,
                 stepsToAccelerate: nat, decelerationSteps: nat)
      requires homeLimitSwitch != extendLimitSwitch
      ensures Valid()
      ensures this.controller == controller && this.homeLimitSwitch == homeLimitSwitch
      ensures this.extendLimitSwitch == extendLimitSwitch && this.maxSpeed == maxSpeed
      ensures this.cruisingEndPosition == cruisingEndPosition
      ensures this.cruisingReverseEndPosition == cruisingReverseEndPosition
      ensures this.stepsToAccelerate == stepsToAccelerate && this.decelerationSteps == decelerationSteps
      ensures torques == []
    {
      this.controller := controller;
      this.homeLimitSwitch := homeLimitSwitch;
      this.extendLimitSwitch := extendLimitSwitch;
      this.maxSpeed := maxSpeed;
      this.cruisingEndPosition := cruisingEndPosition;
      this.cruisingReverseEndPosition := cruisingReverseEndPosition;
      this.stepsToAccelerate := stepsToAccelerate;
      this.decelerationSteps := decelerationSteps;
      torques := [];
    }

    /** The two switches are distinct lines, so their reads are counted separately. */
    ghost predicate Valid()
      reads this
    {
      homeLimitSwitch != extendLimitSwitch
    }

    /** The rig as the phase functions see it. */
    ghost function Snap(): World
      reads this, controller, homeLimitSwitch, extendLimitSwitch
    {
      World(controller.sent, controller.replyAt, homeLimitSwitch.readAt, extendLimitSwitch.readAt, torques)
    }

    /** What the controller and the switches will answer. */
    ghost function Answers(): Oracle {
      Oracle(controller.replies, homeLimitSwitch.values, extendLimitSwitch.values)
    }

    method ChangeMaxSpeed(newMaxSpeed: real)
      modifies this`maxSpeed
      ensures maxSpeed == newMaxSpeed
    {
      maxSpeed := newMaxSpeed;
    }

    function GetTorques(): (ts: seq<real>)
      reads this
      ensures ts == torques
    {
      torques
    }

    /** The acceleration waypoints, built as the source does by accumulating the velocity. */
    method BuildRamp(start: real, accelerationPerStep: real) returns (accelPositions: seq<real>)
      ensures accelPositions == AccelPositions(start, accelerationPerStep, stepsToAccelerate)
    {
      accelPositions := [start];
      var currentVelocity := 0.0;
      for i := 1 to stepsToAccelerate + 1
        invariant accelPositions == AccelPositions(start, accelerationPerStep, i - 1)
        invariant currentVelocity == (i - 1) as real * accelerationPerStep
      {
        currentVelocity := currentVelocity + accelerationPerStep;
        assert currentVelocity == i as real * accelerationPerStep;
        var newPosition := accelPositions[|accelPositions| - 1] + currentVelocity;
        AccelPositionsSnoc(start, accelerationPerStep, i);
        accelPositions := accelPositions + [newPosition];
      }
    }

    method PerformAcceleration(commandedPosition: real, currentPosition: real) returns (commanded: real, current: real)
      requires Valid()
      modifies controller
      ensures Motion(Snap(), commanded, current) ==
              Acceleration(Answers(), old(Snap()), commandedPosition, currentPosition, maxSpeed, stepsToAccelerate, true)
    {
      var accelerationPerStep := AccelPerStep(maxSpeed, stepsToAccelerate, true);
      var accelPositions := BuildRamp(currentPosition, accelerationPerStep);
      ghost var w0 := Snap();
      commanded, current := commandedPosition, currentPosition;
      for i := 0 to |accelPositions|
        invariant Sweep(Answers(), Snap(), accelPositions[i..], current, false) ==
                  Sweep(Answers(), w0, accelPositions, currentPosition, false)
        invariant i > 0 ==> commanded == accelPositions[i - 1]
      {
        commanded := accelPositions[i];
        controller.SendWriteCommand(Val(commanded), Unchanged);
        var controllerState := controller.SendReadCommand();
        if InWindow(controllerState.position) {
          current := controllerState.position;
        }
        assert accelPositions[i..][1..] == accelPositions[i + 1..];
      }
    }

    method PerformAccelerationReverse(commandedPosition: real, currentPosition: real) returns (commanded: real, current: real)
      requires Valid()
      modifies controller, this`torques
      ensures Motion(Snap(), commanded, current) ==
              Acceleration(Answers(), old(Snap()), commandedPosition, currentPosition, maxSpeed, stepsToAccelerate, false)
    {
      var accelerationPerStep := AccelPerStep(maxSpeed, stepsToAccelerate, false);
      var accelPositions := BuildRamp(currentPosition, accelerationPerStep);
      ghost var w0 := Snap();
      commanded, current := commandedPosition, currentPosition;
      for i := 0 to |accelPositions|
        invariant Sweep(Answers(), Snap(), accelPositions[i..], current, true) ==
                  Sweep(Answers(), w0, accelPositions, currentPosition, true)
        invariant i > 0 ==> commanded == accelPositions[i - 1]
      {
        ghost var wb := Snap();
        commanded := accelPositions[i];
        controller.SendWriteCommand(Val(commanded), Unchanged);
        var controllerState := controller.SendReadCommand();
        assert controllerState == NextReply(Answers(), wb);
        assert Snap() == Receive(Send(wb, Write(Val(commanded), Unchanged)));
        if InWindow(controllerState.position) {
          current := controllerState.position;
          torques := torques + [controllerState.torque];
        }
        assert accelPositions[i..][1..] == accelPositions[i + 1..];
      }
    }

    /** The 250 recovery ticks after a cruise stall, each logging its torque. */
    method RecoveryBurst()
      requires Valid()
      modifies controller, this`torques
      ensures Snap() == Repeat(Answers(), old(Snap()), RecoveryCommand, RecoveryTicks, true)
    {
      ghost var w0 := Snap();
      for i := 0 to RecoveryTicks
        invariant Snap() == Repeat(Answers(), w0, RecoveryCommand, i, true)
      {
        controller.SendWriteCommand(Unchanged, Val(-2.5));
        var controllerState := controller.SendReadCommand();
        torques := torques + [controllerState.torque];
        RepeatSnoc(Answers(), w0, RecoveryCommand, i, true);
      }
    }

    /**
     * What both cruises do on a stall: print the extend switch, stop, re-zero
     * at the rest position and run the recovery burst.
     */
    method StallRecovery()
      requires Valid()
      modifies controller, extendLimitSwitch, this`torques
      ensures Snap() == PositionPhases.StallRecovery(Answers(), old(Snap()))
    {
      var printed := extendLimitSwitch.ReadValue();
      controller.SendStopCommand();
      controller.SendRezeroCommand(500.0);
      RecoveryBurst();
    }

    method PerformCruising(commandedPosition: real, currentPosition: real, fuel: nat)
      returns (commanded: real, current: real, outcome: Outcome)
      requires Valid()
      modifies controller, extendLimitSwitch, this`torques
      ensures (Motion(Snap(), commanded, current), outcome) ==
              Cruise(Answers(), ForwardCruise(maxSpeed, cruisingEndPosition), old(Snap()), commandedPosition, currentPosition, fuel)
    {
      ghost var p := ForwardCruise(maxSpeed, cruisingEndPosition);
      ghost var spec := Cruise(Answers(), p, Snap(), commandedPosition, currentPosition, fuel);
      var stableVelocity := -maxSpeed;
      var index: nat := 0;
      var left := fuel;
      commanded, current := commandedPosition, currentPosition;
      while current >= cruisingEndPosition && left > 0
        invariant CruiseLoop(Answers(), p, Snap(), commanded, current, index, left) == spec
        decreases left
      {
        commanded := commanded + stableVelocity;
        controller.SendWriteCommand(Val(commanded), Unchanged);
        var controllerState := controller.SendReadCommand();
        index := index + 1;
        left := left - 1;
        if InWindow(controllerState.position) {
          current := controllerState.position;
          if index > 23 {
            if controllerState.torque >= 0.20 {
              StallRecovery();
              commanded, current := 500.0, 500.0;
              outcome := Stalled;
              return;
            }
          }
        }
      }
      outcome := if current >= cruisingEndPosition then OutOfFuel else Finished;
    }

    method PerformCruisingReverse(commandedPosition: real, currentPosition: real, fuel: nat)
      returns (commanded: real, current: real, outcome: Outcome)
      requires Valid()
      modifies controller, extendLimitSwitch, this`torques
      ensures (Motion(Snap(), commanded, current), outcome) ==
              Cruise(Answers(), ReverseCruise(maxSpeed, cruisingReverseEndPosition), old(Snap()), commandedPosition, currentPosition, fuel)
    {
      ghost var p := ReverseCruise(maxSpeed, cruisingReverseEndPosition);
      ghost var spec := Cruise(Answers(), p, Snap(), commandedPosition, currentPosition, fuel);
      torques := torques + [0.0];
      var stableVelocity := maxSpeed;
      var index: nat := 0;
      var left := fuel;
      commanded, current := commandedPosition, currentPosition;
      while current <= cruisingReverseEndPosition && left > 0
        invariant CruiseLoop(Answers(), p, Snap(), commanded, current, index, left) == spec
        decreases left
      {
        commanded := commanded + stableVelocity;
        controller.SendWriteCommand(Val(commanded), Unchanged);
        var controllerState := controller.SendReadCommand();
        index := index + 1;
        left := left - 1;
        if InWindow(controllerState.position) {
          current := controllerState.position;
          torques := torques + [controllerState.torque];
          if index > 7 {
            if controllerState.torque >= 0.40 {
              StallRecovery();
              commanded, current := 500.0, 500.0;
              outcome := Stalled;
              return;
            }
          }
        }
      }
      outcome := if current <= cruisingReverseEndPosition then OutOfFuel else Finished;
    }

    /** Returns the current position as well, as the source's return value. */
    method PerformDeceleration(commandedPosition: real, currentPosition: real)
      returns (commanded: real, current: real, result: real)
      requires Valid()
      modifies controller, extendLimitSwitch
      ensures Motion(Snap(), commanded, current) ==
              Deceleration(Answers(), old(Snap()), commandedPosition, currentPosition, maxSpeed, decelerationSteps)
      ensures result == current
    {
      ghost var spec := Deceleration(Answers(), Snap(), commandedPosition, currentPosition, maxSpeed, decelerationSteps);
      var stableReverseVelocity := -maxSpeed;
      var currentVelocity := stableReverseVelocity;
      var decelerationRate := DecelRate(maxSpeed, decelerationSteps);
      commanded, current := commandedPosition, currentPosition;
      var step := 0;
      while step < decelerationSteps
        invariant 0 <= step <= decelerationSteps
        invariant DecelLoop(Answers(), Snap(), commanded, current, currentVelocity, decelerationRate, decelerationSteps - step) == spec
      {
        var done;
        commanded, current, currentVelocity, done :=
          DecelerationTick(commanded, current, currentVelocity, decelerationRate, decelerationSteps - step);
        if done {
          break;
        }
        step := step + 1;
      }
      result := current;
    }

    /** One tick of performDeceleration; `done` when the loop breaks after it. */
    method DecelerationTick(commandedPosition: real, currentPosition: real, currentVelocity: real,
                            decelerationRate: real, ghost left: nat)
      returns (commanded: real, current: real, velocity: real, done: bool)
      requires Valid() && left > 0
      modifies controller, extendLimitSwitch
      ensures done ==> Motion(Snap(), commanded, current) ==
                       DecelLoop(Answers(), old(Snap()), commandedPosition, currentPosition, currentVelocity, decelerationRate, left)
      ensures !done ==> DecelLoop(Answers(), Snap(), commanded, current, velocity, decelerationRate, left - 1) ==
                        DecelLoop(Answers(), old(Snap()), commandedPosition, currentPosition, currentVelocity, decelerationRate, left)
    {
      ghost var wb := Snap();
      commanded, current := commandedPosition + currentVelocity, currentPosition;
      controller.SendWriteCommand(Val(commanded), Unchanged);
      var controllerState := controller.SendReadCommand();
      assert controllerState == NextReply(Answers(), wb);
      assert Snap() == Receive(Send(wb, Write(Val(commanded), Unchanged)));
      if InWindow(controllerState.position) {
        current := controllerState.position;
      }
      velocity := currentVelocity - decelerationRate;
      done := true;
      if velocity >= 0.0 {
        return;
      }
      var extend := extendLimitSwitch.ReadValue();
      done := extend == 0;
    }

    method PerformDecelerationReverse(commandedPosition: real, currentPosition: real)
      returns (commanded: real, current: real)
      requires Valid()
      modifies controller, this`torques
      ensures Motion(Snap(), commanded, current) ==
              DecelerationReverse(Answers(), old(Snap()), commandedPosition, currentPosition, maxSpeed, decelerationSteps)
    {
      ghost var spec := DecelerationReverse(Answers(), Snap(), commandedPosition, currentPosition, maxSpeed, decelerationSteps);
      var stableVelocity := maxSpeed;
      var currentVelocity := stableVelocity;
      var decelerationRate := DecelRate(maxSpeed, decelerationSteps);
      commanded, current := commandedPosition, currentPosition;
      var step := 0;
      while step < decelerationSteps
        invariant 0 <= step <= decelerationSteps
        invariant DecelReverseLoop(Answers(), Snap(), commanded, current, currentVelocity, decelerationRate, decelerationSteps - step) == spec
      {
        commanded := commanded + currentVelocity;
        controller.SendWriteCommand(Val(commanded), Unchanged);
        var controllerState := controller.SendReadCommand();
        currentVelocity := currentVelocity - decelerationRate;
        if InWindow(controllerState.position) {
          current := controllerState.position;
          torques := torques + [controllerState.torque];
        }
        if currentVelocity <= 0.0 {
          break;
        }
        step := step + 1;
      }
    }

    method HoldPosition(position: real)
      requires Valid()
      modifies controller
      ensures Snap() == PositionPhases.HoldPosition(Answers(), old(Snap()), position)
    {
      controller.SendWriteCommand(Val(position), Val(0.0));
      var controllerState := controller.SendReadCommand();
    }

    method HoldPositionDuration(position: real, duration: real)
      requires Valid()
      modifies controller
      ensures Snap() == PositionPhases.HoldPositionDuration(Answers(), old(Snap()), position, duration)
    {
      var holdTime := HoldTicks(duration);
      ghost var w0 := Snap();
      for i := 0 to holdTime
        invariant Snap() == Repeat(Answers(), w0, Write(Val(position), Val(0.0)), i, false)
      {
        controller.SendWriteCommand(Val(position), Val(0.0));
        var controllerState := controller.SendReadCommand();
        RepeatSnoc(Answers(), w0, Write(Val(position), Val(0.0)), i, false);
      }
    }

    method HoldPositionNan()
      requires Valid()
      modifies controller
      ensures Snap() == PositionPhases.HoldPositionNan(Answers(), old(Snap()))
    {
      controller.SendWriteCommand(Unchanged, Val(0.0));
      var controllerState := controller.SendReadCommand();
    }

    /** The duration is converted to a tick count that is then never used: one tick whatever the duration. */
    method HoldPositionNanDuration(duration: real)
      requires Valid()
      modifies controller
      ensures Snap() == PositionPhases.HoldPositionNan(Answers(), old(Snap()))
    {
      var holdTime := HoldTicks(duration);
      controller.SendWriteCommand(Unchanged, Val(0.0));
      var controllerState := controller.SendReadCommand();
    }

    /** The 100 backoff ticks after a homing stall; no torque is logged. */
    method HomingBackoff()
      requires Valid()
      modifies controller
      ensures Snap() == Repeat(Answers(), old(Snap()), Write(Unchanged, Val(-HomingVelocity)), BackoffTicks, false)
    {
      ghost var w0 := Snap();
      for i := 0 to BackoffTicks
        invariant Snap() == Repeat(Answers(), w0, Write(Unchanged, Val(-HomingVelocity)), i, false)
      {
        controller.SendWriteCommand(Unchanged, Val(-4.5));
        var controllerState := controller.SendReadCommand();
        RepeatSnoc(Answers(), w0, Write(Unchanged, Val(-HomingVelocity)), i, false);
      }
    }

    /** Finished means homed (the source returns true), Stalled means obstructed (false). */
    method Homing(commandedPosition: real, currentPosition: real, fuel: nat)
      returns (commanded: real, current: real, outcome: Outcome)
      requires Valid()
      modifies controller, homeLimitSwitch, extendLimitSwitch
      ensures (Motion(Snap(), commanded, current), outcome) ==
              PositionPhases.Homing(Answers(), old(Snap()), commandedPosition, currentPosition, fuel)
    {
      ghost var spec := PositionPhases.Homing(Answers(), Snap(), commandedPosition, currentPosition, fuel);
      controller.SendRezeroCommand(500.0);
      var index: nat := 0;
      var left := fuel;
      commanded, current := commandedPosition, currentPosition;
      while left > 0
        invariant HomingLoop(Answers(), Snap(), commanded, current, index, left) == spec
        decreases left
      {
        var home := homeLimitSwitch.ReadValue();
        if home == 0 {
          controller.SendRezeroCommand(500.0);
          commanded, current := 500.0, 500.0;
          outcome := Finished;
          return;
        }
        controller.SendWriteCommand(Unchanged, Val(4.5));
        var controllerState := controller.SendReadCommand();
        index := index + 1;
        left := left - 1;
        if InWindow(controllerState.position) {
          current := controllerState.position;
          commanded := current;
          if index > 20 {
            if controllerState.torque >= 0.13 {
              var printed := extendLimitSwitch.ReadValue();
              var extend := extendLimitSwitch.ReadValue();
              if extend != 0 {
                HomingBackoff();
              }
              controller.SendRezeroCommand(500.0);
              commanded, current := 500.0, 500.0;
              outcome := Stalled;
              return;
            }
          }
        }
      }
      outcome := OutOfFuel;
    }

    /** Returns None when `fuel` batches all missed the window; the source loops on. */
    method TripleQuery(fuel: nat) returns (position: Option<real>)
      requires Valid()
      modifies controller
      ensures (Snap(), position) == TripleQueryLoop(Answers(), old(Snap()), fuel)
    {
      ghost var spec := TripleQueryLoop(Answers(), Snap(), fuel);
      var left := fuel;
      while left > 0
        invariant TripleQueryLoop(Answers(), Snap(), left) == spec
        decreases left
      {
        var positions := QueryBatch();
        var found := FirstValid(positions);
        if found.Some? {
          return found;
        }
        left := left - 1;
      }
      position := None;
    }

    /** One batch of tripleQuery: three queries, each reply's position stored in turn. */
    method QueryBatch() returns (positions: seq<real>)
      requires Valid()
      modifies controller
      ensures Snap() == Repeat(Answers(), old(Snap()), Query, 3, false)
      ensures positions == Positions(Replies(Answers(), old(Snap()).replyAt, 3))
    {
      ghost var wb := Snap();
      positions := [0.0, 0.0, 0.0];
      for i := 0 to 3
        invariant |positions| == 3
        invariant Snap() == Repeat(Answers(), wb, Query, i, false)
        invariant positions[..i] == Positions(Replies(Answers(), wb.replyAt, i))
      {
        controller.SendQueryCommand();
        var controllerState := controller.SendReadCommand();
        RepeatSnoc(Answers(), wb, Query, i, false);
        positions := positions[i := controllerState.position];
        assert positions[..i + 1] == positions[..i] + [controllerState.position];
      }
      assert positions == positions[..3];
    }

    /** The scan of a batch: the first position in the window, if any. */
    static method FirstValid(positions: seq<real>) returns (found: Option<real>)
      ensures found == FirstInWindow(positions)
    {
      for j := 0 to |positions|
        invariant FirstInWindow(positions) == FirstInWindow(positions[j..])
      {
        if InWindow(positions[j]) {
          return Some(positions[j]);
        }
        assert positions[j..][1..] == positions[j + 1..];
      }
      assert positions[|positions|..] == [];
      found := None;
    }

    method ValidQuery() returns (position: real)
      requires Valid()
      modifies controller
      ensures (Snap(), position) == ValidQueryLoop(Answers(), old(Snap()), 0)
    {
      ghost var spec := ValidQueryLoop(Answers(), Snap(), 0);
      var attemptCount := 0;
      var maxAttempts := 5;
      var lowerBound := 450.0;
      var upperBound := 550.0;
      while attemptCount < maxAttempts
        invariant 0 <= attemptCount <= MaxAttempts
        invariant ValidQueryLoop(Answers(), Snap(), attemptCount) == spec
      {
        controller.SendQueryCommand();
        var controllerState := controller.SendReadCommand();
        var p := controllerState.position;
        if lowerBound <= p && p <= upperBound {
          return p;
        }
        attemptCount := attemptCount + 1;
      }
      return -1.0;
    }
  }
}
