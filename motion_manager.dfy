/**
 * MotionManager: the older velocity-mode routines run against the controller
 * and the two limit switches, each proved to leave the rig as the matching
 * function of MotionPhases describes.
 */
module MotionManager {
  import opened Common
  import opened MyController
  import opened MyGpio
  import opened Rig
  import opened MotionPhases
  import opened VelocityCurveGenerator

  class MotionManager {
    const controller: Controller
    const homeLimitSwitch: Gpio
    const extendLimitSwitch: Gpio
    /** The hyperbolic tangent the velocity curves are drawn with. */
    const tanh: real -> real
    var torques: seq<real>

    constructor (controller: Controller, homeLimitSwitch: Gpio, extendLimitSwitch: Gpio, tanh: real -> real)
      requires homeLimitSwitch != extendLimitSwitch
      ensures Valid()
      ensures this.controller == controller && this.homeLimitSwitch == homeLimitSwitch
      ensures this.extendLimitSwitch == extendLimitSwitch && this.tanh == tanh
      ensures torques == []
    {
      this.controller := controller;
      this.homeLimitSwitch := homeLimitSwitch;
      this.extendLimitSwitch := extendLimitSwitch;
      this.tanh := tanh;
      torques := [];
    }

    ghost predicate Valid()
      reads this
    {
      homeLimitSwitch != extendLimitSwitch
    }

    ghost function Snap(): World
      reads this, controller, homeLimitSwitch, extendLimitSwitch
    {
      World(controller.sent, controller.replyAt, homeLimitSwitch.readAt, extendLimitSwitch.readAt, torques)
    }

    ghost function Answers(): Oracle {
      Oracle(controller.replies, homeLimitSwitch.values, extendLimitSwitch.values)
    }

    function GetTorques(): (ts: seq<real>)
      reads this
      ensures ts == torques
    {
      torques
    }

    /** The torque log only ever grows at its end. */
    method AddTorque(torque: real)
      modifies this`torques
      ensures torques == old(torques) + [torque]
    {
      torques := torques + [torque];
    }

    method HoldPosition(position: real, duration: real)
      requires Valid()
      modifies controller, this`torques
      ensures Snap() == MotionPhases.HoldPosition(Answers(), old(Snap()), position, duration)
    {
      var holdTime := HoldTicks(duration);
      ghost var w0 := Snap();
      for i := 0 to holdTime
        invariant Snap() == Repeat(Answers(), w0, HoldWrite(position), i, true)
      {
        controller.SendWriteCommand(Val(position), Val(0.0));
        var controllerState := controller.SendReadCommand();
        AddTorque(controllerState.torque);
        RepeatSnoc(Answers(), w0, HoldWrite(position), i, true);
      }
    }

    /** The same hold as HoldPosition; only the sleep call between write and read differs. */
    method HoldPositionNanosleep(position: real, duration: real)
      requires Valid()
      modifies controller, this`torques
      ensures Snap() == MotionPhases.HoldPosition(Answers(), old(Snap()), position, duration)
    {
      var holdTime := HoldTicks(duration);
      ghost var w0 := Snap();
      for i := 0 to holdTime
        invariant Snap() == Repeat(Answers(), w0, HoldWrite(position), i, true)
      {
        controller.SendWriteCommand(Val(position), Val(0.0));
        var controllerState := controller.SendReadCommand();
        AddTorque(controllerState.torque);
        RepeatSnoc(Answers(), w0, HoldWrite(position), i, true);
      }
    }

    /** The position argument is never used: every command leaves the position as is. */
    method HoldPositionNan(position: real, duration: real)
      requires Valid()
      modifies controller
      ensures Snap() == MotionPhases.HoldPositionNan(old(Snap()), duration)
    {
      var holdTime := HoldTicks(duration);
      ghost var w0 := Snap();
      for i := 0 to holdTime
        invariant Snap() == w0.(sent := w0.sent + Copies(WriteOnly(Unchanged, Val(0.0)), i))
      {
        controller.SendWriteOnlyCommand(Unchanged, Val(0.0));
        assert Copies(WriteOnly(Unchanged, Val(0.0)), i + 1) == Copies(WriteOnly(Unchanged, Val(0.0)), i) + [WriteOnly(Unchanged, Val(0.0))];
      }
    }

    method RunAcceleration(startVel: real, endVel: real, steps: int, goalPosition: real) returns (finalVelocity: real)
      requires Valid() && steps > 0
      modifies controller, extendLimitSwitch, this`torques
      ensures (Snap(), finalVelocity) ==
              MotionPhases.RunAcceleration(Answers(), old(Snap()), tanh, startVel, endVel, steps, goalPosition)
    {
      ghost var w0 := Snap();
      var generator := new VelocityCurveGenerator(tanh, startVel, endVel, steps);
      var velocities := generator.GetVelocities();
      CurveLength(tanh, startVel, endVel, steps);
      finalVelocity := velocities[|velocities| - 1];
      assert Snap() == w0;
      var i := 0;
      while i < |velocities|
        invariant 0 <= i <= |velocities|
        invariant VelocitySweep(Answers(), Snap(), velocities[i..], goalPosition) ==
                  VelocitySweep(Answers(), w0, velocities, goalPosition)
      {
        ghost var rest := velocities[i..];
        assert rest[0] == velocities[i] && rest[1..] == velocities[i + 1..];
        var stop := AccelerationTick(velocities[i], goalPosition, rest);
        if stop {
          break;
        }
        i := i + 1;
      }
    }

    /** One tick of runAcceleration over the remaining velocities `rest`; `stop` when the loop breaks after it. */
    method AccelerationTick(velocity: real, goalPosition: real, ghost rest: seq<real>) returns (stop: bool)
      requires Valid() && rest != [] && rest[0] == velocity
      modifies controller, extendLimitSwitch, this`torques
      ensures stop ==> Snap() == VelocitySweep(Answers(), old(Snap()), rest, goalPosition)
      ensures !stop ==> VelocitySweep(Answers(), Snap(), rest[1..], goalPosition) ==
                        VelocitySweep(Answers(), old(Snap()), rest, goalPosition)
    {
      ghost var wb := Snap();
      controller.SendWriteCommand(Unchanged, Val(velocity));
      var controllerState := controller.SendReadCommand();
      var currentPosition := controllerState.position;
      assert controllerState == NextReply(Answers(), wb);
      assert Snap() == Receive(Send(wb, VelocityWrite(velocity)));
      stop := false;
      if Near(currentPosition, goalPosition) {
        AddTorque(controllerState.torque);
        if controllerState.torque >= 0.5 {
          return true;
        }
        var extend := extendLimitSwitch.ReadValue();
        if extend == 0 {
          return true;
        }
      }
    }

    /** A stub in the source: it commands nothing and returns 1. */
    method RunPositionAcceleration(startVel: real, endVel: real, steps: int, goalPosition: real) returns (r: real)
      ensures r == 1.0
    {
      return 1.0;
    }

    /** None when `fuel` ticks passed without a stopping reading; the source loops on. */
    method MaintainStableVelocity(velocity: real, goalPosition: real, fuel: nat) returns (result: Option<real>)
      requires Valid()
      modifies controller, extendLimitSwitch, this`torques
      ensures (Snap(), result) == StableLoop(Answers(), old(Snap()), velocity, goalPosition, fuel)
    {
      ghost var spec := StableLoop(Answers(), Snap(), velocity, goalPosition, fuel);
      var left := fuel;
      while left > 0
        invariant StableLoop(Answers(), Snap(), velocity, goalPosition, left) == spec
        decreases left
      {
        controller.SendWriteCommand(Unchanged, Val(velocity));
        var controllerState := controller.SendReadCommand();
        var currentPosition := controllerState.position;
        left := left - 1;
        if Near(currentPosition, goalPosition) {
          AddTorque(controllerState.torque);
          if controllerState.torque >= 0.8 {
            return Some(currentPosition);
          }
          if currentPosition <= goalPosition {
            return Some(currentPosition);
          }
          var extend := extendLimitSwitch.ReadValue();
          if extend == 0 {
            return Some(currentPosition);
          }
        }
      }
      return None;
    }

    method GetInitialPosition() returns (initialPosition: real)
      requires Valid()
      modifies controller
      ensures (Snap(), initialPosition) == InitialPosition(Answers(), old(Snap()))
    {
      ghost var w0 := Snap();
      initialPosition := 0.0;
      for i := 0 to 3
        invariant Snap() == Repeat(Answers(), w0, Query, i, false)
        invariant i == 3 ==> initialPosition == Answers().reply(w0.replyAt + 2).position
      {
        controller.SendQueryCommand();
        var controllerState := controller.SendReadCommand();
        RepeatSnoc(Answers(), w0, Query, i, false);
        if i == 2 {
          initialPosition := controllerState.position;
        }
      }
    }

    method GetPosition() returns (position: real)
      requires Valid()
      modifies controller
      ensures Snap() == Tick(Answers(), old(Snap()), Query, false)
      ensures position == Answers().reply(old(controller.replyAt)).position
    {
      controller.SendQueryCommand();
      var controllerState := controller.SendReadCommand();
      position := controllerState.position;
    }

    /** Reads the torque of a fresh query reply (the source logs it as a position). */
    method GetTorque() returns (torque: real)
      requires Valid()
      modifies controller
      ensures Snap() == Tick(Answers(), old(Snap()), Query, false)
      ensures torque == Answers().reply(old(controller.replyAt)).torque
    {
      controller.SendQueryCommand();
      var controllerState := controller.SendReadCommand();
      torque := controllerState.torque;
    }

    method HomingNanosleep(initialPosition: real, fuel: nat) returns (outcome: Outcome)
      requires Valid()
      modifies controller, homeLimitSwitch, this`torques
      ensures (Snap(), outcome) == MotionPhases.HomingNanosleep(Answers(), old(Snap()), initialPosition, fuel)
    {
      ghost var spec := MotionPhases.HomingNanosleep(Answers(), Snap(), initialPosition, fuel);
      var index: nat := 0;
      var left := fuel;
      while left > 0
        invariant BlindHomingLoop(Answers(), Snap(), initialPosition, index, left) == spec
        decreases left
      {
        ghost var wb := Snap();
        controller.SendWriteCommand(Unchanged, Val(4.5));
        var controllerState := controller.SendReadCommand();
        assert controllerState == NextReply(Answers(), wb);
        assert Snap() == Receive(Send(wb, VelocityWrite(BlindHomingVelocity)));
        index := index + 1;
        left := left - 1;
        var currentPosition := controllerState.position;
        if Near(currentPosition, initialPosition) {
          AddTorque(controllerState.torque);
          if index > 13 {
            if controllerState.torque >= 0.05 {
              Backoff();
              return Stalled;
            }
          }
          var home := homeLimitSwitch.ReadValue();
          if home == 0 {
            return Finished;
          }
        }
      }
      return OutOfFuel;
    }

    /** The 100 reverse ticks after a homing stall, each logging its torque. */
    method Backoff()
      requires Valid()
      modifies controller, this`torques
      ensures Snap() == BlindBackoff(Answers(), old(Snap()))
    {
      ghost var w0 := Snap();
      for i := 0 to 100
        invariant Snap() == Repeat(Answers(), w0, VelocityWrite(-BlindHomingVelocity), i, true)
      {
        controller.SendWriteCommand(Unchanged, Val(-4.5));
        var controllerState := controller.SendReadCommand();
        AddTorque(controllerState.torque);
        RepeatSnoc(Answers(), w0, VelocityWrite(-BlindHomingVelocity), i, true);
      }
    }
  }
}
