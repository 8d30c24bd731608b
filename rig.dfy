/**
 * The observable state of the test rig between two calls into the motion
 * code: the commands sent to the controller so far, how many replies and
 * switch values have been consumed, and the torque log. The phase methods
 * of the motion managers are specified as functions of this state.
 */
module Rig {
  import opened MyController

  /** What the rig will answer: the n-th reply and the n-th value of each limit switch. */
  datatype Oracle = Oracle(reply: nat -> Reading, home: nat -> int, extend: nat -> int)

  datatype World = World(sent: seq<Command>, replyAt: nat, homeAt: nat, extendAt: nat, torques: seq<real>)

  /** How a phase loop ended: normally, on a detected stall, or by exhausting its tick bound. */
  datatype Outcome = Finished | Stalled | OutOfFuel

  lemma ConcatAssoc<T>(a: seq<T>, b: seq<T>, c: seq<T>)
    ensures (a + b) + c == a + (b + c)
  {
  }

  /** `n` consecutive replies starting at reply number `at`. */
  function Replies(o: Oracle, at: nat, n: nat): (rs: seq<Reading>)
    ensures |rs| == n && forall k :: 0 <= k < n ==> rs[k] == o.reply(at + k)
  {
    seq(n, k requires 0 <= k < n => o.reply(at + k))
  }

  /** The position-valid window of the PositionManager phases. */
  predicate InWindow(position: real) {
    450.0 <= position <= 550.0
  }

  /** The "within 15 of the goal" test of the MotionManager phases. */
  predicate Near(position: real, goal: real) {
    -15.0 <= position - goal <= 15.0
  }

  function Send(w: World, c: Command): World {
    w.(sent := w.sent + [c])
  }

  /** The reply the next read returns. */
  function NextReply(o: Oracle, w: World): Reading {
    o.reply(w.replyAt)
  }

  function Receive(w: World): World {
    w.(replyAt := w.replyAt + 1)
  }

  function Log(w: World, torque: real): World {
    w.(torques := w.torques + [torque])
  }

  function ReadHome(w: World): World {
    w.(homeAt := w.homeAt + 1)
  }

  function ReadExtend(w: World): World {
    w.(extendAt := w.extendAt + 1)
  }

  /** One control tick: send a command that asks for a reply, read it, and maybe log its torque. */
  function Tick(o: Oracle, w: World, c: Command, logTorque: bool): World {
    var w1 := Receive(Send(w, c));
    if logTorque then Log(w1, NextReply(o, w).torque) else w1
  }

  /**
   * `n` ticks of the same command: `n` copies sent, the next `n` replies
   * consumed, no switch read, and the `n` reply torques logged or nothing.
   * RepeatSnoc shows that this is `n` single ticks in a row.
   */
  function Repeat(o: Oracle, w: World, c: Command, n: nat, logTorque: bool): World {
    w.(sent := w.sent + Copies(c, n), replyAt := w.replyAt + n,
       torques := w.torques + (if logTorque then TorquesFrom(o, w.replyAt, n) else []))
  }

  function Copies(c: Command, n: nat): (cs: seq<Command>)
    ensures |cs| == n && forall k :: 0 <= k < n ==> cs[k] == c
  {
    seq(n, _ => c)
  }

  /** A run of copies is one copy followed by the rest. */
  lemma CopiesCons(c: Command, n: nat)
    requires n > 0
    ensures Copies(c, n) == [c] + Copies(c, n - 1)
  {
  }

  /** The torques of `n` consecutive replies from reply number `at`. */
  function TorquesFrom(o: Oracle, at: nat, n: nat): (ts: seq<real>)
    ensures |ts| == n && forall k :: 0 <= k < n ==> ts[k] == o.reply(at + k).torque
  {
    seq(n, k requires 0 <= k < n => o.reply(at + k).torque)
  }

  /** `n` consecutive values of a switch from read number `at`. */
  function Values(f: nat -> int, at: nat, n: nat): (vs: seq<int>)
    ensures |vs| == n && forall k :: 0 <= k < n ==> vs[k] == f(at + k)
  {
    seq(n, k requires 0 <= k < n => f(at + k))
  }

  predicate AllNonZero(vs: seq<int>) {
    forall k :: 0 <= k < |vs| ==> vs[k] != 0
  }

  /** No ticks change nothing; one tick more is one Tick after the others. */
  lemma RepeatSnoc(o: Oracle, w: World, c: Command, n: nat, logTorque: bool)
    ensures Repeat(o, w, c, 0, logTorque) == w
    ensures Repeat(o, w, c, n + 1, logTorque) == Tick(o, Repeat(o, w, c, n, logTorque), c, logTorque)
  {
    assert w.sent + Copies(c, 0) == w.sent;
    assert w.torques + TorquesFrom(o, w.replyAt, 0) == w.torques;
    assert Copies(c, n + 1) == Copies(c, n) + [c];
    ConcatAssoc(w.sent, Copies(c, n), [c]);
    assert TorquesFrom(o, w.replyAt, n + 1) == TorquesFrom(o, w.replyAt, n) + [o.reply(w.replyAt + n).torque];
    ConcatAssoc(w.torques, TorquesFrom(o, w.replyAt, n), [o.reply(w.replyAt + n).torque]);
  }

  /** `w'` is `w` after more activity: the logs were only appended to and the cursors only advanced. */
  predicate Grows(w: World, w': World) {
    w.sent <= w'.sent && w.torques <= w'.torques &&
    w.replyAt <= w'.replyAt && w.homeAt <= w'.homeAt && w.extendAt <= w'.extendAt
  }

  lemma GrowsTrans(w1: World, w2: World, w3: World)
    requires Grows(w1, w2) && Grows(w2, w3)
    ensures Grows(w1, w3)
  {
  }

  /** Every single update grows the state. */
  lemma UpdatesGrow(o: Oracle, w: World, c: Command, t: real, logTorque: bool)
    ensures Grows(w, Send(w, c)) && Grows(w, Receive(w)) && Grows(w, Log(w, t))
    ensures Grows(w, ReadHome(w)) && Grows(w, ReadExtend(w)) && Grows(w, Tick(o, w, c, logTorque))
  {
  }

  lemma RepeatGrows(o: Oracle, w: World, c: Command, n: nat, logTorque: bool)
    ensures Grows(w, Repeat(o, w, c, n, logTorque))
  {
  }

  /**
   * The tick count of a timed hold: duration * 1000000 / 1025 truncated to a
   * whole number, no ticks at all for a duration that is not positive.
   */
  function HoldTicks(duration: real): (n: nat)
    ensures duration > 0.0 ==> n as real <= duration * 1000000.0 / 1025.0 < n as real + 1.0
    ensures duration <= 0.0 ==> n == 0
  {
    var q := duration * 1000000.0 / 1025.0;
    if q <= 0.0 then 0 else q.Floor
  }

  /** The half-second hold the state machine uses is 487 ticks. */
  lemma HalfSecondHold()
    ensures HoldTicks(0.5) == 487
  {
    assert 0.5 * 1000000.0 / 1025.0 == 500000.0 / 1025.0;
    assert 487.0 <= 500000.0 / 1025.0 < 488.0;
  }
}
