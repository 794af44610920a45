/**
 * PlayerVerticalMotion: the jump/hover state machine of the player and the
 * vertical velocity it drives.
 *
 * Each frame the machine first advances on three inputs (jump held, grounded,
 * time spent in the current state), then sets gravity and, on entering
 * JUMPING or FLOATING, the initial velocity for the new state, and finally
 * integrates the vertical velocity over the frame.
 *
 * Single-precision floats are modelled as reals; the engine clock
 * (Time.time) and the frame length (Time.deltaTime) are parameters.
 */
module VerticalMotion {

  datatype JumpState = Default | Idle | Jumping | Floating | Released | Landed

  /**
   * The state after one advance of the machine from `s`. `elapsed` is the time
   * spent in `s` so far. FLOATING falls through to the RELEASED landing check,
   * so being grounded wins over a release or a hover timeout in that state.
   */
  function NextJumpState(s: JumpState, jumpPressed: bool, isGrounded: bool,
                         velocity: real, elapsed: real, maxHoverTime: real): (next: JumpState)
    // the first advance leaves DEFAULT, and nothing ever returns to it
    ensures next != Default
    ensures s == Default ==> next == Idle
    // a jump starts only from IDLE, with the button held and the player on the ground
    ensures s == Idle ==> (next == Jumping <==> jumpPressed && isGrounded)
    ensures s == Idle ==> next in {Idle, Jumping}
    ensures next == Jumping ==> s in {Idle, Jumping}
    // releasing the button in JUMPING wins over the peak check
    ensures s == Jumping && !jumpPressed ==> next == Released
    ensures s == Jumping && jumpPressed ==> (next == Floating <==> velocity <= 0.0)
    ensures s == Jumping && jumpPressed && velocity > 0.0 ==> next == Jumping
    ensures s == Jumping ==> next in {Jumping, Released, Floating}
    // FLOATING: landing wins; otherwise release or a strict timeout ends the hover
    ensures s == Floating && isGrounded ==> next == Landed
    ensures s == Floating && !isGrounded ==>
              next == (if !jumpPressed || elapsed > maxHoverTime then Released else Floating)
    ensures s == Released ==> next == (if isGrounded then Landed else Released)
    // LANDED goes back to IDLE only once the button is released: no second jump while held
    ensures s == Landed ==> next == (if jumpPressed then Landed else Idle)
  {
    match s
    case Default => Idle
    case Idle => if jumpPressed && isGrounded then Jumping else Idle
    case Jumping =>
      if !jumpPressed then Released
      else if velocity <= 0.0 then Floating
      else Jumping
    case Floating =>
      var afterHover := if !jumpPressed || elapsed > maxHoverTime then Released else Floating;
      if isGrounded then Landed else afterHover
    case Released => if isGrounded then Landed else Released
    case Landed => if !jumpPressed then Idle else Landed
  }

  /** Initial jump velocity that reaches height `hoverHeight` after `hoverRiseTime`. */
  function LaunchVelocity(hoverHeight: real, hoverRiseTime: real): real
    requires hoverRiseTime != 0.0
  {
    2.0 * hoverHeight / hoverRiseTime
  }

  /** Gravity under which the launch velocity decays to zero after `hoverRiseTime`. */
  function RiseGravity(hoverHeight: real, hoverRiseTime: real): real
    requires hoverRiseTime != 0.0
  {
    -2.0 * hoverHeight / (hoverRiseTime * hoverRiseTime)
  }

  /** Gravity for each state of the machine. */
  function GravityFor(s: JumpState, defaultGravity: real, hoverHeight: real,
                      hoverRiseTime: real, maxHoverTime: real): (g: real)
    requires hoverRiseTime != 0.0 && maxHoverTime != 0.0
    ensures s in {Default, Idle, Landed} ==> g == defaultGravity
    ensures s in {Jumping, Released} ==> g * hoverRiseTime * hoverRiseTime == -2.0 * hoverHeight
    ensures s == Floating ==> g * maxHoverTime * maxHoverTime == -2.0 * hoverHeight
  {
    match s
    case Jumping | Released => RiseGravity(hoverHeight, hoverRiseTime)
    case Floating => -2.0 * hoverHeight / (maxHoverTime * maxHoverTime)
    case _ => defaultGravity
  }

  /**
   * Under the rise gravity, the launch velocity reaches zero after exactly
   * `hoverRiseTime`, by which time the player has risen `hoverHeight`.
   */
  lemma JumpPeaksAtHoverHeight(hoverHeight: real, hoverRiseTime: real)
    requires hoverRiseTime != 0.0
    ensures LaunchVelocity(hoverHeight, hoverRiseTime)
              + RiseGravity(hoverHeight, hoverRiseTime) * hoverRiseTime == 0.0
    ensures LaunchVelocity(hoverHeight, hoverRiseTime) * hoverRiseTime
              + RiseGravity(hoverHeight, hoverRiseTime) * hoverRiseTime * hoverRiseTime / 2.0
              == hoverHeight
  {
  }

  /**
   * Starting from rest under the FLOATING gravity, the player sinks
   * `hoverHeight` in exactly `maxHoverTime`.
   */
  lemma HoverSinksHoverHeight(defaultGravity: real, hoverHeight: real, hoverRiseTime: real, maxHoverTime: real)
    requires hoverRiseTime != 0.0 && maxHoverTime != 0.0
    ensures GravityFor(Floating, defaultGravity, hoverHeight, hoverRiseTime, maxHoverTime)
              * maxHoverTime * maxHoverTime / 2.0 == -hoverHeight
  {
  }

  /**
   * One frame of velocity integration: on the ground a downward velocity is
   * clamped to zero, otherwise gravity acts for `deltaTime`.
   */
  function Integrate(isGrounded: bool, velocity: real, gravity: real, deltaTime: real): real {
    if isGrounded && velocity < 0.0 then 0.0 else velocity + gravity * deltaTime
  }

  /** Velocity after successive airborne frames of lengths `deltaTimes` under constant gravity. */
  function IntegrateAirborne(velocity: real, gravity: real, deltaTimes: seq<real>): real
    decreases |deltaTimes|
  {
    if deltaTimes == [] then velocity
    else IntegrateAirborne(Integrate(false, velocity, gravity, deltaTimes[0]), gravity, deltaTimes[1..])
  }

  function Sum(xs: seq<real>): real
    decreases |xs|
  {
    if xs == [] then 0.0 else xs[0] + Sum(xs[1..])
  }

  /** Under constant gravity the per-frame integration is exact: the velocity changes by gravity times the elapsed time. */
  lemma {:induction false} AirborneIntegrationExact(velocity: real, gravity: real, deltaTimes: seq<real>)
    ensures IntegrateAirborne(velocity, gravity, deltaTimes) == velocity + gravity * Sum(deltaTimes)
    decreases |deltaTimes|
  {
    if deltaTimes != [] {
      var dt := deltaTimes[0];
      AirborneIntegrationExact(velocity + gravity * dt, gravity, deltaTimes[1..]);
      assert gravity * dt + gravity * Sum(deltaTimes[1..]) == gravity * Sum(deltaTimes);
    }
  }

  /**
   * Airborne JUMPING frames, starting from the launch velocity under the rise
   * gravity, bring the velocity to exactly zero once the frame lengths add up
   * to `hoverRiseTime`, and keep it positive (still rising) before that.
   */
  lemma JumpFramesPeakAtRiseTime(hoverHeight: real, hoverRiseTime: real, deltaTimes: seq<real>)
    requires hoverRiseTime > 0.0 && hoverHeight > 0.0
    ensures Sum(deltaTimes) == hoverRiseTime ==>
              IntegrateAirborne(LaunchVelocity(hoverHeight, hoverRiseTime),
                                RiseGravity(hoverHeight, hoverRiseTime), deltaTimes) == 0.0
    ensures Sum(deltaTimes) < hoverRiseTime ==>
              IntegrateAirborne(LaunchVelocity(hoverHeight, hoverRiseTime),
                                RiseGravity(hoverHeight, hoverRiseTime), deltaTimes) > 0.0
  {
    var v0, g := LaunchVelocity(hoverHeight, hoverRiseTime), RiseGravity(hoverHeight, hoverRiseTime);
    AirborneIntegrationExact(v0, g, deltaTimes);
    JumpPeaksAtHoverHeight(hoverHeight, hoverRiseTime);
    var s := Sum(deltaTimes);
    assert v0 + g * s == g * (s - hoverRiseTime);
    assert g < 0.0 by {
      assert g * (hoverRiseTime * hoverRiseTime) == -2.0 * hoverHeight;
    }
    if s < hoverRiseTime {
      assert g * (s - hoverRiseTime) > 0.0;
    }
  }

  /** Per-frame inputs of the machine other than the jump button. */
  datatype Frame = Frame(isGrounded: bool, velocity: real, elapsed: real)

  /** The states visited when the machine advances once per frame with the jump button held throughout. */
  function HeldStates(s: JumpState, frames: seq<Frame>, maxHoverTime: real): (states: seq<JumpState>)
    ensures |states| == |frames|
    decreases |frames|
  {
    if frames == [] then []
    else
      var f := frames[0];
      var next := NextJumpState(s, true, f.isGrounded, f.velocity, f.elapsed, maxHoverTime);
      [next] + HeldStates(next, frames[1..], maxHoverTime)
  }

  /**
   * Holding the jump button after a jump has started (any state past IDLE)
   * never brings the machine back to IDLE, so no second jump can start
   * until the button is released.
   */
  lemma {:induction false} HoldingJumpNeverJumpsAgain(s: JumpState, frames: seq<Frame>, maxHoverTime: real)
    requires s in {Jumping, Floating, Released, Landed}
    ensures forall k :: 0 <= k < |frames| ==>
              HeldStates(s, frames, maxHoverTime)[k] in {Jumping, Floating, Released, Landed}
    ensures s != Jumping ==> Jumping !in HeldStates(s, frames, maxHoverTime)
    decreases |frames|
  {
    if frames != [] {
      var f := frames[0];
      var next := NextJumpState(s, true, f.isGrounded, f.velocity, f.elapsed, maxHoverTime);
      HoldingJumpNeverJumpsAgain(next, frames[1..], maxHoverTime);
      var states := HeldStates(s, frames, maxHoverTime);
      assert states == [next] + HeldStates(next, frames[1..], maxHoverTime);
      forall k | 0 <= k < |frames|
        ensures states[k] in {Jumping, Floating, Released, Landed}
      {
        if k > 0 {
          assert states[k] == HeldStates(next, frames[1..], maxHoverTime)[k - 1];
        }
      }
    }
  }

  class PlayerVerticalMotion {
    var currentState: JumpState
    var changedState: bool
    var currentStateStartTime: real
    var jumpPressed: bool
    var verticalVelocity: real
    var gravity: real

    /** A fresh controller: DEFAULT state, at rest, with the initial gravity of -0.3. */
    constructor ()
      ensures currentState == Default && !changedState && !jumpPressed
      ensures verticalVelocity == 0.0 && gravity == -0.3
      ensures currentStateStartTime == 0.0
    {
      currentState := Default;
      changedState := false;
      currentStateStartTime := 0.0;
      jumpPressed := false;
      verticalVelocity := 0.0;
      gravity := -0.3;
    }

    /** Record the player's jump input; nothing else changes. */
    method UpdateJumpPressed(playerInput: bool)
      modifies this
      ensures jumpPressed == playerInput
      ensures currentState == old(currentState) && changedState == old(changedState)
      ensures currentStateStartTime == old(currentStateStartTime)
      ensures verticalVelocity == old(verticalVelocity) && gravity == old(gravity)
    {
      jumpPressed := playerInput;
    }

    /**
     * Advance the machine at clock time `now`. `changedState` records whether
     * the state changed, and the state's start time is reset exactly then.
     */
    method AdvanceJumpStateMachine(isGrounded: bool, maxHoverTime: real, now: real)
      modifies this
      ensures currentState == NextJumpState(old(currentState), jumpPressed, isGrounded,
                                            verticalVelocity, now - old(currentStateStartTime), maxHoverTime)
      ensures changedState == (currentState != old(currentState))
      ensures currentStateStartTime == if changedState then now else old(currentStateStartTime)
      ensures jumpPressed == old(jumpPressed)
      ensures verticalVelocity == old(verticalVelocity) && gravity == old(gravity)
    {
      var nextState := currentState;
      match currentState {
        case Default =>
          nextState := Idle;
        case Idle =>
          if jumpPressed && isGrounded { nextState := Jumping; }
        case Jumping =>
          if !jumpPressed { nextState := Released; }
          else if verticalVelocity <= 0.0 { nextState := Floating; }
        case Floating =>
          if !jumpPressed || now - currentStateStartTime > maxHoverTime { nextState := Released; }
          // falls through to the RELEASED landing check
          if isGrounded { nextState := Landed; }
        case Released =>
          if isGrounded { nextState := Landed; }
        case Landed =>
          if !jumpPressed { nextState := Idle; }
      }
      changedState := nextState != currentState;
      if changedState {
        currentStateStartTime := now;
      }
      currentState := nextState;
    }

    /**
     * Set gravity for the current state; on entry into JUMPING the velocity
     * becomes the launch velocity and on entry into FLOATING it becomes zero.
     */
    method SetGravityForJumpState(defaultGravity: real, hoverHeight: real, hoverRiseTime: real, maxHoverTime: real)
      requires hoverRiseTime != 0.0 && maxHoverTime != 0.0
      modifies this
      ensures gravity == GravityFor(currentState, defaultGravity, hoverHeight, hoverRiseTime, maxHoverTime)
      ensures verticalVelocity ==
                if changedState && currentState == Jumping then LaunchVelocity(hoverHeight, hoverRiseTime)
                else if changedState && currentState == Floating then 0.0
                else old(verticalVelocity)
      ensures currentState == old(currentState) && changedState == old(changedState)
      ensures currentStateStartTime == old(currentStateStartTime) && jumpPressed == old(jumpPressed)
    {
      match currentState {
        case Jumping =>
          if changedState { verticalVelocity := 2.0 * hoverHeight / hoverRiseTime; }
          // falls through to RELEASED
          gravity := -2.0 * hoverHeight / (hoverRiseTime * hoverRiseTime);
        case Released =>
          gravity := -2.0 * hoverHeight / (hoverRiseTime * hoverRiseTime);
        case Floating =>
          if changedState { verticalVelocity := 0.0; }
          gravity := -2.0 * hoverHeight / (maxHoverTime * maxHoverTime);
        case _ =>
          gravity := defaultGravity;
      }
    }

    /**
     * One frame: advance the machine, set gravity, then integrate. On the ground
     * a downward velocity is clamped to zero; otherwise gravity acts for
     * `deltaTime`. Returns the new stored velocity.
     */
    method UpdateVelocity(isGrounded: bool, defaultGravity: real, hoverHeight: real,
                          hoverRiseTime: real, maxHoverTime: real, now: real, deltaTime: real)
      returns (v: real)
      requires hoverRiseTime != 0.0 && maxHoverTime != 0.0
      modifies this
      ensures currentState == NextJumpState(old(currentState), jumpPressed, isGrounded,
                                            old(verticalVelocity), now - old(currentStateStartTime), maxHoverTime)
      ensures currentState != Default
      ensures changedState == (currentState != old(currentState))
      ensures currentStateStartTime == if changedState then now else old(currentStateStartTime)
      ensures gravity == GravityFor(currentState, defaultGravity, hoverHeight, hoverRiseTime, maxHoverTime)
      ensures var entry := if changedState && currentState == Jumping then LaunchVelocity(hoverHeight, hoverRiseTime)
                           else if changedState && currentState == Floating then 0.0
                           else old(verticalVelocity);
              verticalVelocity == Integrate(isGrounded, entry, gravity, deltaTime)
      ensures v == verticalVelocity
      ensures jumpPressed == old(jumpPressed)
    {
      AdvanceJumpStateMachine(isGrounded, maxHoverTime, now);
      SetGravityForJumpState(defaultGravity, hoverHeight, hoverRiseTime, maxHoverTime);
      if isGrounded && verticalVelocity < 0.0 {
        verticalVelocity := 0.0;
      } else {
        verticalVelocity := verticalVelocity + gravity * deltaTime;
      }
      v := verticalVelocity;
    }
  }
}
