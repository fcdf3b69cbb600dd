/**
 * The vertical half of `Update` on the player's jump state: buffer expiry,
 * ground reset or gravity with a terminal-speed clamp, and the (double) jump.
 */
module Physics {
  import opened Config

  /** The player fields the vertical phase updates. */
  datatype JumpState = JumpState(vertVel: real, jumpCount: nat, requested: bool, bufferTime: real)

  /** `dt = min(dt, MaxDT)`. */
  function ClampDt(dt: real): (d: real)
    ensures d <= MaxDT && d <= dt
    ensures d == dt || d == MaxDT
  {
    if dt < MaxDT then dt else MaxDT
  }

  /** A buffered request counts down by dt; once the count reaches zero the request is dropped. */
  function ExpireBuffer(j: JumpState, dt: real): (r: JumpState)
    ensures r.vertVel == j.vertVel && r.jumpCount == j.jumpCount
    ensures j.bufferTime > 0.0 ==> r.bufferTime == j.bufferTime - dt
    ensures j.bufferTime <= 0.0 ==> r.bufferTime == j.bufferTime
    ensures r.requested <==> j.requested && !(j.bufferTime > 0.0 && j.bufferTime - dt <= 0.0)
  {
    if j.bufferTime > 0.0 then
      var t := j.bufferTime - dt;
      j.(bufferTime := t, requested := if t <= 0.0 then false else j.requested)
    else j
  }

  /** On the ground the jump count and the vertical speed reset; in the air gravity applies, down to -TerminalFallSpeed. */
  function ApplyGravity(j: JumpState, onGround: bool, dt: real): (r: JumpState)
    ensures r.requested == j.requested && r.bufferTime == j.bufferTime
    ensures onGround ==> r.jumpCount == 0 && r.vertVel == 0.0
    ensures !onGround ==> r.jumpCount == j.jumpCount
    ensures !onGround ==> r.vertVel >= -TerminalFallSpeed && r.vertVel >= j.vertVel - GravityAccel * dt
    ensures !onGround ==> r.vertVel == j.vertVel - GravityAccel * dt || r.vertVel == -TerminalFallSpeed
  {
    if onGround then j.(jumpCount := 0, vertVel := 0.0)
    else
      var v := j.vertVel - GravityAccel * dt;
      j.(vertVel := if v < -TerminalFallSpeed then -TerminalFallSpeed else v)
  }

  /** A pending request jumps if fewer than MaxJumps jumps were used since the last ground contact. */
  predicate CanJump(j: JumpState) {
    j.requested && j.jumpCount < MaxJumps
  }

  function TryJump(j: JumpState): (r: JumpState)
    ensures CanJump(j) ==> r == JumpState(JumpSpeed, j.jumpCount + 1, false, 0.0)
    ensures !CanJump(j) ==> r == j
  {
    if CanJump(j) then JumpState(JumpSpeed, j.jumpCount + 1, false, 0.0) else j
  }

  /** Whether a jump fires in this frame. */
  predicate JumpFires(j: JumpState, onGround: bool, dt: real) {
    CanJump(ApplyGravity(ExpireBuffer(j, dt), onGround, dt))
  }

  /** One frame of the vertical state machine (Game.cpp lines 160-191). */
  function VerticalStep(j: JumpState, onGround: bool, dt: real): (r: JumpState)
    ensures j.jumpCount <= MaxJumps ==> r.jumpCount <= MaxJumps
    ensures r.vertVel >= -TerminalFallSpeed
    ensures JumpFires(j, onGround, dt) ==> r.vertVel == JumpSpeed > 0.0 && !r.requested && r.bufferTime == 0.0
    ensures JumpFires(j, onGround, dt) ==> r.jumpCount == (if onGround then 1 else j.jumpCount + 1)
    ensures !JumpFires(j, onGround, dt) && onGround ==> r.vertVel == 0.0 && r.jumpCount == 0
    ensures !JumpFires(j, onGround, dt) && !onGround ==> r.jumpCount == j.jumpCount
  {
    TryJump(ApplyGravity(ExpireBuffer(j, dt), onGround, dt))
  }

  /** The effect of pressing the jump key: a request, buffered for JumpBufferTime. */
  function PressJump(j: JumpState): (r: JumpState)
    ensures r.requested && r.bufferTime == JumpBufferTime
    ensures r.vertVel == j.vertVel && r.jumpCount == j.jumpCount
  {
    j.(requested := true, bufferTime := JumpBufferTime)
  }

  /** A buffered request that runs out during this frame does not fire. */
  lemma ExpiredRequestDoesNotJump(j: JumpState, onGround: bool, dt: real)
    requires 0.0 < j.bufferTime <= dt
    ensures !JumpFires(j, onGround, dt)
    ensures !VerticalStep(j, onGround, dt).requested
  {
  }

  /** A request still buffered when the player lands jumps in that frame (the jump buffer). */
  lemma BufferedRequestJumpsOnLanding(j: JumpState, dt: real)
    requires j.requested && j.bufferTime > dt
    ensures JumpFires(j, true, dt)
    ensures VerticalStep(j, true, dt) == JumpState(JumpSpeed, 1, false, 0.0)
  {
  }

  /** One frame in the air: the jump key may be pressed before it, then the frame runs. */
  datatype Frame = Frame(jumpPressed: bool, dt: real)

  function BeforeFrame(j: JumpState, f: Frame): JumpState {
    if f.jumpPressed then PressJump(j) else j
  }

  /** The state after a run of frames none of which starts on the ground. */
  function AirborneRun(j: JumpState, frames: seq<Frame>): JumpState
    decreases |frames|
  {
    if frames == [] then j
    else AirborneRun(VerticalStep(BeforeFrame(j, frames[0]), false, frames[0].dt), frames[1..])
  }

  /** How many of those frames fire a jump. */
  function JumpsFired(j: JumpState, frames: seq<Frame>): nat
    decreases |frames|
  {
    if frames == [] then 0
    else
      var j' := BeforeFrame(j, frames[0]);
      (if JumpFires(j', false, frames[0].dt) then 1 else 0)
      + JumpsFired(VerticalStep(j', false, frames[0].dt), frames[1..])
  }

  /**
   * The double-jump cap: however often the jump key is pressed, a run of
   * frames in the air fires at most MaxJumps - jumpCount jumps, and each
   * fired jump is counted in jumpCount.
   */
  lemma {:induction false} AirborneJumpCap(j: JumpState, frames: seq<Frame>)
    requires j.jumpCount <= MaxJumps
    ensures AirborneRun(j, frames).jumpCount == j.jumpCount + JumpsFired(j, frames)
    ensures j.jumpCount + JumpsFired(j, frames) <= MaxJumps
    decreases |frames|
  {
    if frames != [] {
      var j' := BeforeFrame(j, frames[0]);
      AirborneJumpCap(VerticalStep(j', false, frames[0].dt), frames[1..]);
    }
  }
}
