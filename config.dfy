/** The read-only configuration block of the game (the `Constants` record). */
module Config {

  /** Grid size, `MapTexDim`: the occupancy grid is W x H cells. */
  const W: nat := 64
  const H: nat := 64

  /** Radius of the player's body, in cells; also the occupancy threshold of the sweep. */
  const PlayerRadius: real := 0.4
  /** Horizontal speed, in cells per second. */
  const PlayerVelocity: real := 30.0
  /** Largest time step one frame may simulate, in seconds. */
  const MaxDT: real := 1.0 / 30.0
  /** Number of samples taken along a swept move. */
  const MaxCollisionSteps: nat := 8
  const GravityAccel: real := 90.0
  const JumpSpeed: real := 30.0
  const TerminalFallSpeed: real := 60.0
  /** Distance to the teleport below which a horizontal move reloads the map. */
  const TeleportRadius: real := 1.0

  /** Horizontal input below this magnitude is ignored by `Update`. */
  const DeadZone: real := 0.1
  /** How long a jump key press stays buffered, in seconds (set by `KeyEvent`). */
  const JumpBufferTime: real := 0.1
  /** Most jumps between two ground contacts (the double jump). */
  const MaxJumps: nat := 2
}
