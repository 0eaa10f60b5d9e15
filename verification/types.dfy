/** The records of the kick counter: sessions, kick events, preferences and the
    errors the session operations raise. Timestamps are integer milliseconds
    since the epoch; the ISO strings of the application order the same way. */
module Types {

  /** A value that may be absent (`null` / `undefined` in the application). */
  datatype Option<+T> = None | Some(value: T) {
    function GetOr(default: T): T {
      match this
      case Some(v) => v
      case None => default
    }
  }

  /** Either a value or the error an operation raised. */
  datatype Result<+T> = Success(value: T) | Failure(error: Error)

  type Id = string

  /** The six session statuses. */
  datatype Status = Idle | Active | Paused | Complete | Timeout | EndedEarly

  /** How a kick was recorded. */
  datatype KickSource = Tap | ManualEdit

  /** A strength rating is an integer on the 1..5 scale. */
  type Rating = r: int | 1 <= r <= 5 witness 1

  datatype SoundOption = SoftClick | Pop | Heartbeat | Bubble | NoSound

  /** One counting session. `durationMs` and `pausedDurationMs` are the
      application's `durationSec` and `pausedDurationSec` carried in
      milliseconds. */
  datatype Session = Session(
    id: Id,
    createdAt: int,
    startedAt: Option<int>,
    endedAt: Option<int>,
    status: Status,
    targetCount: int,
    timeLimitSec: int,
    kickCount: int,
    durationMs: Option<int>,
    strengthRating: Option<Rating>,
    notes: Option<string>,
    timezone: string,
    schemaVersion: int,
    pausedDurationMs: int,
    pausedAt: Option<int>)

  /** One recorded movement; `ordinal` counts from 1 within its session. */
  datatype KickEvent = KickEvent(
    id: Id,
    sessionId: Id,
    occurredAt: int,
    ordinal: int,
    source: KickSource)

  datatype Preferences = Preferences(
    defaultTargetCount: int,
    defaultTimeLimitSec: int,
    soundOption: SoundOption,
    vibrationEnabled: bool,
    keepScreenAwake: bool)

  /** The transitions of the session state machine. */
  datatype Transition = Start | Pause | Resume | End | Finish | TimeOut

  /** The errors the core raises. `ConstraintError` is the store refusing to
      add a record whose key is already taken. */
  datatype Error =
    | NotFound(id: Id)
    | InvalidTransition(transition: Transition, status: Status)
    | MissingPausedAt
    | ConstraintError(key: Id)

  const DefaultTargetCount: int := 10
  const DefaultTimeLimitSec: int := 7200
  const SchemaVersion: int := 1

  const DefaultPreferences: Preferences :=
    Preferences(DefaultTargetCount, DefaultTimeLimitSec, SoftClick, true, true)

  /** The status as the application spells it. */
  function StatusName(s: Status): string {
    match s
    case Idle => "idle"
    case Active => "active"
    case Paused => "paused"
    case Complete => "complete"
    case Timeout => "timeout"
    case EndedEarly => "ended_early"
  }

  /** The verb each transition uses in its error message. */
  function Verb(t: Transition): string {
    match t
    case Start => "start"
    case Pause => "pause"
    case Resume => "resume"
    case End => "end"
    case Finish => "complete"
    case TimeOut => "timeout"
  }

  /** The message the application's thrown error carries. */
  function Message(e: Error): string {
    match e
    case NotFound(id) => "Session not found: " + id
    case InvalidTransition(t, s) => "Cannot " + Verb(t) + " session in status: " + StatusName(s)
    case MissingPausedAt => "Session has no pausedAt timestamp"
    case ConstraintError(key) => "Key already exists in the object store: " + key
  }
}
