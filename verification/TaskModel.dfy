/** Values shared by the timing wheel, the alert machine and the task service:
    the task record, its validation, and the errors an operation can return. */
module TaskModel {

  datatype Option<+T> = None | Some(value: T)

  datatype Error =
    | InvalidParam
    | IntervalInvalid
    | TimesInvalid
    | WheelNotRunning
    | TaskAlreadyExists
    | TaskNotFound
    | SlotsTooFew
    | IntervalTooSmall

  datatype Result<+T> = Ok(value: T) | Err(error: Error)

  /** `Other` is any code outside the three named modes. */
  datatype Mode = Repeated | Once | FixedTimes | Other(code: int)

  /** Durations are in nanoseconds; `hasRun` says that the callback is present. */
  datatype Task = Task(
    id: string,
    mode: Mode,
    priority: int,
    interval: int,
    times: int,
    hasRun: bool,
    forDuration: int,
    repeatInterval: int)

  const NS_PER_MS := 1_000_000

  /** What one evaluation of the callback reports. */
  datatype AlarmResult = AlarmResult(value: real, threshold: real, isFiring: bool)

  const NO_RESULT := AlarmResult(0.0, 0.0, false)

  /** A run of the callback: it returns, or it panics and the panic is swallowed. */
  datatype RunOutcome = Returned(result: AlarmResult) | Panicked

  /** The checks AddTask makes before it looks at the wheel, in its order, with its defaults. */
  function Normalize(task: Option<Task>): Result<Task> {
    match task
    case None => Err(InvalidParam)
    case Some(t) =>
      if t.id == "" || !t.hasRun then Err(InvalidParam)
      else
        match t.mode
        case Repeated => if t.interval <= 0 then Err(IntervalInvalid) else Ok(t)
        case Once => Ok(if t.interval <= 0 then t.(interval := NS_PER_MS) else t)
        case FixedTimes =>
          if t.times <= 0 then Err(TimesInvalid)
          else if t.interval <= 0 then Err(IntervalInvalid)
          else Ok(t)
        case Other(_) => if t.interval <= 0 then Err(IntervalInvalid) else Ok(t.(mode := Repeated))
  }

  /** A task the wheel may hold: validation accepts it and changes nothing. */
  predicate IsNormal(t: Task) {
    Normalize(Some(t)) == Ok(t)
  }

  lemma NormalizeYieldsNormal(task: Option<Task>)
    requires Normalize(task).Ok?
    ensures IsNormal(Normalize(task).value)
    ensures Normalize(task).value.id == task.value.id != ""
    ensures Normalize(task).value.interval > 0
  {
  }
}
