/**
 * The cron gate and the run-state store (orchestrator/cron_checker.py).
 *
 * The model_state table is a map from model name to its last recorded
 * outcome: one entry per name, overwritten in place by upserts. Clock reads
 * are parameters; the cron schedule is represented by croniter's next-instant
 * function for that expression.
 */
module CronGate {
  import opened Wrappers

  /** A point in time, in minutes. */
  type Instant = nat

  /**
   * croniter(schedule, t).get_next(): the next scheduled instant after t, or
   * None when croniter rejects the expression.
   */
  type Cron = Instant -> Option<Instant>

  datatype Status = Success | Failed

  /** One row of model_state, keyed by model_name. NULL columns are None. */
  datatype ModelState = ModelState(
    lastRun: Instant,
    status: Status,
    rowsProcessed: Option<nat>,
    executionTime: nat,
    error: Option<string>,
    updatedAt: Instant)

  type StateTable = map<string, ModelState>

  /**
   * update_success: INSERT ... ON CONFLICT (model_name) DO UPDATE of last_run,
   * status, rows_processed, execution_time_seconds and updated_at; error is
   * not in the update list, so an earlier error survives.
   */
  function UpsertSuccess(m: StateTable, name: string, now: Instant, rows: nat, duration: nat): (r: StateTable)
    ensures r.Keys == m.Keys + {name}
    ensures forall k :: k in m && k != name ==> r[k] == m[k]
    ensures r[name].lastRun == now && r[name].status == Success && r[name].updatedAt == now
    ensures r[name].rowsProcessed == Some(rows) && r[name].executionTime == duration
    ensures r[name].error == if name in m then m[name].error else None
  {
    if name in m then
      m[name := m[name].(lastRun := now, status := Success, rowsProcessed := Some(rows),
                         executionTime := duration, updatedAt := now)]
    else
      m[name := ModelState(now, Success, Some(rows), duration, None, now)]
  }

  /**
   * update_failure: the same upsert with status 'failed' and the error text;
   * rows_processed is not in the update list, so an earlier count survives.
   */
  function UpsertFailure(m: StateTable, name: string, now: Instant, error: string, duration: nat): (r: StateTable)
    ensures r.Keys == m.Keys + {name}
    ensures forall k :: k in m && k != name ==> r[k] == m[k]
    ensures r[name].lastRun == now && r[name].status == Failed && r[name].updatedAt == now
    ensures r[name].error == Some(error) && r[name].executionTime == duration
    ensures r[name].rowsProcessed == if name in m then m[name].rowsProcessed else None
  {
    if name in m then
      m[name := m[name].(lastRun := now, status := Failed, error := Some(error),
                         executionTime := duration, updatedAt := now)]
    else
      m[name := ModelState(now, Failed, None, duration, Some(error), now)]
  }

  /** A success after a failure keeps the failure's error text. */
  lemma {:induction false} ErrorSurvivesSuccess(m: StateTable, name: string, t1: Instant, t2: Instant,
                                                error: string, rows: nat, d1: nat, d2: nat)
    ensures var r := UpsertSuccess(UpsertFailure(m, name, t1, error, d1), name, t2, rows, d2);
      r[name].status == Success && r[name].error == Some(error) && r[name].rowsProcessed == Some(rows)
  {
  }

  /** A failure after a success keeps the success's row count. */
  lemma {:induction false} RowsSurviveFailure(m: StateTable, name: string, t1: Instant, t2: Instant,
                                              error: string, rows: nat, d1: nat, d2: nat)
    ensures var r := UpsertFailure(UpsertSuccess(m, name, t1, rows, d1), name, t2, error, d2);
      r[name].status == Failed && r[name].rowsProcessed == Some(rows) && r[name].error == Some(error)
  {
  }

  /**
   * Two successes for the same name keep one row: last_run, rows_processed and
   * execution_time are the second's, while error is whatever the store held before.
   */
  lemma {:induction false} HistoryIsDepthOne(m: StateTable, name: string, t1: Instant, t2: Instant,
                                             rows1: nat, rows2: nat, d1: nat, d2: nat)
    ensures var r := UpsertSuccess(UpsertSuccess(m, name, t1, rows1, d1), name, t2, rows2, d2);
      r.Keys == m.Keys + {name} && r[name].lastRun == t2 && r[name].status == Success &&
      r[name].rowsProcessed == Some(rows2) && r[name].executionTime == d2 &&
      r[name].error == (if name in m then m[name].error else None)
  {
  }

  /**
   * Two failures for the same name keep one row: last_run, error and
   * execution_time are the second's, while rows_processed is whatever the store held before.
   */
  lemma {:induction false} FailureHistoryIsDepthOne(m: StateTable, name: string, t1: Instant, t2: Instant,
                                                    e1: string, e2: string, d1: nat, d2: nat)
    ensures var r := UpsertFailure(UpsertFailure(m, name, t1, e1, d1), name, t2, e2, d2);
      r.Keys == m.Keys + {name} && r[name].lastRun == t2 && r[name].status == Failed &&
      r[name].error == Some(e2) && r[name].executionTime == d2 &&
      r[name].rowsProcessed == (if name in m then m[name].rowsProcessed else None)
  {
  }

  datatype Gate =
    | Proceed                   // check_and_start returns
    | Skip                      // sys.exit(0): not due, a neutral outcome
    | GateError(message: string) // an exception escapes check_and_start

  /** The decision of check_and_start, from the stored last_run and the clock. */
  function GateDecision(last: Option<Instant>, cron: Cron, now: Instant): (g: Gate)
    ensures last.None? ==> g == Proceed
    ensures last.Some? && cron(last.value).Some? ==>
      (g == Proceed <==> now >= cron(last.value).value) &&
      (g == Skip <==> now < cron(last.value).value)
    ensures g.GateError? <==> last.Some? && cron(last.value).None?
  {
    match last
    case None => Proceed
    case Some(t) =>
      match cron(t)
      case None => GateError("croniter rejected the schedule")
      case Some(next) => if now >= next then Proceed else Skip
  }

  /** The persisted state, reached through state_dsn. */
  class StateStore {
    var rows: StateTable

    constructor (rows: StateTable)
      ensures this.rows == rows
    {
      this.rows := rows;
    }
  }

  class CronChecker {
    const modelName: string
    const schedule: string
    const cron: Cron
    const store: StateStore

    /** `cron` is croniter over `schedule`; `store` is the database state_dsn names. */
    constructor (modelName: string, schedule: string, cron: Cron, store: StateStore)
      ensures this.modelName == modelName && this.schedule == schedule
      ensures this.cron == cron && this.store == store
    {
      this.modelName := modelName;
      this.schedule := schedule;
      this.cron := cron;
      this.store := store;
    }

    /** _get_last_run: SELECT last_run for this model; a read, so no modifies clause. */
    method GetLastRun() returns (last: Option<Instant>)
      ensures last.Some? <==> modelName in store.rows
      ensures last.Some? ==> last.value == store.rows[modelName].lastRun
    {
      if modelName in store.rows {
        last := Some(store.rows[modelName].lastRun);
      } else {
        last := None;
      }
    }

    /**
     * check_and_start: a first run proceeds; otherwise the run proceeds iff
     * now has reached the next cron instant after last_run. Writes nothing.
     */
    method CheckAndStart(now: Instant) returns (g: Gate)
      ensures modelName !in store.rows ==> g == Proceed
      ensures modelName in store.rows && cron(store.rows[modelName].lastRun).Some? ==>
        var next := cron(store.rows[modelName].lastRun).value;
        (g == Proceed <==> now >= next) && (g == Skip <==> now < next)
      ensures g.GateError? <==> modelName in store.rows && cron(store.rows[modelName].lastRun).None?
    {
      var last := GetLastRun();
      g := GateDecision(last, cron, now);
    }

    method UpdateSuccess(rows: nat, duration: nat, now: Instant)
      modifies store
      ensures store.rows == UpsertSuccess(old(store.rows), modelName, now, rows, duration)
    {
      store.rows := UpsertSuccess(store.rows, modelName, now, rows, duration);
    }

    method UpdateFailure(error: string, duration: nat, now: Instant)
      modifies store
      ensures store.rows == UpsertFailure(old(store.rows), modelName, now, error, duration)
    {
      store.rows := UpsertFailure(store.rows, modelName, now, error, duration);
    }
  }

  // ---------------------------------------------------------------------------
  // A concrete schedule: "M H * * *", once a day at a fixed minute.

  const MinutesPerDay := 1440

  /** The first instant strictly after `after` that falls on minute `minuteOfDay` of a day. */
  function NextDaily(minuteOfDay: nat, after: Instant): (t: Instant)
    requires minuteOfDay < MinutesPerDay
    ensures t > after && t % MinutesPerDay == minuteOfDay
    ensures t - after <= MinutesPerDay
  {
    var dayStart := after - after % MinutesPerDay;
    if after < dayStart + minuteOfDay then dayStart + minuteOfDay
    else dayStart + MinutesPerDay + minuteOfDay
  }

  function Daily(minuteOfDay: nat): (c: Cron)
    requires minuteOfDay < MinutesPerDay
  {
    (t: Instant) => Some(NextDaily(minuteOfDay, t))
  }

  /**
   * "0 6 * * *" with last_run yesterday at 06:00: at 05:59 today the run is
   * not due, at 06:00 it is.
   */
  lemma DailyAtSixScenario(day: nat)
    ensures var lastRun := day * MinutesPerDay + 360;
      GateDecision(Some(lastRun), Daily(360), (day + 1) * MinutesPerDay + 359) == Skip &&
      GateDecision(Some(lastRun), Daily(360), (day + 1) * MinutesPerDay + 360) == Proceed
  {
    var lastRun := day * MinutesPerDay + 360;
    assert lastRun % MinutesPerDay == 360;
    assert NextDaily(360, lastRun) == (day + 1) * MinutesPerDay + 360;
  }
}
