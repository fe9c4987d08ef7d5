/**
 The appointment lifecycle, twice: the domain entity, whose methods return a
 changed copy, and the appointments row that the repository rewrites in place
 without ever calling that entity.
 */
module Lifecycle {
  import opened Outcomes
  import opened LocalClock

  type Id = nat // a UUID; 0 is uuid.Nil

  datatype Status = Requested | CheckedIn | InProgress | Completed | Cancelled

  predicate Active(status: Status) {
    status.Requested? || status.CheckedIn? || status.InProgress?
  }

  // How many further transitions a status still allows at most.
  function Rank(status: Status): nat {
    match status
    case Requested => 3
    case CheckedIn => 2
    case InProgress => 1
    case Completed => 0
    case Cancelled => 0
  }

  datatype LifecycleError =
    | IdRequired
    | EmptyInterval
    | InvalidTransition
    | CompletionOutsidePlan
    | ReasonRequired

  // ----- the domain entity -----

  datatype Appointment = Appointment(
    id: Id,
    status: Status,
    startsAt: Instant,
    endsAt: Instant,
    checkedInAt: Option<Instant>,
    inProgressAt: Option<Instant>,
    completedAt: Option<Instant>,
    actualEndsAt: Option<Instant>,
    cancelledAt: Option<Instant>,
    cancellationReason: Option<string>)
  {
    function CheckIn(now: Instant): Result<Appointment, LifecycleError> {
      if !status.Requested? then Err(InvalidTransition)
      else Ok(this.(status := CheckedIn, checkedInAt := Some(now)))
    }

    function Start(now: Instant): Result<Appointment, LifecycleError> {
      if !status.CheckedIn? then Err(InvalidTransition)
      else Ok(this.(status := InProgress, inProgressAt := Some(now)))
    }

    function Complete(actual: Instant): Result<Appointment, LifecycleError> {
      if !status.InProgress? || checkedInAt.None? then Err(InvalidTransition)
      else if actual < checkedInAt.value || actual > endsAt then Err(CompletionOutsidePlan)
      else Ok(this.(status := Completed, completedAt := Some(actual), actualEndsAt := Some(actual)))
    }

    function Cancel(reason: string, now: Instant): Result<Appointment, LifecycleError> {
      if !Active(status) then Err(InvalidTransition)
      else if reason == "" then Err(ReasonRequired)
      else Ok(this.(status := Cancelled, cancelledAt := Some(now), cancellationReason := Some(reason)))
    }
  }

  function NewAppointment(id: Id, startsAt: Instant, endsAt: Instant): Result<Appointment, LifecycleError> {
    if id == 0 then Err(IdRequired)
    else if endsAt <= startsAt then Err(EmptyInterval)
    else Ok(Appointment(id, Requested, startsAt, endsAt, None, None, None, None, None, None))
  }

  // ----- the appointments row -----

  datatype Row = Row(
    startsAt: Instant,
    endsAt: Instant,
    status: Status,
    notes: Option<string>,
    checkedInAt: Option<Instant>,
    inProgressAt: Option<Instant>,
    startedAt: Option<Instant>,
    completedAt: Option<Instant>,
    actualEndsAt: Option<Instant>,
    cancelledAt: Option<Instant>,
    cancelledBy: Option<Id>,
    cancellationReason: Option<string>,
    updatedAt: Instant)

  function NewRow(startsAt: Instant, endsAt: Instant, notes: Option<string>, now: Instant): Row {
    Row(startsAt, endsAt, Requested, notes, None, None, None, None, None, None, None, None, now)
  }

  // app.AppointmentTransition; an absent `from` is Go's empty status string.
  datatype Transition = Transition(
    from: Option<Status>,
    to: Status,
    actor: Id,
    occurredAt: Instant,
    actualEndsAt: Option<Instant>,
    reason: Option<string>,
    note: Option<string>)

  predicate ValidTransition(from: Status, to: Status) {
    || (from.Requested? && to.CheckedIn?)
    || (from.CheckedIn? && to.InProgress?)
    || (from.InProgress? && to.Completed?)
    || (Active(from) && to.Cancelled?)
  }

  // The (from, to) pairs the four HTTP handlers pass.
  predicate HandlerPair(from: Option<Status>, to: Status) {
    || (from == Some(Requested) && to.CheckedIn?)
    || (from == Some(CheckedIn) && to.InProgress?)
    || (from == Some(InProgress) && to.Completed?)
    || (from.None? && to.Cancelled?)
  }

  function ActualEnd(t: Transition): Instant {
    t.actualEndsAt.GetOr(t.occurredAt)
  }

  // The repository's checks and row update.
  function Rewrite(row: Row, t: Transition): Result<Row, LifecycleError> {
    if t.from.Some? && row.status != t.from.value then Err(InvalidTransition)
    else if t.to.Cancelled? && !Active(row.status) then Err(InvalidTransition)
    else if t.to.Completed? && (row.checkedInAt.None? || ActualEnd(t) < row.checkedInAt.value || ActualEnd(t) > row.endsAt) then
      Err(CompletionOutsidePlan)
    else
      var notes := if t.note.Some? then t.note else row.notes;
      var base := row.(status := t.to, notes := notes, updatedAt := t.occurredAt);
      match t.to
      case CheckedIn => Ok(base.(checkedInAt := Some(t.occurredAt)))
      case InProgress => Ok(base.(inProgressAt := Some(t.occurredAt), startedAt := Some(t.occurredAt)))
      case Completed => Ok(base.(completedAt := Some(t.occurredAt), actualEndsAt := Some(ActualEnd(t))))
      case Cancelled => Ok(base.(cancelledAt := Some(t.occurredAt), cancelledBy := Some(t.actor), cancellationReason := t.reason))
      case Requested => Err(InvalidTransition)
  }

  // The application service's guards in front of the repository.
  function Guard(t: Transition): Option<LifecycleError> {
    if t.from.Some? && !ValidTransition(t.from.value, t.to) then Some(InvalidTransition)
    else if t.to.Cancelled? && (t.reason.None? || t.reason.value == "") then Some(ReasonRequired)
    else None
  }

  function ChangeRow(row: Row, t: Transition): Result<Row, LifecycleError> {
    if Guard(t).Some? then Err(Guard(t).value) else Rewrite(row, t)
  }

  // The same request put to the domain entity.
  function ChangeAppointment(a: Appointment, t: Transition): Result<Appointment, LifecycleError> {
    match t.to
    case CheckedIn => a.CheckIn(t.occurredAt)
    case InProgress => a.Start(t.occurredAt)
    case Completed => a.Complete(ActualEnd(t))
    case Cancelled => a.Cancel(t.reason.GetOr(""), t.occurredAt)
    case Requested => Err(InvalidTransition)
  }

  // Row and entity agree on everything but completedAt.
  predicate Matches(row: Row, a: Appointment) {
    && row.status == a.status
    && row.startsAt == a.startsAt
    && row.endsAt == a.endsAt
    && row.checkedInAt == a.checkedInAt
    && row.inProgressAt == a.inProgressAt
    && row.actualEndsAt == a.actualEndsAt
    && row.cancelledAt == a.cancelledAt
    && row.cancellationReason == a.cancellationReason
  }

  // A failed request leaves row and entity as they were.
  function RunRow(row: Row, ts: seq<Transition>): Row
    decreases ts
  {
    if ts == [] then row
    else RunRow(match ChangeRow(row, ts[0]) case Ok(r) => r case Err(_) => row, ts[1..])
  }

  function RunAppointment(a: Appointment, ts: seq<Transition>): Appointment
    decreases ts
  {
    if ts == [] then a
    else RunAppointment(match ChangeAppointment(a, ts[0]) case Ok(b) => b case Err(_) => a, ts[1..])
  }

  ghost predicate FromHandlers(ts: seq<Transition>) {
    forall t | t in ts :: HandlerPair(t.from, t.to)
  }

  // ----- lemmas -----

  // With a handler's pair the repository succeeds exactly when the entity does,
  // and the results agree again.
  lemma RowRefinesEntity(row: Row, a: Appointment, t: Transition)
    requires Matches(row, a) && HandlerPair(t.from, t.to)
    ensures ChangeRow(row, t).Ok? <==> ChangeAppointment(a, t).Ok?
    ensures ChangeRow(row, t).Ok? ==> Matches(ChangeRow(row, t).value, ChangeAppointment(a, t).value)
  {
  }

  lemma {:induction false} RunRefinesEntity(row: Row, a: Appointment, ts: seq<Transition>)
    requires Matches(row, a) && FromHandlers(ts)
    ensures Matches(RunRow(row, ts), RunAppointment(a, ts))
    decreases ts
  {
    if ts != [] {
      RowRefinesEntity(row, a, ts[0]);
      RunRefinesEntity(
        match ChangeRow(row, ts[0]) case Ok(r) => r case Err(_) => row,
        match ChangeAppointment(a, ts[0]) case Ok(b) => b case Err(_) => a,
        ts[1..]);
    }
  }

  // From creation on: the booked row and the new entity agree after every run.
  lemma BookedRowRefinesEntity(id: Id, startsAt: Instant, endsAt: Instant, notes: Option<string>, now: Instant, ts: seq<Transition>)
    requires FromHandlers(ts)
    ensures NewAppointment(id, startsAt, endsAt).Ok? <==> id != 0 && startsAt < endsAt
    ensures id != 0 && startsAt < endsAt ==>
            Matches(RunRow(NewRow(startsAt, endsAt, notes, now), ts),
                    RunAppointment(NewAppointment(id, startsAt, endsAt).value, ts))
  {
    if id != 0 && startsAt < endsAt {
      RunRefinesEntity(NewRow(startsAt, endsAt, notes, now), NewAppointment(id, startsAt, endsAt).value, ts);
    }
  }

  // completedAt is the one field they store differently: the row keeps the
  // request time and the entity the actual end.
  lemma CompletedAtAgreesIff(row: Row, a: Appointment, t: Transition)
    requires Matches(row, a) && HandlerPair(t.from, t.to) && t.to.Completed?
    requires ChangeRow(row, t).Ok?
    ensures ChangeAppointment(a, t).Ok?
    ensures ChangeRow(row, t).value.completedAt == ChangeAppointment(a, t).value.completedAt
            <==> ActualEnd(t) == t.occurredAt
  {
  }

  // The service and the repository together let through only what the entity
  // allows: for every row and every request with this pair.
  ghost predicate SafePair(from: Option<Status>, to: Status) {
    forall row: Row, a: Appointment, t: Transition ::
      Matches(row, a) && t.from == from && t.to == to && ChangeRow(row, t).Ok? ==> ChangeAppointment(a, t).Ok?
  }

  // A completed appointment that a request without `from` checks in again.
  const FINISHED := Row(0, 10, Completed, None, Some(1), Some(2), Some(2), Some(9), Some(9), None, None, None, 9)
  const FINISHED_ENTITY := Appointment(1, Completed, 0, 10, Some(1), Some(2), Some(9), Some(9), None, None)

  function Reopen(to: Status): Transition {
    Transition(None, to, 1, 20, Some(5), None, None)
  }

  // Without an expected status the service skips its transition table, so only
  // a request that names one, or cancels, is safe.
  lemma SafePairIff(from: Option<Status>, to: Status)
    ensures SafePair(from, to) <==> (from.Some? || to.Cancelled? || to.Requested?)
  {
    if from.None? && !to.Cancelled? && !to.Requested? {
      assert Matches(FINISHED, FINISHED_ENTITY);
      assert ChangeRow(FINISHED, Reopen(to)).Ok? && ChangeAppointment(FINISHED_ENTITY, Reopen(to)).Err?;
    } else {
      forall row: Row, a: Appointment, t: Transition
        | Matches(row, a) && t.from == from && t.to == to && ChangeRow(row, t).Ok?
        ensures ChangeAppointment(a, t).Ok?
      {
      }
    }
  }

  // A handler's successful transition follows the table and lowers the rank.
  lemma HandlerLowersRank(row: Row, t: Transition)
    requires HandlerPair(t.from, t.to) && ChangeRow(row, t).Ok?
    ensures ValidTransition(row.status, t.to)
    ensures Rank(ChangeRow(row, t).value.status) < Rank(row.status)
    ensures ChangeRow(row, t).value.status == t.to
  {
  }
}
