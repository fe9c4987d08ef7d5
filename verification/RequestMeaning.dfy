/**
 What a request's result means to its caller, in terms of rows and columns other
 than the steps that compute it: which answer it gets, and what is different
 afterwards.
 */
module RequestMeaning {
  import opened Outcomes
  import opened LocalClock
  import opened Lifecycle
  import opened Tables
  import opened Ledger
  import opened LedgerInvariant
  import opened LedgerTheorems
  import opened LedgerHistory

  // ----- conditions on rows; the steps use none of them -----

  predicate Employed(c: Catalog, technician: Id, dealership: Id) {
    technician in c.technicians && c.technicians[technician].dealership == dealership && !c.technicians[technician].deleted
  }

  predicate OnRoster(c: Catalog, technician: Id, dealership: Id) {
    Employed(c, technician, dealership) && c.technicians[technician].isActive
  }

  predicate HasClockTimes(w: Window) {
    1 <= w.dayOfWeek <= 7 && 0 <= w.startsAt < w.endsAt < 24 * 60 * 60 * 1_000_000
  }

  predicate HasShift(shifts: Shifts, shift: Id, technician: Id) {
    shift in shifts && shifts[shift].technician == technician && !shifts[shift].deleted
  }

  // Another live shift of the technician meets the window.
  predicate Clashes(shifts: Shifts, shift: Id, technician: Id, w: Window) {
    exists v | v in shifts ::
      && v != shift && shifts[v].technician == technician && !shifts[v].deleted
      && shifts[v].window.dayOfWeek == w.dayOfWeek
      && shifts[v].window.startsAt < w.endsAt && w.startsAt < shifts[v].window.endsAt
  }

  predicate HasTimeOff(timeOff: TimeOffs, off: Id, technician: Id) {
    off in timeOff && timeOff[off].technician == technician && !timeOff[off].deleted
  }

  // An unreleased reservation of the technician overlaps the interval.
  predicate Engaged(reservations: Reservations, technician: Id, startsAt: Instant, endsAt: Instant) {
    exists r | r in reservations ::
      && reservations[r].releasedAt.None? && reservations[r].kind.TechnicianResource? && reservations[r].resource == technician
      && reservations[r].startsAt < endsAt && startsAt < reservations[r].endsAt
  }

  predicate VinUsed(vehicles: Vehicles, vin: Option<string>, except: Id) {
    vin.Some? && exists v | v in vehicles :: v != except && vehicles[v].vin.Some? && vehicles[v].vin.value == vin.value
  }

  function Given<T>(value: Option<T>, otherwise: T): T {
    if value.Some? then value.value else otherwise
  }

  // ----- booking -----

  // What a booking leaves: one appointment, one reservation of each resource and one
  // event.
  ghost predicate Booked(s: Store, after: Store, i: BookingInput) {
    && i.serviceType in s.catalog.serviceTypes
    && var minutes, endsAt := Minutes(s.catalog, i), Finish(s.catalog, i);
       var row := Row(i.startsAt, endsAt, Requested, i.notes, None, None, None, None, None, None, None, None, s.clock);
       && FreshKeys(s, i)
       && after == s.(
         bookings := s.bookings[i.id :=
           Booking(i.referenceCode, i.customer, i.vehicle, i.dealership, i.serviceType, i.technician, i.bay, minutes,
                   i.createdBy, s.clock, row)],
         reservations := s.reservations
           [i.technicianReservation :=
              Reservation(i.id, TechnicianResource, i.technician, i.startsAt, endsAt, Requested, s.clock, i.createdBy, None)]
           [i.bayReservation :=
              Reservation(i.id, BayResource, i.bay, i.startsAt, endsAt, Requested, s.clock, i.createdBy, None)],
         audit := s.audit + [Created(i.id, i.createdBy, i.startsAt, endsAt, s.clock)])
  }

  lemma ScheduleMeans(s: Store, i: BookingInput)
    ensures Inv(s) ==> Inv(Schedule(s, i).0)
    ensures Inv(s) && FreshKeys(s, i) ==> (Schedule(s, i).1.None? <==> Bookable(s, i))
    ensures Inv(s) ==> Schedule(s, i).1 == BookingAnswer(s, i)
    ensures Schedule(s, i).1.None? ==> Booked(s, Schedule(s, i).0, i)
    ensures Schedule(s, i).1.Some? ==> Schedule(s, i).0 == s
  {
    if Inv(s) {
      ScheduleKeeps(s, i);
      BookingAnswered(s, i);
      if FreshKeys(s, i) {
        BookingSucceedsIffAt(s, i);
      }
    }
    hide Inv, Bookable, BookingAnswer;
    if Schedule(s, i).1.None? {
      ScheduleBooks(s, i);
    } else {
      hide CheckBooking, InsertBooking, InsertReservation;
    }
  }

  lemma ScheduleBooks(s: Store, i: BookingInput)
    requires Schedule(s, i).1.None?
    ensures Booked(s, Schedule(s, i).0, i)
  {
    ChecksFindFirstMissing(s, i);
    var b, first := ScheduleWrites(s, i);
    hide Schedule, CheckBooking, FirstMissing, EndOf, ActiveOverlap, OnTimeOff, ReservationConflict;
  }

  // ----- lifecycle -----

  // The request comes from a handler and is stamped with the time at which it is
  // served.
  predicate FromHandler(s: Store, t: Transition) {
    HandlerPair(t.from, t.to) && t.occurredAt == s.clock
  }

  // The domain entity a stored booking stands for.
  predicate Stands(s: Store, id: Id, dealership: Id, a: Appointment) {
    id != 0 && id in s.bookings && s.bookings[id].dealership == dealership && Matches(s.bookings[id].row, a)
  }

  predicate Precedes(from: Status, to: Status) {
    match to
    case Requested => false
    case CheckedIn => from.Requested?
    case InProgress => from.CheckedIn?
    case Completed => from.InProgress?
    case Cancelled => !from.Completed? && !from.Cancelled?
  }

  // The end that a completion reports lies between check-in and planned end.
  predicate WithinPlan(row: Row, t: Transition) {
    row.checkedInAt.Some? && row.checkedInAt.value <= Given(t.actualEndsAt, t.occurredAt) <= row.endsAt
  }

  function TransitionAnswer(s: Store, id: Id, dealership: Id, t: Transition): Option<Error> {
    if id == 0 then Some(InvalidInput)
    else if t.to.Cancelled? && Given(t.reason, "") == "" then Some(BadTransition(ReasonRequired))
    else if id !in s.bookings || s.bookings[id].dealership != dealership then Some(NotFound)
    else if !Precedes(s.bookings[id].row.status, t.to) then Some(BadTransition(InvalidTransition))
    else if t.to.Completed? && !WithinPlan(s.bookings[id].row, t) then Some(BadTransition(CompletionOutsidePlan))
    else None
  }

  // What a transition leaves, column by column.
  function RowAfter(row: Row, t: Transition): Row {
    row.(status := t.to,
         notes := if t.note.Some? then t.note else row.notes,
         checkedInAt := if t.to.CheckedIn? then Some(t.occurredAt) else row.checkedInAt,
         inProgressAt := if t.to.InProgress? then Some(t.occurredAt) else row.inProgressAt,
         startedAt := if t.to.InProgress? then Some(t.occurredAt) else row.startedAt,
         completedAt := if t.to.Completed? then Some(t.occurredAt) else row.completedAt,
         actualEndsAt := if t.to.Completed? then Some(Given(t.actualEndsAt, t.occurredAt)) else row.actualEndsAt,
         cancelledAt := if t.to.Cancelled? then Some(t.occurredAt) else row.cancelledAt,
         cancelledBy := if t.to.Cancelled? then Some(t.actor) else row.cancelledBy,
         cancellationReason := if t.to.Cancelled? then t.reason else row.cancellationReason,
         updatedAt := t.occurredAt)
  }

  ghost predicate Released(before: Reservations, after: Reservations, id: Id, t: Transition) {
    && after.Keys == before.Keys
    && forall r | r in before ::
         after[r] ==
         if before[r].booking == id && before[r].releasedAt.None? && (t.to.Completed? || t.to.Cancelled?)
         then before[r].(releasedAt := Some(t.occurredAt), status := t.to)
         else before[r]
  }

  ghost predicate Transitioned(s: Store, after: Store, id: Id, dealership: Id, t: Transition) {
    && id in s.bookings && s.bookings[id].dealership == dealership
    && var was := s.bookings[id].row;
       && after == s.(
            bookings := s.bookings[id := s.bookings[id].(row := RowAfter(was, t))],
            reservations := after.reservations,
            audit := s.audit + [
              StatusChanged(id, t.actor, was.status, was.notes, t.to, if t.note.Some? then t.note else was.notes,
                            if t.to.Completed? then Some(Given(t.actualEndsAt, t.occurredAt)) else t.actualEndsAt,
                            t.reason, t.occurredAt)])
       && Released(s.reservations, after.reservations, id, t)
  }

  lemma ChangeMeans(s: Store, id: Id, dealership: Id, t: Transition)
    ensures Inv(s) && FromHandler(s, t) ==> Inv(Change(s, id, dealership, t).0)
    ensures forall a | Inv(s) && FromHandler(s, t) && Stands(s, id, dealership, a) ::
              var (after, err) := Change(s, id, dealership, t);
              && (err.None? <==> ChangeAppointment(a, t).Ok?)
              && (err.None? ==> Stands(after, id, dealership, ChangeAppointment(a, t).value))
    ensures Inv(s) && FromHandler(s, t) ==> Change(s, id, dealership, t).1 == TransitionAnswer(s, id, dealership, t)
    ensures Change(s, id, dealership, t).1.None? ==> Transitioned(s, Change(s, id, dealership, t).0, id, dealership, t)
    ensures Change(s, id, dealership, t).1.Some? ==> Change(s, id, dealership, t).0 == s
  {
    ChangeTransitions(s, id, dealership, t);
    if Inv(s) && FromHandler(s, t) {
      ChangeKeeps(s, id, dealership, t);
      ChangeAnswered(s, id, dealership, t);
      forall a | Stands(s, id, dealership, a)
        ensures var (after, err) := Change(s, id, dealership, t);
                && (err.None? <==> ChangeAppointment(a, t).Ok?)
                && (err.None? ==> Stands(after, id, dealership, ChangeAppointment(a, t).value))
      {
        ChangeFollowsEntity(s, id, dealership, t, a);
      }
    }
    hide Inv, Change, FromHandler, Transitioned, TransitionAnswer, Stands, ChangeAppointment;
  }

  lemma ChangeAnswered(s: Store, id: Id, dealership: Id, t: Transition)
    requires Inv(s) && FromHandler(s, t)
    ensures Change(s, id, dealership, t).1 == TransitionAnswer(s, id, dealership, t)
  {
    hide Linked, LedgerDisjoint, Catalogued, Owned, ShiftsCover, ShiftsSound, TimeOffClear, Audited;
    if id in s.bookings && ChangeRow(s.bookings[id].row, t).Ok? {
      HandlerLowersRank(s.bookings[id].row, t);
      UpdateNeverRejected(s, id, ChangeRow(s.bookings[id].row, t).value);
    }
    hide UpdateRejected;
  }

  lemma ChangeTransitions(s: Store, id: Id, dealership: Id, t: Transition)
    ensures Change(s, id, dealership, t).1.None? ==> Transitioned(s, Change(s, id, dealership, t).0, id, dealership, t)
    ensures Change(s, id, dealership, t).1.Some? ==> Change(s, id, dealership, t).0 == s
  {
    hide UpdateRejected;
    if Change(s, id, dealership, t).1.None? {
      var row := ChangeWrites(s, id, dealership, t);
      assert row == RowAfter(s.bookings[id].row, t);
      assert Released(s.reservations, Change(s, id, dealership, t).0.reservations, id, t);
    }
  }

  lemma ChangeFollowsEntity(s: Store, id: Id, dealership: Id, t: Transition, a: Appointment)
    requires Inv(s) && FromHandler(s, t) && Stands(s, id, dealership, a)
    ensures var (after, err) := Change(s, id, dealership, t);
            && (err.None? <==> ChangeAppointment(a, t).Ok?)
            && (err.None? ==> Stands(after, id, dealership, ChangeAppointment(a, t).value))
  {
    var c := ChangeInput(id, dealership, t.from, t.to, t.actor, t.actualEndsAt, t.reason, t.note);
    TransitionSucceedsIff(s, c, s.clock, a);
    assert Stamp(c, s.clock) == t && s.(clock := s.clock) == s;
    assert Step(s, ChangeRequest(c), s.clock) == Change(s, id, dealership, t);
    if Change(s, id, dealership, t).1.None? {
      var row := ChangeWrites(s, id, dealership, t);
    }
    hide Inv, Change, ChangeAppointment, Matches;
  }

  lemma OnlyThatBooking(s: Store, id: Id, dealership: Id, t: Transition)
    ensures Change(s, id, dealership, t).1.None? ==> id in s.bookings && s.bookings[id].dealership == dealership
    ensures var after := Change(s, id, dealership, t).0;
            after.bookings.Keys == s.bookings.Keys && forall x | x in s.bookings && x != id :: after.bookings[x] == s.bookings[x]
  {
    hide UpdateRejected, Rewrite, Guard;
  }

  // Ending a booking gives back what it held and nothing else.
  lemma ChangeFrees(s: Store, id: Id, dealership: Id, t: Transition)
    ensures Change(s, id, dealership, t).1.None? && !Active(t.to) ==>
              forall kind, resource, startsAt, endsAt ::
                ReservationConflict(Change(s, id, dealership, t).0.reservations, kind, resource, startsAt, endsAt)
                <==> TakenByAnother(s.reservations, id, kind, resource, startsAt, endsAt)
  {
    if Change(s, id, dealership, t).1.None? && !Active(t.to) {
      var row := ChangeWrites(s, id, dealership, t);
      forall kind, resource, startsAt, endsAt
        ensures ReservationConflict(Change(s, id, dealership, t).0.reservations, kind, resource, startsAt, endsAt)
                <==> TakenByAnother(s.reservations, id, kind, resource, startsAt, endsAt)
      {
        ReleaseFreesOwn(s.reservations, id, t.to, t.occurredAt, kind, resource, startsAt, endsAt);
      }
    }
  }

  // ----- shifts -----

  // One shift was added or replaced: its technician works in the new window and no
  // longer in the one it replaced, and everybody else works as before.
  ghost predicate ShiftWritten(before: Shifts, after: Shifts, shift: Id, technician: Id, w: Window) {
    && after == before[shift := Shift(technician, w, false)]
    && forall other, startsAt, endsAt, offset ::
         WorksThen(after, other, startsAt, endsAt, offset) <==>
         WorksThen(before - {shift}, other, startsAt, endsAt, offset) || (other == technician && InWindow(w, startsAt, endsAt, offset))
  }

  // Nobody works in a deleted shift; all other shifts count as before.
  ghost predicate ShiftRemoved(before: Shifts, after: Shifts, shift: Id) {
    && shift in before && after == before[shift := before[shift].(deleted := true)]
    && forall other, startsAt, endsAt, offset ::
         WorksThen(after, other, startsAt, endsAt, offset) <==> WorksThen(before - {shift}, other, startsAt, endsAt, offset)
  }

  lemma WritingShift(shifts: Shifts, shift: Id, technician: Id, w: Window)
    ensures ShiftWritten(shifts, shifts[shift := Shift(technician, w, false)], shift, technician, w)
  {
    var after, others := shifts[shift := Shift(technician, w, false)], shifts - {shift};
    forall other, startsAt, endsAt, offset
      ensures WorksThen(after, other, startsAt, endsAt, offset) <==>
              WorksThen(others, other, startsAt, endsAt, offset) || (other == technician && InWindow(w, startsAt, endsAt, offset))
    {
      assert shift in after && after[shift] == Shift(technician, w, false);
      assert forall v | v in others :: v in after && after[v] == others[v];
      assert forall v | v in after && v != shift :: v in others && after[v] == others[v];
      hide InWindow;
    }
  }

  lemma RemovingShift(shifts: Shifts, shift: Id)
    requires shift in shifts
    ensures ShiftRemoved(shifts, shifts[shift := shifts[shift].(deleted := true)], shift)
  {
    var after, others := shifts[shift := shifts[shift].(deleted := true)], shifts - {shift};
    forall other, startsAt, endsAt, offset
      ensures WorksThen(after, other, startsAt, endsAt, offset) <==> WorksThen(others, other, startsAt, endsAt, offset)
    {
      assert forall v | v in others :: v in after && after[v] == others[v];
      assert forall v | v in after && v != shift :: v in others && after[v] == others[v];
      hide InWindow;
    }
  }

  function CreateShiftAnswer(s: Store, dealership: Id, technician: Id, shift: Id, w: Window): Option<Error> {
    if !OnRoster(s.catalog, technician, dealership) then Some(NotFound)
    else if shift == 0 || !HasClockTimes(w) then Some(InvalidInput)
    else if shift in s.shifts then Some(ConstraintViolation)
    else if Clashes(s.shifts, shift, technician, w) then Some(ShiftOverlaps)
    else None
  }

  lemma CreateShiftMeans(s: Store, dealership: Id, technician: Id, shift: Id, w: Window)
    ensures Inv(s) ==> Inv(CreateShift(s, dealership, technician, shift, w).0)
    ensures ShiftsSound(s.shifts) ==>
              (CreateShift(s, dealership, technician, shift, w).1.None? <==>
                 && OnRoster(s.catalog, technician, dealership) && shift != 0 && shift !in s.shifts
                 && ShiftsSound(s.shifts[shift := Shift(technician, w, false)]))
    ensures var (after, err) := CreateShift(s, dealership, technician, shift, w);
            && err == CreateShiftAnswer(s, dealership, technician, shift, w)
            && after == s.(shifts := after.shifts)
            && (err.None? ==> ShiftWritten(s.shifts, after.shifts, shift, technician, w))
            && (err.Some? ==> after == s)
  {
    if Inv(s) {
      CreateShiftKeeps(s, dealership, technician, shift, w);
    }
    WritingShift(s.shifts, shift, technician, w);
    if ShiftsSound(s.shifts) {
      ShiftAcceptedIff(s.shifts, technician, shift, w);
    }
    hide Inv, ShiftsSound, ShiftWritten;
  }

  // A request served at the clock's own time.
  lemma ServedNow(s: Store, q: Request)
    ensures q.UpdateShiftRequest? ==> Step(s, q, s.clock) == UpdateShift(s, q.dealership, q.technician, q.shift, q.patch)
    ensures q.DeleteShiftRequest? ==> Step(s, q, s.clock) == DeleteShift(s, q.dealership, q.technician, q.shift)
    ensures q.CreateTimeOffRequest? ==>
              Step(s, q, s.clock) == CreateTimeOff(s, q.dealership, q.technician, q.timeOff, q.startsAt, q.endsAt)
    ensures q.UpdateTimeOffRequest? ==>
              Step(s, q, s.clock) == UpdateTimeOff(s, q.dealership, q.technician, q.timeOff, q.newStart, q.newEnd)
    ensures q.DeleteTimeOffRequest? ==> Step(s, q, s.clock) == DeleteTimeOff(s, q.dealership, q.technician, q.timeOff)
  {
    hide CreateTimeOff, UpdateTimeOff, DeleteTimeOff, UpdateShift, DeleteShift;
    assert s.(clock := s.clock) == s;
  }

  // Every unfinished booking in the shift's window also lies in `w`.
  ghost predicate StillFits(s: Store, technician: Id, shift: Id, w: Window)
    requires shift in s.shifts
  {
    forall id :: LeansOn(s, id, technician, s.shifts[shift].window, s.clock) ==> LeansOn(s, id, technician, w, s.clock)
  }

  ghost predicate NobodyLeans(s: Store, technician: Id, shift: Id)
    requires shift in s.shifts
  {
    forall id :: !LeansOn(s, id, technician, s.shifts[shift].window, s.clock)
  }

  function WindowAfter(w: Window, p: ShiftPatch): Window {
    Window(Given(p.dayOfWeek, w.dayOfWeek), Given(p.startsAt, w.startsAt), Given(p.endsAt, w.endsAt))
  }

  ghost function UpdateShiftAnswer(s: Store, dealership: Id, technician: Id, shift: Id, p: ShiftPatch): Option<Error> {
    if !OnRoster(s.catalog, technician, dealership) || !HasShift(s.shifts, shift, technician) then Some(NotFound)
    else
      var w := WindowAfter(s.shifts[shift].window, p);
      if !HasClockTimes(w) then Some(InvalidInput)
      else if !StillFits(s, technician, shift, w) then Some(ShiftChangeConflict)
      else if Clashes(s.shifts, shift, technician, w) then Some(ShiftOverlaps)
      else None
  }

  lemma UpdateShiftMeans(s: Store, dealership: Id, technician: Id, shift: Id, p: ShiftPatch)
    ensures Inv(s) ==> Inv(UpdateShift(s, dealership, technician, shift, p).0)
    ensures Inv(s) ==> UpdateShift(s, dealership, technician, shift, p).1 == UpdateShiftAnswer(s, dealership, technician, shift, p)
    ensures var (after, err) := UpdateShift(s, dealership, technician, shift, p);
            && after == s.(shifts := after.shifts)
            && (err.None? ==> HasShift(s.shifts, shift, technician)
                              && ShiftWritten(s.shifts, after.shifts, shift, technician, WindowAfter(s.shifts[shift].window, p)))
            && (err.Some? ==> after == s)
  {
    if Inv(s) {
      UpdateShiftKeeps(s, dealership, technician, shift, p);
      if LiveShiftOf(s.shifts, shift, technician) {
        UncoveredIff(s, technician, Patched(s.shifts[shift].window, p), shift, s.clock);
        assert s.(clock := s.clock) == s;
      }
    }
    hide Inv, UncoveredBooking, LeansOn;
    if LiveShiftOf(s.shifts, shift, technician) {
      WritingShift(s.shifts, shift, technician, Patched(s.shifts[shift].window, p));
    }
    hide ShiftWritten;
  }

  ghost function DeleteShiftAnswer(s: Store, dealership: Id, technician: Id, shift: Id): Option<Error> {
    if !OnRoster(s.catalog, technician, dealership) || !HasShift(s.shifts, shift, technician) then Some(NotFound)
    else if !NobodyLeans(s, technician, shift) then Some(ShiftChangeConflict)
    else None
  }

  lemma DeleteShiftMeans(s: Store, dealership: Id, technician: Id, shift: Id)
    ensures Inv(s) ==> Inv(DeleteShift(s, dealership, technician, shift).0)
    ensures Inv(s) ==> DeleteShift(s, dealership, technician, shift).1 == DeleteShiftAnswer(s, dealership, technician, shift)
    ensures var (after, err) := DeleteShift(s, dealership, technician, shift);
            && after == s.(shifts := after.shifts)
            && (err.None? ==> ShiftRemoved(s.shifts, after.shifts, shift))
            && (err.Some? ==> after == s)
  {
    if Inv(s) {
      DeleteShiftKeeps(s, dealership, technician, shift);
      if ActiveTechnician(s.catalog, technician, dealership) && LiveShiftOf(s.shifts, shift, technician) {
        ServedNow(s, DeleteShiftRequest(dealership, technician, shift));
        DeleteShiftSucceedsIff(s, dealership, technician, shift, s.clock);
      }
    }
    hide Inv, UncoveredBooking, LeansOn, Step;
    if shift in s.shifts {
      RemovingShift(s.shifts, shift);
    }
    hide ShiftRemoved;
  }

  // ----- time off -----

  // One item was added or replaced: its technician is away in the new interval and no
  // longer in the one it replaced, and everybody else is away as before.
  ghost predicate TimeOffWritten(before: TimeOffs, after: TimeOffs, off: Id, technician: Id, startsAt: Instant, endsAt: Instant) {
    && after == before[off := TimeOff(technician, startsAt, endsAt, false)]
    && forall other, a, b ::
         Away(after, other, a, b) <==> Away(before - {off}, other, a, b) || (other == technician && startsAt < b && a < endsAt)
  }

  ghost predicate TimeOffRemoved(before: TimeOffs, after: TimeOffs, off: Id) {
    && off in before && after == before[off := before[off].(deleted := true)]
    && forall other, a, b :: Away(after, other, a, b) <==> Away(before - {off}, other, a, b)
  }

  lemma WritingTimeOff(timeOff: TimeOffs, off: Id, technician: Id, startsAt: Instant, endsAt: Instant)
    ensures TimeOffWritten(timeOff, timeOff[off := TimeOff(technician, startsAt, endsAt, false)], off, technician, startsAt, endsAt)
  {
    var after, others := timeOff[off := TimeOff(technician, startsAt, endsAt, false)], timeOff - {off};
    forall other, a, b
      ensures Away(after, other, a, b) <==> Away(others, other, a, b) || (other == technician && startsAt < b && a < endsAt)
    {
      assert off in after && after[off] == TimeOff(technician, startsAt, endsAt, false);
      assert forall v | v in others :: v in after && after[v] == others[v];
      assert forall v | v in after && v != off :: v in others && after[v] == others[v];
    }
  }

  lemma RemovingTimeOff(timeOff: TimeOffs, off: Id)
    requires off in timeOff
    ensures TimeOffRemoved(timeOff, timeOff[off := timeOff[off].(deleted := true)], off)
  {
    var after, others := timeOff[off := timeOff[off].(deleted := true)], timeOff - {off};
    forall other, a, b
      ensures Away(after, other, a, b) <==> Away(others, other, a, b)
    {
      assert forall v | v in others :: v in after && after[v] == others[v];
      assert forall v | v in after && v != off :: v in others && after[v] == others[v];
    }
  }

  lemma UnreleasedIsActive(bookings: Bookings, reservations: Reservations)
    requires Linked(bookings, reservations)
    ensures forall r | r in reservations && reservations[r].releasedAt.None? :: Active(reservations[r].status)
  {
  }

  lemma EngagedTakes(reservations: Reservations, technician: Id, startsAt: Instant, endsAt: Instant)
    requires forall r | r in reservations && reservations[r].releasedAt.None? :: Active(reservations[r].status)
    ensures Engaged(reservations, technician, startsAt, endsAt)
            <==> ReservationConflict(reservations, TechnicianResource, technician, startsAt, endsAt)
  {
  }

  lemma EngagedIsConflict(s: Store, technician: Id, startsAt: Instant, endsAt: Instant)
    requires Inv(s)
    ensures Engaged(s.reservations, technician, startsAt, endsAt)
            <==> ActiveOverlap(s.bookings, TechnicianResource, technician, startsAt, endsAt, None)
  {
    hide Linked, LedgerDisjoint, Catalogued, Owned, ShiftsCover, ShiftsSound, TimeOffClear, Audited, ActiveOverlap, Engaged,
      ReservationConflict;
    GuardsAgree(s, TechnicianResource, technician, startsAt, endsAt);
    UnreleasedIsActive(s.bookings, s.reservations);
    EngagedTakes(s.reservations, technician, startsAt, endsAt);
  }

  lemma AwayIsConflict(timeOff: TimeOffs, technician: Id, startsAt: Instant, endsAt: Instant, off: Id)
    ensures Away(timeOff - {off}, technician, startsAt, endsAt) <==> TimeOffConflict(timeOff, technician, startsAt, endsAt, off)
  {
    var others := timeOff - {off};
    assert forall v | v in others :: v in timeOff && timeOff[v] == others[v];
    assert forall v | v in timeOff && v != off :: v in others && timeOff[v] == others[v];
  }

  function CreateTimeOffAnswer(s: Store, dealership: Id, technician: Id, off: Id, startsAt: Instant, endsAt: Instant): Option<Error> {
    if !Employed(s.catalog, technician, dealership) then Some(NotFound)
    else if off == 0 || endsAt <= startsAt then Some(InvalidInput)
    else if Engaged(s.reservations, technician, startsAt, endsAt) then Some(TimeOffAppointmentConflict)
    else if off in s.timeOff then Some(ConstraintViolation)
    else if Away(s.timeOff, technician, startsAt, endsAt) then Some(TimeOffOverlaps)
    else None
  }

  lemma CreateTimeOffMeans(s: Store, dealership: Id, technician: Id, off: Id, startsAt: Instant, endsAt: Instant)
    ensures Inv(s) ==> Inv(CreateTimeOff(s, dealership, technician, off, startsAt, endsAt).0)
    ensures var (after, err) := CreateTimeOff(s, dealership, technician, off, startsAt, endsAt);
            && (Inv(s) ==> err == CreateTimeOffAnswer(s, dealership, technician, off, startsAt, endsAt))
            && after == s.(timeOff := after.timeOff)
            && (err.None? ==> TimeOffWritten(s.timeOff, after.timeOff, off, technician, startsAt, endsAt))
            && (err.Some? ==> after == s)
  {
    hide Inv, Step, Engaged, ActiveOverlap, Away, TimeOffConflict, TimeOffWritten;
    if Inv(s) {
      var q := CreateTimeOffRequest(dealership, technician, off, startsAt, endsAt);
      ServedNow(s, q);
      TimeOffStepKeeps(s, q, s.clock);
      EngagedIsConflict(s, technician, startsAt, endsAt);
    }
    AwayIsConflict(s.timeOff, technician, startsAt, endsAt, off);
    WritingTimeOff(s.timeOff, off, technician, startsAt, endsAt);
    assert off !in s.timeOff ==> s.timeOff - {off} == s.timeOff;
  }

  function UpdateTimeOffAnswer(
    s: Store, dealership: Id, technician: Id, off: Id, newStart: Option<Instant>, newEnd: Option<Instant>): Option<Error>
  {
    if !Employed(s.catalog, technician, dealership) || !HasTimeOff(s.timeOff, off, technician) then Some(NotFound)
    else
      var startsAt, endsAt := Given(newStart, s.timeOff[off].startsAt), Given(newEnd, s.timeOff[off].endsAt);
      if endsAt <= startsAt then Some(InvalidInput)
      else if Engaged(s.reservations, technician, startsAt, endsAt) then Some(TimeOffAppointmentConflict)
      else if Away(s.timeOff - {off}, technician, startsAt, endsAt) then Some(TimeOffOverlaps)
      else None
  }

  lemma UpdateTimeOffMeans(s: Store, dealership: Id, technician: Id, off: Id, newStart: Option<Instant>, newEnd: Option<Instant>)
    ensures Inv(s) ==> Inv(UpdateTimeOff(s, dealership, technician, off, newStart, newEnd).0)
    ensures var (after, err) := UpdateTimeOff(s, dealership, technician, off, newStart, newEnd);
            && (Inv(s) ==> err == UpdateTimeOffAnswer(s, dealership, technician, off, newStart, newEnd))
            && after == s.(timeOff := after.timeOff)
            && (err.None? ==>
                  && HasTimeOff(s.timeOff, off, technician)
                  && TimeOffWritten(s.timeOff, after.timeOff, off, technician,
                                    Given(newStart, s.timeOff[off].startsAt), Given(newEnd, s.timeOff[off].endsAt)))
            && (err.Some? ==> after == s)
  {
    hide Inv, Step, Engaged, ActiveOverlap, Away, TimeOffConflict, TimeOffWritten;
    if Inv(s) {
      var q := UpdateTimeOffRequest(dealership, technician, off, newStart, newEnd);
      ServedNow(s, q);
      TimeOffStepKeeps(s, q, s.clock);
    }
    if off in s.timeOff {
      var startsAt, endsAt := newStart.GetOr(s.timeOff[off].startsAt), newEnd.GetOr(s.timeOff[off].endsAt);
      if Inv(s) {
        EngagedIsConflict(s, technician, startsAt, endsAt);
      }
      AwayIsConflict(s.timeOff, technician, startsAt, endsAt, off);
      WritingTimeOff(s.timeOff, off, technician, startsAt, endsAt);
    }
  }

  function DeleteTimeOffAnswer(s: Store, dealership: Id, technician: Id, off: Id): Option<Error> {
    if !Employed(s.catalog, technician, dealership) || !HasTimeOff(s.timeOff, off, technician) then Some(NotFound) else None
  }

  lemma DeleteTimeOffMeans(s: Store, dealership: Id, technician: Id, off: Id)
    ensures Inv(s) ==> Inv(DeleteTimeOff(s, dealership, technician, off).0)
    ensures var (after, err) := DeleteTimeOff(s, dealership, technician, off);
            && err == DeleteTimeOffAnswer(s, dealership, technician, off)
            && after == s.(timeOff := after.timeOff)
            && (err.None? ==> TimeOffRemoved(s.timeOff, after.timeOff, off))
            && (err.Some? ==> after == s)
  {
    if Inv(s) {
      var q := DeleteTimeOffRequest(dealership, technician, off);
      ServedNow(s, q);
      TimeOffStepKeeps(s, q, s.clock);
    }
    if off in s.timeOff {
      RemovingTimeOff(s.timeOff, off);
    }
    hide Inv, Step, TimeOffRemoved;
  }

  // ----- vehicles -----

  function CreateVehicleAnswer(s: Store, dealership: Id, vehicle: Id, customer: Id, vin: Option<string>): Option<Error> {
    if customer !in s.customers then Some(NotFound)
    else if customer in s.owners && s.owners[customer] != dealership then Some(VehicleForbidden)
    else if vehicle in s.vehicles then Some(ConstraintViolation)
    else if VinUsed(s.vehicles, vin, vehicle) then Some(VehicleVinTaken)
    else None
  }

  // The vehicle is the customer's and the customer the dealership's; nobody else's
  // vehicle or dealership changes.
  lemma CreateVehicleMeans(s: Store, dealership: Id, vehicle: Id, customer: Id, vin: Option<string>)
    ensures Inv(s) ==> Inv(CreateVehicle(s, dealership, vehicle, customer, vin).0)
    ensures var (after, err) := CreateVehicle(s, dealership, vehicle, customer, vin);
            && err == CreateVehicleAnswer(s, dealership, vehicle, customer, vin)
            && (err.None? ==> after == s.(owners := s.owners[customer := dealership],
                                          vehicles := s.vehicles[vehicle := Vehicle(customer, vin, false)]))
            && (err.Some? ==> after == s)
  {
    if Inv(s) {
      CreateVehicleKeeps(s, dealership, vehicle, customer, vin);
    }
    hide Inv;
    assert customer in s.owners && s.owners[customer] == dealership ==> s.owners[customer := dealership] == s.owners;
  }

  predicate HasVehicle(vehicles: Vehicles, vehicle: Id) {
    vehicle in vehicles && !vehicles[vehicle].deleted
  }

  function UpdateVehicleAnswer(s: Store, vehicle: Id, vin: Option<string>): Option<Error> {
    if !HasVehicle(s.vehicles, vehicle) then Some(NotFound)
    else if VinUsed(s.vehicles, vin, vehicle) then Some(VehicleVinTaken)
    else None
  }

  function DeleteVehicleAnswer(s: Store, vehicle: Id): Option<Error> {
    if !HasVehicle(s.vehicles, vehicle) then Some(NotFound) else None
  }

  // An edited vehicle stays its customer's, and a deleted one can no longer be booked.
  lemma EditVehicleMeans(s: Store, vehicle: Id, vin: Option<string>)
    ensures var (after, err) := UpdateVehicle(s, vehicle, vin);
            && err == UpdateVehicleAnswer(s, vehicle, vin)
            && (err.None? ==>
                  vehicle in s.vehicles && after == s.(vehicles := s.vehicles[vehicle := Vehicle(s.vehicles[vehicle].customer, vin, false)]))
            && (err.Some? ==> after == s)
    ensures var (after, err) := DeleteVehicle(s, vehicle);
            && err == DeleteVehicleAnswer(s, vehicle)
            && (err.None? ==>
                  vehicle in s.vehicles && after == s.(vehicles := s.vehicles[vehicle := s.vehicles[vehicle].(deleted := true)]))
            && (err.Some? ==> after == s)
  {
  }

  // ----- bays and service types -----

  predicate HasBay(c: Catalog, bay: Id, dealership: Id) {
    bay in c.bays && c.bays[bay].dealership == dealership && !c.bays[bay].deleted
  }

  function DeleteBayAnswer(s: Store, dealership: Id, bay: Id): Option<Error> {
    if !HasBay(s.catalog, bay, dealership) then Some(NotFound)
    else if exists id | id in s.bookings :: s.bookings[id].bay == bay then Some(InUse)
    else None
  }

  // A deleted bay is offered to nobody; every other bay is offered as before.
  lemma DeleteBayMeans(s: Store, dealership: Id, bay: Id)
    ensures Inv(s) ==> Inv(DeleteBay(s, dealership, bay).0)
    ensures var (after, err) := DeleteBay(s, dealership, bay);
            && err == DeleteBayAnswer(s, dealership, bay)
            && (err.Some? ==> after == s)
            && (err.None? ==>
                  && bay in s.catalog.bays
                  && after == s.(catalog := s.catalog.(bays := s.catalog.bays[bay := s.catalog.bays[bay].(deleted := true)]))
                  && forall d, serviceType, startsAt, endsAt ::
                       AvailableBays(after, d, serviceType, startsAt, endsAt)
                       == AvailableBays(s, d, serviceType, startsAt, endsAt) - {bay})
  {
    if Inv(s) {
      DeleteBayKeeps(s, dealership, bay);
    }
    hide Inv;
    if DeleteBay(s, dealership, bay).1.None? {
      var after := DeleteBay(s, dealership, bay).0;
      hide BayReferenced, ActiveOverlap;
      forall d, serviceType, startsAt, endsAt
        ensures AvailableBays(after, d, serviceType, startsAt, endsAt) == AvailableBays(s, d, serviceType, startsAt, endsAt) - {bay}
      {
        assert forall x :: x in AvailableBays(after, d, serviceType, startsAt, endsAt)
                           <==> x in AvailableBays(s, d, serviceType, startsAt, endsAt) - {bay};
      }
    }
  }

  predicate HasServiceType(c: Catalog, serviceType: Id, dealership: Id) {
    && serviceType in c.serviceTypes
    && c.serviceTypes[serviceType].dealership == dealership && !c.serviceTypes[serviceType].deleted
  }

  function DeleteServiceTypeAnswer(s: Store, dealership: Id, serviceType: Id): Option<Error> {
    if !HasServiceType(s.catalog, serviceType, dealership) then Some(NotFound)
    else if exists id | id in s.bookings :: s.bookings[id].serviceType == serviceType then Some(InUse)
    else None
  }

  // A deleted service type can no longer be booked; every other one as before.
  lemma DeleteServiceTypeMeans(s: Store, dealership: Id, serviceType: Id)
    ensures Inv(s) ==> Inv(DeleteServiceType(s, dealership, serviceType).0)
    ensures var (after, err) := DeleteServiceType(s, dealership, serviceType);
            && err == DeleteServiceTypeAnswer(s, dealership, serviceType)
            && (err.Some? ==> after == s)
            && (err.None? ==>
                  && serviceType in s.catalog.serviceTypes
                  && after == s.(catalog := s.catalog.(serviceTypes :=
                       s.catalog.serviceTypes[serviceType := s.catalog.serviceTypes[serviceType].(deleted := true)]))
                  && (forall i: BookingInput | i.serviceType == serviceType :: Schedule(after, i).1.Some?)
                  && (forall i: BookingInput | i.serviceType != serviceType :: Offered(after.catalog, i) <==> Offered(s.catalog, i)))
  {
    if Inv(s) {
      DeleteServiceTypeKeeps(s, dealership, serviceType);
    }
    hide Inv;
    var (after, err) := DeleteServiceType(s, dealership, serviceType);
    if err.None? {
      hide ServiceTypeReferenced;
      forall i: BookingInput | i.serviceType == serviceType
        ensures Schedule(after, i).1.Some?
      {
        assert !ActiveServiceType(after.catalog, serviceType, i.dealership);
        assert CheckBooking(after, i).Err?;
      }
    }
  }

  // ----- every request -----

  // The transition a handler's request stands for, stamped with the time.
  function Stamped(c: ChangeInput, now: Instant): Transition {
    Transition(c.from, c.to, c.actor, now, c.actualEndsAt, c.reason, c.note)
  }

  // What a request is answered in state s, whose clock is the time of the request.
  ghost function Answer(s: Store, q: Request): Option<Error> {
    match q
    case ScheduleRequest(i) => BookingAnswer(s, i)
    case ChangeRequest(c) => TransitionAnswer(s, c.id, c.dealership, Stamped(c, s.clock))
    case CreateShiftRequest(d, tech, shift, w) => CreateShiftAnswer(s, d, tech, shift, w)
    case UpdateShiftRequest(d, tech, shift, p) => UpdateShiftAnswer(s, d, tech, shift, p)
    case DeleteShiftRequest(d, tech, shift) => DeleteShiftAnswer(s, d, tech, shift)
    case CreateTimeOffRequest(d, tech, off, st, en) => CreateTimeOffAnswer(s, d, tech, off, st, en)
    case UpdateTimeOffRequest(d, tech, off, st, en) => UpdateTimeOffAnswer(s, d, tech, off, st, en)
    case DeleteTimeOffRequest(d, tech, off) => DeleteTimeOffAnswer(s, d, tech, off)
    case CreateCustomerRequest(c) => None
    case CreateVehicleRequest(d, v, c, vin) => CreateVehicleAnswer(s, d, v, c, vin)
    case UpdateVehicleRequest(v, vin) => UpdateVehicleAnswer(s, v, vin)
    case DeleteVehicleRequest(v) => DeleteVehicleAnswer(s, v)
    case DeleteBayRequest(d, b) => DeleteBayAnswer(s, d, b)
    case DeleteServiceTypeRequest(d, x) => DeleteServiceTypeAnswer(s, d, x)
    case ConfigureRequest(c) => None
  }

  // What a request leaves when it is answered without an error.
  ghost predicate Leaves(s: Store, q: Request, after: Store) {
    match q
    case ScheduleRequest(i) => Booked(s, after, i)
    case ChangeRequest(c) => Transitioned(s, after, c.id, c.dealership, Stamped(c, s.clock))
    case CreateShiftRequest(d, tech, shift, w) =>
      after == s.(shifts := after.shifts) && ShiftWritten(s.shifts, after.shifts, shift, tech, w)
    case UpdateShiftRequest(d, tech, shift, p) =>
      && HasShift(s.shifts, shift, tech)
      && after == s.(shifts := after.shifts)
      && ShiftWritten(s.shifts, after.shifts, shift, tech, WindowAfter(s.shifts[shift].window, p))
    case DeleteShiftRequest(d, tech, shift) => after == s.(shifts := after.shifts) && ShiftRemoved(s.shifts, after.shifts, shift)
    case CreateTimeOffRequest(d, tech, off, st, en) =>
      after == s.(timeOff := after.timeOff) && TimeOffWritten(s.timeOff, after.timeOff, off, tech, st, en)
    case UpdateTimeOffRequest(d, tech, off, st, en) =>
      && HasTimeOff(s.timeOff, off, tech)
      && after == s.(timeOff := after.timeOff)
      && TimeOffWritten(s.timeOff, after.timeOff, off, tech, Given(st, s.timeOff[off].startsAt), Given(en, s.timeOff[off].endsAt))
    case DeleteTimeOffRequest(d, tech, off) => after == s.(timeOff := after.timeOff) && TimeOffRemoved(s.timeOff, after.timeOff, off)
    case CreateCustomerRequest(c) => after == s.(customers := s.customers + {c})
    case CreateVehicleRequest(d, v, c, vin) =>
      after == s.(owners := s.owners[c := d], vehicles := s.vehicles[v := Vehicle(c, vin, false)])
    case UpdateVehicleRequest(v, vin) =>
      v in s.vehicles && after == s.(vehicles := s.vehicles[v := Vehicle(s.vehicles[v].customer, vin, false)])
    case DeleteVehicleRequest(v) =>
      v in s.vehicles && after == s.(vehicles := s.vehicles[v := s.vehicles[v].(deleted := true)])
    case DeleteBayRequest(d, b) =>
      && b in s.catalog.bays
      && after == s.(catalog := s.catalog.(bays := s.catalog.bays[b := s.catalog.bays[b].(deleted := true)]))
    case DeleteServiceTypeRequest(d, x) =>
      && x in s.catalog.serviceTypes
      && after == s.(catalog := s.catalog.(
           serviceTypes := s.catalog.serviceTypes[x := s.catalog.serviceTypes[x].(deleted := true)]))
    case ConfigureRequest(c) => after == s.(catalog := c)
  }

  lemma ServedAtClock(s: Store, q: Request)
    requires Inv(s) && Admissible(s, q)
    ensures var (after, err) := Step(s, q, s.clock);
            err == Answer(s, q) && (if err.None? then Leaves(s, q, after) else after == s)
  {
    hide Inv, Schedule, Change, CreateShift, UpdateShift, DeleteShift, CreateTimeOff, UpdateTimeOff, DeleteTimeOff,
      CreateVehicle, UpdateVehicle, DeleteVehicle, DeleteBay, DeleteServiceType,
      Booked, BookingAnswer, Transitioned, TransitionAnswer, ShiftWritten, ShiftRemoved, CreateShiftAnswer, UpdateShiftAnswer,
      DeleteShiftAnswer, TimeOffWritten, TimeOffRemoved, CreateTimeOffAnswer, UpdateTimeOffAnswer, DeleteTimeOffAnswer,
      CreateVehicleAnswer, UpdateVehicleAnswer, DeleteVehicleAnswer, DeleteBayAnswer, DeleteServiceTypeAnswer, AvailableBays,
      HasShift, HasTimeOff, WindowAfter, Bookable, FreshKeys, Stands, ShiftsSound, OnRoster, Offered, ChangeAppointment;
    assert s.(clock := s.clock) == s;
    match q {
      case ScheduleRequest(i) => ScheduleMeans(s, i);
      case ChangeRequest(c) => ChangeMeans(s, c.id, c.dealership, Stamped(c, s.clock));
      case CreateShiftRequest(d, tech, shift, w) => CreateShiftMeans(s, d, tech, shift, w);
      case UpdateShiftRequest(d, tech, shift, p) => UpdateShiftMeans(s, d, tech, shift, p);
      case DeleteShiftRequest(d, tech, shift) => DeleteShiftMeans(s, d, tech, shift);
      case CreateTimeOffRequest(d, tech, off, st, en) => CreateTimeOffMeans(s, d, tech, off, st, en);
      case UpdateTimeOffRequest(d, tech, off, st, en) => UpdateTimeOffMeans(s, d, tech, off, st, en);
      case DeleteTimeOffRequest(d, tech, off) => DeleteTimeOffMeans(s, d, tech, off);
      case CreateCustomerRequest(c) =>
      case CreateVehicleRequest(d, v, c, vin) => CreateVehicleMeans(s, d, v, c, vin);
      case UpdateVehicleRequest(v, vin) => EditVehicleMeans(s, v, vin);
      case DeleteVehicleRequest(v) => EditVehicleMeans(s, v, None);
      case DeleteBayRequest(d, b) => DeleteBayMeans(s, d, b);
      case DeleteServiceTypeRequest(d, x) => DeleteServiceTypeMeans(s, d, x);
      case ConfigureRequest(c) =>
    }
  }

  // Every request that the handlers can send is answered and carried out as its rows
  // and columns say; a refused one changes nothing but the time.
  lemma EveryRequestMeans(s: Store, q: Request, now: Instant)
    requires Inv(s) && s.clock <= now && Admissible(s, q)
    ensures var (at, (after, err)) := (s.(clock := now), Step(s, q, now));
            err == Answer(at, q) && (if err.None? then Leaves(at, q, after) else after == at)
  {
    TickKeeps(s, now);
    ServedAtClock(s.(clock := now), q);
    assert Step(s, q, now) == Step(s.(clock := now), q, now);
    hide Inv, Step, Answer, Leaves;
  }
}
