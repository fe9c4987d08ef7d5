/**
 The scheduler's database as the repository drives it: one field per table,
 rewritten in place. Each method is one transaction. Its contract gives the whole
 new state as the matching function of module Ledger and then says what that means
 to the caller while the invariant holds. Queries and updates over several rows go
 through the table row by row.
 */
module Database {
  import opened Outcomes
  import opened LocalClock
  import opened Lifecycle
  import opened Tables
  import opened Ledger
  import opened LedgerInvariant
  import opened LedgerTheorems
  import opened LedgerHistory
  import opened RequestMeaning

  lemma ServeKeeps(s: Store, q: Request, now: Instant)
    ensures Inv(s) && s.clock <= now && Admissible(s, q) ==> Inv(Step(s, q, now).0)
    ensures TimeOffSound(s.timeOff) ==> TimeOffSound(Step(s, q, now).0.timeOff)
    ensures Inv(s) && s.clock <= now && Admissible(s, q) ==>
              var (after, err) := Step(s, q, now);
              && err == Answer(s.(clock := now), q)
              && if err.None? then Leaves(s.(clock := now), q, after) else after == s.(clock := now)
  {
    hide Inv, TimeOffSound, Admissible, Step, Answer, Leaves;
    if Inv(s) && s.clock <= now && Admissible(s, q) {
      StepKeeps(s, q, now);
      EveryRequestMeans(s, q, now);
    }
    if TimeOffSound(s.timeOff) {
      StepKeepsTimeOff(s, q, now);
    }
  }

  class SchedulerDatabase {
    var catalog: Catalog
    var customers: set<Id>
    var owners: Owners
    var vehicles: Vehicles
    var shifts: Shifts
    var timeOff: TimeOffs
    var bookings: Bookings
    var reservations: Reservations
    var audit: seq<AuditEvent>
    var clock: Instant

    constructor ()
      ensures View() == EMPTY
    {
      catalog := Catalog(map[], {}, map[], map[], map[]);
      customers, owners, vehicles := {}, map[], map[];
      shifts, timeOff := map[], map[];
      bookings, reservations, audit := map[], map[], [];
      clock := 0;
    }

    function View(): Store
      reads this
    {
      Store(catalog, customers, owners, vehicles, shifts, timeOff, bookings, reservations, audit, clock)
    }

    // ----- queries and updates over several rows -----

    method ReservationsConflict(kind: Kind, resource: Id, startsAt: Instant, endsAt: Instant) returns (found: bool)
      ensures found == ReservationConflict(reservations, kind, resource, startsAt, endsAt)
    {
      var rest := reservations.Keys;
      while rest != {}
        invariant rest <= reservations.Keys
        invariant forall r | r in reservations.Keys - rest :: !Takes(reservations[r], kind, resource, startsAt, endsAt)
        decreases |rest|
      {
        var r :| r in rest;
        if Takes(reservations[r], kind, resource, startsAt, endsAt) {
          return true;
        }
        rest := rest - {r};
      }
      return false;
    }

    method HasActiveOverlap(kind: Kind, resource: Id, startsAt: Instant, endsAt: Instant) returns (found: bool)
      ensures found == ActiveOverlap(bookings, kind, resource, startsAt, endsAt, None)
    {
      var rest := bookings.Keys;
      while rest != {}
        invariant rest <= bookings.Keys
        invariant forall id | id in bookings.Keys - rest ::
                    !(IsActive(bookings[id]) && Resource(bookings[id], kind) == resource && BookingOverlaps(bookings[id], startsAt, endsAt))
        decreases |rest|
      {
        var id :| id in rest;
        if IsActive(bookings[id]) && Resource(bookings[id], kind) == resource && BookingOverlaps(bookings[id], startsAt, endsAt) {
          return true;
        }
        rest := rest - {id};
      }
      return false;
    }

    // The inner NOT EXISTS of the coverage query, over the shifts.
    method OtherShiftHolds(technician: Id, excluded: Id, startsAt: Instant, endsAt: Instant, offset: int) returns (found: bool)
      ensures found == OnShift(shifts - {excluded}, technician, startsAt, endsAt, offset)
    {
      var others := shifts - {excluded};
      var rest := others.Keys;
      while rest != {}
        invariant rest <= others.Keys
        invariant forall v | v in others.Keys - rest ::
                    !(LiveShiftOf(others, v, technician) && InWindow(others[v].window, startsAt, endsAt, offset))
        decreases |rest|
      {
        var v :| v in rest;
        if !others[v].deleted && others[v].technician == technician && InWindow(others[v].window, startsAt, endsAt, offset) {
          return true;
        }
        rest := rest - {v};
      }
      return false;
    }

    // The coverage query, over the bookings.
    method HasFutureAppointmentsOutside(technician: Id, candidate: Window, excluded: Id) returns (found: bool)
      ensures found == UncoveredBooking(View(), technician, candidate, excluded)
    {
      var rest := bookings.Keys;
      while rest != {}
        invariant rest <= bookings.Keys
        invariant forall id | id in bookings.Keys - rest :: !Uncovered(View(), id, technician, candidate, excluded)
        decreases |rest|
      {
        var id :| id in rest;
        var b := bookings[id];
        if b.technician == technician && technician in catalog.technicians && IsActive(b) && b.row.endsAt > clock {
          var offset := Offset(catalog, catalog.technicians[technician].dealership);
          var held := OtherShiftHolds(technician, excluded, b.row.startsAt, b.row.endsAt, offset);
          if !held && !InWindow(candidate, b.row.startsAt, b.row.endsAt, offset) {
            return true;
          }
        }
        rest := rest - {id};
      }
      return false;
    }

    method ShiftsConflict(technician: Id, w: Window, except: Id) returns (found: bool)
      ensures found == ShiftConflict(shifts, technician, w, except)
    {
      var rest := shifts.Keys;
      while rest != {}
        invariant rest <= shifts.Keys
        invariant forall v | v in shifts.Keys - rest ::
                    !(v != except && LiveShiftOf(shifts, v, technician) && WindowsOverlap(shifts[v].window, w))
        decreases |rest|
      {
        var v :| v in rest;
        if v != except && LiveShiftOf(shifts, v, technician) && WindowsOverlap(shifts[v].window, w) {
          return true;
        }
        rest := rest - {v};
      }
      return false;
    }

    method TimeOffConflicts(technician: Id, startsAt: Instant, endsAt: Instant, except: Id) returns (found: bool)
      ensures found == TimeOffConflict(timeOff, technician, startsAt, endsAt, except)
    {
      var rest := timeOff.Keys;
      while rest != {}
        invariant rest <= timeOff.Keys
        invariant forall v | v in timeOff.Keys - rest ::
                    !(v != except && LiveTimeOffOf(timeOff, v, technician)
                      && Overlaps(timeOff[v].startsAt, timeOff[v].endsAt, startsAt, endsAt))
        decreases |rest|
      {
        var v :| v in rest;
        if v != except && LiveTimeOffOf(timeOff, v, technician) && Overlaps(timeOff[v].startsAt, timeOff[v].endsAt, startsAt, endsAt) {
          return true;
        }
        rest := rest - {v};
      }
      return false;
    }

    // UPDATE ... SET released_at, status WHERE appointment_id = id AND released_at IS NULL
    method ReleaseReservations(id: Id, status: Status, now: Instant)
      modifies this`reservations
      ensures reservations == Release(old(reservations), id, status, now)
    {
      var rest := reservations.Keys;
      while rest != {}
        invariant rest <= reservations.Keys == old(reservations).Keys
        invariant forall r | r in rest :: reservations[r] == old(reservations)[r]
        invariant forall r | r in reservations.Keys - rest :: reservations[r] == Release(old(reservations), id, status, now)[r]
        decreases |rest|
      {
        var r :| r in rest;
        if reservations[r].booking == id && reservations[r].releasedAt.None? {
          reservations := reservations[r := reservations[r].(releasedAt := Some(now), status := status)];
        }
        rest := rest - {r};
      }
    }

    // ----- booking and lifecycle -----

    // INSERT INTO appointments
    method InsertBookingRow(id: Id, b: Booking) returns (err: Option<Error>)
      modifies this`bookings
      ensures match InsertBooking(old(View()), id, b)
              case Ok(s) => err.None? && View() == s
              case Err(e) => err == Some(e) && View() == old(View())
    {
      if IsActive(b) && OnTimeOff(timeOff, b.technician, b.row.startsAt, b.row.endsAt) {
        return Some(Unavailable);
      }
      if b.row.endsAt <= b.row.startsAt || b.plannedMinutes <= 0 {
        return Some(ConstraintViolation);
      }
      if id in bookings || ReferenceTaken(bookings, b.referenceCode) {
        return Some(ConstraintViolation);
      }
      var technicianBusy := HasActiveOverlap(TechnicianResource, b.technician, b.row.startsAt, b.row.endsAt);
      var bayBusy := HasActiveOverlap(BayResource, b.bay, b.row.startsAt, b.row.endsAt);
      if technicianBusy || bayBusy {
        return Some(Unavailable);
      }
      bookings := bookings[id := b];
      err := None;
    }

    // INSERT INTO appointment_resource_reservations
    method InsertReservationRow(key: Id, r: Reservation) returns (err: Option<Error>)
      modifies this`reservations
      ensures match InsertReservation(old(reservations), key, r)
              case Ok(rows) => err.None? && reservations == rows
              case Err(e) => err == Some(e) && reservations == old(reservations)
    {
      if r.endsAt <= r.startsAt || key in reservations {
        return Some(ConstraintViolation);
      }
      var busy := ReservationsConflict(r.kind, r.resource, r.startsAt, r.endsAt);
      if busy {
        return Some(Unavailable);
      }
      reservations := reservations[key := r];
      err := None;
    }

    // The reads of the booking transaction. The planned minutes are filled in on
    // the way, as the transaction body fills them in on its record.
    method ReadBooking(i: BookingInput) returns (b: Result<Booking, Error>)
      ensures b == CheckBooking(View(), i)
    {
      if i.customer == 0 || i.vehicle == 0 || i.serviceType == 0 || i.technician == 0 || i.bay == 0 {
        return Err(InvalidInput);
      }
      if i.planned.Some? && i.planned.value <= 0 {
        return Err(InvalidInput);
      }
      if !ActiveDealership(catalog, i.dealership) || !ActiveServiceType(catalog, i.serviceType, i.dealership) {
        return Err(NotFound);
      }
      var service := catalog.serviceTypes[i.serviceType];
      var minutes := i.planned.GetOr(0);
      if minutes == 0 {
        minutes := service.maxMinutes;
      }
      if minutes < service.minMinutes || minutes > service.maxMinutes {
        return Err(InvalidInput);
      }
      var endsAt := EndOf(i.startsAt, minutes);
      if !CustomerVehicle(vehicles, owners, i.vehicle, i.customer, i.dealership) {
        return Err(InvalidCustomerVehicle);
      }
      if !WithinOpeningHours(catalog, i.dealership, i.startsAt, endsAt) {
        return Err(OutsideOpeningHours);
      }
      if !CompatibleTechnician(catalog, i.technician, i.dealership, service.requiredSkills) {
        return Err(IncompatibleTechnician);
      }
      if !CompatibleBay(catalog, i.bay, i.dealership, service.requiredCapabilities) {
        return Err(IncompatibleBay);
      }
      var available := OnShift(shifts, i.technician, i.startsAt, endsAt, Offset(catalog, i.dealership))
                       && !OnTimeOff(timeOff, i.technician, i.startsAt, endsAt);
      if !available {
        return Err(OutsideTechnicianSchedule);
      }
      b := Ok(NewBooking(i, minutes, clock));
    }

    // What the reservation rows are after the first n resources were reserved.
    ghost predicate Reserved(before: Reservations, i: BookingInput, b: Booking, n: nat)
      reads this`reservations
    {
      var first := InsertReservation(before, i.technicianReservation, NewReservation(i.id, b, TechnicianResource));
      && (n == 0 ==> reservations == before)
      && (n == 1 ==> first == Ok(reservations))
      && (n == 2 ==> first.Ok?
                     && InsertReservation(first.value, i.bayReservation, NewReservation(i.id, b, BayResource)) == Ok(reservations))
    }

    // The transaction body.
    method WriteBooking(i: BookingInput) returns (err: Option<Error>)
      modifies this
      ensures (View(), err) == Schedule(old(View()), i)
    {
      hide CheckBooking, ActiveOverlap, OnTimeOff, ReferenceTaken, ReservationConflict;
      var checked := ReadBooking(i);
      if checked.Err? {
        return Some(checked.error);
      }
      var b := checked.value;
      var savedBookings, savedReservations := bookings, reservations;
      err := InsertBookingRow(i.id, b);
      if err.Some? {
        return;
      }
      var resources := [(TechnicianResource, i.technicianReservation), (BayResource, i.bayReservation)];
      for n := 0 to 2
        invariant View() == old(View()).(bookings := savedBookings[i.id := b], reservations := reservations)
        invariant Reserved(savedReservations, i, b, n)
      {
        err := InsertReservationRow(resources[n].1, NewReservation(i.id, b, resources[n].0));
        if err.Some? {
          bookings, reservations := savedBookings, savedReservations; // rollback
          return;
        }
      }
      audit := audit + [Created(i.id, i.createdBy, b.row.startsAt, b.row.endsAt, clock)];
      err := None;
    }

    method ScheduleAppointment(i: BookingInput) returns (err: Option<Error>)
      modifies this
      ensures (View(), err) == Schedule(old(View()), i)
      ensures Inv(old(View())) ==> Inv(View())
      // it succeeds exactly if what the lists and calendars show allows it
      ensures Inv(old(View())) && FreshKeys(old(View()), i) ==> (err.None? <==> Bookable(old(View()), i))
      // and is otherwise told the first thing that is missing
      ensures Inv(old(View())) ==> err == BookingAnswer(old(View()), i)
      ensures err.None? ==> Booked(old(View()), View(), i)
      ensures err.Some? ==> View() == old(View())
    {
      ScheduleMeans(View(), i);
      hide Inv, Bookable, BookingAnswer, Booked, FreshKeys, Schedule;
      err := WriteBooking(i);
    }

    // The transaction body.
    method WriteTransition(id: Id, dealership: Id, t: Transition) returns (err: Option<Error>)
      modifies this
      ensures (View(), err) == Change(old(View()), id, dealership, t)
    {
      hide Release, ActiveOverlap, OnTimeOff;
      if id == 0 {
        return Some(InvalidInput);
      }
      if Guard(t).Some? {
        return Some(BadTransition(Guard(t).value));
      }
      if id !in bookings || bookings[id].dealership != dealership {
        return Some(NotFound);
      }
      var before := bookings[id];
      var row := Rewrite(before.row, t);
      if row.Err? {
        return Some(BadTransition(row.error));
      }
      var changed := before.(row := row.value);
      if UpdateRejected(View(), id, changed) {
        return Some(ConstraintViolation);
      }
      bookings := bookings[id := changed];
      if t.to.Completed? || t.to.Cancelled? {
        ReleaseReservations(id, t.to, t.occurredAt);
      }
      audit := audit + [StatusEvent(id, before.row, row.value, t)];
      err := None;
    }

    method TransitionAppointment(id: Id, dealership: Id, t: Transition) returns (err: Option<Error>)
      modifies this
      ensures (View(), err) == Change(old(View()), id, dealership, t)
      ensures Inv(old(View())) && FromHandler(old(View()), t) ==> Inv(View())
      // it does what the domain entity does, and refuses what that refuses
      ensures forall a | Inv(old(View())) && FromHandler(old(View()), t) && Stands(old(View()), id, dealership, a) ::
                && (err.None? <==> ChangeAppointment(a, t).Ok?)
                && (err.None? ==> Stands(View(), id, dealership, ChangeAppointment(a, t).value))
      // an ended booking holds nothing any more, and only it lets go
      ensures err.None? && !Active(t.to) ==>
                forall kind, resource, startsAt, endsAt ::
                  ReservationConflict(reservations, kind, resource, startsAt, endsAt)
                  <==> TakenByAnother(old(reservations), id, kind, resource, startsAt, endsAt)
      // only a booking of the dealership itself changes, and no other booking with it
      ensures err.None? ==> id in old(bookings) && old(bookings)[id].dealership == dealership
      ensures id !in old(bookings) || old(bookings)[id].dealership != dealership ==> err.Some?
      ensures bookings.Keys == old(bookings).Keys && forall x | x in bookings && x != id :: bookings[x] == old(bookings)[x]
      ensures err.None? ==> Transitioned(old(View()), View(), id, dealership, t)
      ensures err.Some? ==> View() == old(View())
      ensures Inv(old(View())) && FromHandler(old(View()), t) ==> err == TransitionAnswer(old(View()), id, dealership, t)
    {
      ChangeMeans(View(), id, dealership, t);
      ChangeFrees(View(), id, dealership, t);
      OnlyThatBooking(View(), id, dealership, t);
      hide Inv, Change, FromHandler, Stands, ChangeAppointment, ReservationConflict, TakenByAnother, Transitioned, TransitionAnswer;
      err := WriteTransition(id, dealership, t);
    }

    method CreateTechnicianShift(dealership: Id, technician: Id, shift: Id, w: Window) returns (err: Option<Error>)
      modifies this`shifts
      ensures (View(), err) == CreateShift(old(View()), dealership, technician, shift, w)
      ensures Inv(old(View())) ==> Inv(View())
      // it succeeds exactly if the table with the new row is sound
      ensures ShiftsSound(old(shifts)) ==>
                (err.None? <==>
                   && OnRoster(catalog, technician, dealership) && shift != 0 && shift !in old(shifts)
                   && ShiftsSound(old(shifts)[shift := Shift(technician, w, false)]))
      ensures err == CreateShiftAnswer(old(View()), dealership, technician, shift, w)
      // the technician then works in the window as well, and everybody else as before
      ensures err.None? ==> ShiftWritten(old(shifts), shifts, shift, technician, w)
      ensures err.Some? ==> View() == old(View())
    {
      CreateShiftMeans(View(), dealership, technician, shift, w);
      hide Inv, ShiftsSound, ShiftWritten, CreateShiftAnswer;
      if !ActiveTechnician(catalog, technician, dealership) {
        return Some(NotFound);
      }
      if shift == 0 || !ValidWindow(w) {
        return Some(InvalidInput);
      }
      if shift in shifts {
        return Some(ConstraintViolation);
      }
      var clash := ShiftsConflict(technician, w, shift);
      if clash {
        return Some(ShiftOverlaps);
      }
      shifts := shifts[shift := Shift(technician, w, false)];
      err := None;
    }

    method UpdateTechnicianShift(dealership: Id, technician: Id, shift: Id, p: ShiftPatch) returns (err: Option<Error>)
      modifies this`shifts
      ensures (View(), err) == UpdateShift(old(View()), dealership, technician, shift, p)
      ensures Inv(old(View())) ==> Inv(View())
      // it succeeds exactly if the new window is valid, holds every unfinished booking
      // that the old one holds and meets no other shift
      ensures Inv(old(View())) ==> err == UpdateShiftAnswer(old(View()), dealership, technician, shift, p)
      // the technician then works in the new window and no longer in the old one
      ensures err.None? ==>
                && HasShift(old(shifts), shift, technician)
                && ShiftWritten(old(shifts), shifts, shift, technician, WindowAfter(old(shifts)[shift].window, p))
      ensures err.Some? ==> View() == old(View())
    {
      UpdateShiftMeans(View(), dealership, technician, shift, p);
      hide Inv, ShiftWritten, UpdateShiftAnswer;
      if !ActiveTechnician(catalog, technician, dealership) || !LiveShiftOf(shifts, shift, technician) {
        return Some(NotFound);
      }
      var candidate := Patched(shifts[shift].window, p);
      if !ValidWindow(candidate) {
        return Some(InvalidInput);
      }
      var uncovered := HasFutureAppointmentsOutside(technician, candidate, shift);
      if uncovered {
        return Some(ShiftChangeConflict);
      }
      var clash := ShiftsConflict(technician, candidate, shift);
      if clash {
        return Some(ShiftOverlaps);
      }
      shifts := shifts[shift := Shift(technician, candidate, false)];
      err := None;
    }

    method DeleteTechnicianShift(dealership: Id, technician: Id, shift: Id) returns (err: Option<Error>)
      modifies this`shifts
      ensures (View(), err) == DeleteShift(old(View()), dealership, technician, shift)
      ensures Inv(old(View())) ==> Inv(View())
      // it succeeds exactly if no unfinished booking lies in the shift
      ensures Inv(old(View())) ==> err == DeleteShiftAnswer(old(View()), dealership, technician, shift)
      ensures err.None? ==> ShiftRemoved(old(shifts), shifts, shift)
      ensures err.Some? ==> View() == old(View())
    {
      DeleteShiftMeans(View(), dealership, technician, shift);
      hide Inv, ShiftRemoved, DeleteShiftAnswer;
      if !ActiveTechnician(catalog, technician, dealership) || !LiveShiftOf(shifts, shift, technician) {
        return Some(NotFound);
      }
      var uncovered := HasFutureAppointmentsOutside(technician, NO_SHIFT, shift);
      if uncovered {
        return Some(ShiftChangeConflict);
      }
      shifts := shifts[shift := shifts[shift].(deleted := true)];
      err := None;
    }

    method CreateTechnicianTimeOff(dealership: Id, technician: Id, item: Id, startsAt: Instant, endsAt: Instant)
      returns (err: Option<Error>)
      modifies this`timeOff
      ensures (View(), err) == CreateTimeOff(old(View()), dealership, technician, item, startsAt, endsAt)
      ensures Inv(old(View())) ==> Inv(View())
      // it succeeds exactly if neither the reservation ledger nor other time off takes
      // the interval, although the check reads appointment status
      ensures Inv(old(View())) ==> err == CreateTimeOffAnswer(old(View()), dealership, technician, item, startsAt, endsAt)
      // the technician is then away in the interval as well, and everybody else as before
      ensures err.None? ==> TimeOffWritten(old(timeOff), timeOff, item, technician, startsAt, endsAt)
      ensures err.Some? ==> View() == old(View())
    {
      CreateTimeOffMeans(View(), dealership, technician, item, startsAt, endsAt);
      hide Inv, TimeOffWritten, CreateTimeOffAnswer;
      if !KnownTechnician(catalog, technician, dealership) {
        return Some(NotFound);
      }
      if item == 0 || endsAt <= startsAt {
        return Some(InvalidInput);
      }
      var busy := HasActiveOverlap(TechnicianResource, technician, startsAt, endsAt);
      if busy {
        return Some(TimeOffAppointmentConflict);
      }
      if item in timeOff {
        return Some(ConstraintViolation);
      }
      var clash := TimeOffConflicts(technician, startsAt, endsAt, item);
      if clash {
        return Some(TimeOffOverlaps);
      }
      timeOff := timeOff[item := TimeOff(technician, startsAt, endsAt, false)];
      err := None;
    }

    method UpdateTechnicianTimeOff(dealership: Id, technician: Id, item: Id, newStart: Option<Instant>, newEnd: Option<Instant>)
      returns (err: Option<Error>)
      modifies this`timeOff
      ensures (View(), err) == UpdateTimeOff(old(View()), dealership, technician, item, newStart, newEnd)
      ensures Inv(old(View())) ==> Inv(View())
      // as above, the item's own old interval aside
      ensures Inv(old(View())) ==> err == UpdateTimeOffAnswer(old(View()), dealership, technician, item, newStart, newEnd)
      ensures err.None? ==>
                && HasTimeOff(old(timeOff), item, technician)
                && TimeOffWritten(old(timeOff), timeOff, item, technician,
                                  Given(newStart, old(timeOff)[item].startsAt), Given(newEnd, old(timeOff)[item].endsAt))
      ensures err.Some? ==> View() == old(View())
    {
      UpdateTimeOffMeans(View(), dealership, technician, item, newStart, newEnd);
      hide Inv, TimeOffWritten, UpdateTimeOffAnswer;
      if !KnownTechnician(catalog, technician, dealership) || !LiveTimeOffOf(timeOff, item, technician) {
        return Some(NotFound);
      }
      var startsAt, endsAt := newStart.GetOr(timeOff[item].startsAt), newEnd.GetOr(timeOff[item].endsAt);
      if endsAt <= startsAt {
        return Some(InvalidInput);
      }
      var busy := HasActiveOverlap(TechnicianResource, technician, startsAt, endsAt);
      if busy {
        return Some(TimeOffAppointmentConflict);
      }
      var clash := TimeOffConflicts(technician, startsAt, endsAt, item);
      if clash {
        return Some(TimeOffOverlaps);
      }
      timeOff := timeOff[item := TimeOff(technician, startsAt, endsAt, false)];
      err := None;
    }

    method DeleteTechnicianTimeOff(dealership: Id, technician: Id, item: Id) returns (err: Option<Error>)
      modifies this`timeOff
      ensures (View(), err) == DeleteTimeOff(old(View()), dealership, technician, item)
      ensures Inv(old(View())) ==> Inv(View())
      ensures err == DeleteTimeOffAnswer(old(View()), dealership, technician, item)
      // nobody is kept from anything by it any more, and by all the rest as before
      ensures err.None? ==> TimeOffRemoved(old(timeOff), timeOff, item)
      ensures err.Some? ==> View() == old(View())
    {
      DeleteTimeOffMeans(View(), dealership, technician, item);
      hide Inv, TimeOffRemoved, DeleteTimeOffAnswer;
      if !KnownTechnician(catalog, technician, dealership) || !LiveTimeOffOf(timeOff, item, technician) {
        return Some(NotFound);
      }
      timeOff := timeOff[item := timeOff[item].(deleted := true)];
      err := None;
    }

    // The claim is made first and rolled back with everything else on an error.
    method InsertVehicle(dealership: Id, vehicle: Id, customer: Id, vin: Option<string>) returns (err: Option<Error>)
      modifies this`owners, this`vehicles
      ensures (View(), err) == CreateVehicle(old(View()), dealership, vehicle, customer, vin)
      ensures Inv(old(View())) ==> Inv(View())
      ensures err == CreateVehicleAnswer(old(View()), dealership, vehicle, customer, vin)
      // the vehicle is the customer's and the customer the dealership's
      ensures err.None? ==>
                && vehicles == old(vehicles)[vehicle := Vehicle(customer, vin, false)]
                && owners == old(owners)[customer := dealership]
      ensures err.Some? ==> View() == old(View())
    {
      CreateVehicleMeans(View(), dealership, vehicle, customer, vin);
      hide Inv, CreateVehicleAnswer;
      if customer !in customers {
        return Some(NotFound);
      }
      var savedOwners := owners;
      owners := Claim(owners, customer, dealership);
      if owners[customer] != dealership {
        err := Some(VehicleForbidden);
      } else if vehicle in vehicles {
        err := Some(ConstraintViolation);
      } else if VinTaken(vehicles, vin, None) {
        err := Some(VehicleVinTaken);
      } else {
        vehicles := vehicles[vehicle := Vehicle(customer, vin, false)];
        return None;
      }
      owners := savedOwners; // rollback
    }

    method EditVehicle(vehicle: Id, vin: Option<string>) returns (err: Option<Error>)
      modifies this`vehicles
      ensures (View(), err) == UpdateVehicle(old(View()), vehicle, vin)
      ensures err == UpdateVehicleAnswer(old(View()), vehicle, vin)
      ensures err.None? ==> vehicles == old(vehicles)[vehicle := Vehicle(old(vehicles)[vehicle].customer, vin, false)]
      ensures err.Some? ==> View() == old(View())
    {
      EditVehicleMeans(View(), vehicle, vin);
      hide UpdateVehicleAnswer;
      if vehicle !in vehicles || vehicles[vehicle].deleted {
        return Some(NotFound);
      }
      if VinTaken(vehicles, vin, Some(vehicle)) {
        return Some(VehicleVinTaken);
      }
      vehicles := vehicles[vehicle := vehicles[vehicle].(vin := vin)];
      err := None;
    }

    method RemoveVehicle(vehicle: Id) returns (err: Option<Error>)
      modifies this`vehicles
      ensures (View(), err) == DeleteVehicle(old(View()), vehicle)
      ensures err == DeleteVehicleAnswer(old(View()), vehicle)
      ensures err.None? ==> vehicles == old(vehicles)[vehicle := old(vehicles)[vehicle].(deleted := true)]
      ensures err.Some? ==> View() == old(View())
    {
      if vehicle !in vehicles || vehicles[vehicle].deleted {
        return Some(NotFound);
      }
      vehicles := vehicles[vehicle := vehicles[vehicle].(deleted := true)];
      err := None;
    }

    method DeleteServiceBay(dealership: Id, bay: Id) returns (err: Option<Error>)
      modifies this`catalog
      ensures (View(), err) == DeleteBay(old(View()), dealership, bay)
      ensures Inv(old(View())) ==> Inv(View())
      ensures err == DeleteBayAnswer(old(View()), dealership, bay)
      ensures err.Some? ==> View() == old(View())
      // every availability list loses this bay and nothing else
      ensures err.None? ==>
                forall d, serviceType, startsAt, endsAt ::
                  AvailableBays(View(), d, serviceType, startsAt, endsAt)
                  == AvailableBays(old(View()), d, serviceType, startsAt, endsAt) - {bay}
    {
      DeleteBayMeans(View(), dealership, bay);
      hide Inv, AvailableBays, DeleteBayAnswer;
      if bay !in catalog.bays || catalog.bays[bay].dealership != dealership || catalog.bays[bay].deleted {
        return Some(NotFound);
      }
      if BayReferenced(bookings, bay) {
        return Some(InUse);
      }
      catalog := catalog.(bays := catalog.bays[bay := catalog.bays[bay].(deleted := true)]);
      err := None;
    }

    method RemoveServiceType(dealership: Id, serviceType: Id) returns (err: Option<Error>)
      modifies this`catalog
      ensures (View(), err) == DeleteServiceType(old(View()), dealership, serviceType)
      ensures Inv(old(View())) ==> Inv(View())
      ensures err == DeleteServiceTypeAnswer(old(View()), dealership, serviceType)
      ensures err.Some? ==> View() == old(View())
      // it can no longer be booked; every other service type as before
      ensures err.None? ==>
                && (forall i: BookingInput | i.serviceType == serviceType :: Schedule(View(), i).1.Some?)
                && (forall i: BookingInput | i.serviceType != serviceType :: Offered(catalog, i) <==> Offered(old(catalog), i))
    {
      DeleteServiceTypeMeans(View(), dealership, serviceType);
      hide Inv, Schedule, Offered, DeleteServiceTypeAnswer;
      if serviceType !in catalog.serviceTypes || catalog.serviceTypes[serviceType].dealership != dealership
         || catalog.serviceTypes[serviceType].deleted {
        return Some(NotFound);
      }
      if ServiceTypeReferenced(bookings, serviceType) {
        return Some(InUse);
      }
      var service := catalog.serviceTypes[serviceType].(deleted := true);
      catalog := catalog.(serviceTypes := catalog.serviceTypes[serviceType := service]);
      err := None;
    }

    // Requests about customers, vehicles and the catalogue.
    method DispatchCatalog(q: Request) returns (err: Option<Error>)
      requires !q.ScheduleRequest? && !q.ChangeRequest? && !OnSchedule(q)
      modifies this
      ensures (View(), err) == Step(old(View()), q, old(clock))
    {
      hide Inv, CreateVehicle, UpdateVehicle, DeleteVehicle, DeleteBay, DeleteServiceType, AvailableBays, Schedule,
        Offered, CreateVehicleAnswer, UpdateVehicleAnswer, DeleteVehicleAnswer, DeleteBayAnswer, DeleteServiceTypeAnswer;
      assert View().(clock := clock) == View();
      err := None;
      match q {
        case CreateCustomerRequest(c) => customers := customers + {c};
        case CreateVehicleRequest(d, v, c, vin) => err := InsertVehicle(d, v, c, vin);
        case UpdateVehicleRequest(v, vin) => err := EditVehicle(v, vin);
        case DeleteVehicleRequest(v) => err := RemoveVehicle(v);
        case DeleteBayRequest(d, b) => err := DeleteServiceBay(d, b);
        case DeleteServiceTypeRequest(d, x) => err := RemoveServiceType(d, x);
        case ConfigureRequest(c) => catalog := c;
      }
    }

    // Dispatches one request at time `now`.
    method Dispatch(q: Request, now: Instant) returns (err: Option<Error>)
      modifies this
      ensures (View(), err) == Step(old(View()), q, now)
    {
      hide Inv, Schedule, Change, CreateShift, UpdateShift, DeleteShift, CreateTimeOff, UpdateTimeOff, DeleteTimeOff,
        CreateVehicle, UpdateVehicle, DeleteVehicle, DeleteBay, DeleteServiceType,
        Bookable, FreshKeys, Booked, BookingAnswer, FromHandler, Stands, Transitioned, TransitionAnswer, ReservationConflict,
        TakenByAnother, ChangeAppointment, ShiftsSound, ShiftWritten, ShiftRemoved, CreateShiftAnswer, UpdateShiftAnswer,
        DeleteShiftAnswer, TimeOffWritten, TimeOffRemoved, CreateTimeOffAnswer, UpdateTimeOffAnswer, DeleteTimeOffAnswer,
        OnRoster, WindowAfter;
      clock := now;
      assert View() == old(View()).(clock := now);
      match q {
        case ScheduleRequest(i) => err := ScheduleAppointment(i);
        case ChangeRequest(c) => err := TransitionAppointment(c.id, c.dealership, Stamp(c, now));
        case CreateShiftRequest(d, tech, shift, w) => err := CreateTechnicianShift(d, tech, shift, w);
        case UpdateShiftRequest(d, tech, shift, p) => err := UpdateTechnicianShift(d, tech, shift, p);
        case DeleteShiftRequest(d, tech, shift) => err := DeleteTechnicianShift(d, tech, shift);
        case CreateTimeOffRequest(d, tech, off, st, en) => err := CreateTechnicianTimeOff(d, tech, off, st, en);
        case UpdateTimeOffRequest(d, tech, off, st, en) => err := UpdateTechnicianTimeOff(d, tech, off, st, en);
        case DeleteTimeOffRequest(d, tech, off) => err := DeleteTechnicianTimeOff(d, tech, off);
        case _ => err := DispatchCatalog(q);
      }
    }

    // One request served at time `now`: the database follows the ledger's step.
    method Serve(q: Request, now: Instant) returns (err: Option<Error>)
      modifies this
      ensures (View(), err) == Step(old(View()), q, now)
      ensures Inv(old(View())) && old(clock) <= now && Admissible(old(View()), q) ==> Inv(View())
      ensures TimeOffSound(old(timeOff)) ==> TimeOffSound(timeOff)
      // it is answered and carried out as its rows and columns say; a refused request
      // changes nothing but the time
      ensures Inv(old(View())) && old(clock) <= now && Admissible(old(View()), q) ==>
                var at := old(View()).(clock := now);
                err == Answer(at, q) && if err.None? then Leaves(at, q, View()) else View() == at
    {
      ServeKeeps(View(), q, now);
      hide Inv, TimeOffSound, Admissible, Step, Answer, Leaves;
      err := Dispatch(q, now);
    }
  }
}
