/**
 What stays put along every run: ownership, the identity of bookings, ended
 bookings, released reservations and the audit log; and what ending a booking
 gives back.
 */
module LedgerHistory {
  import opened Outcomes
  import opened LocalClock
  import opened Lifecycle
  import opened Tables
  import opened Ledger
  import opened LedgerInvariant
  import opened LedgerTheorems

  // ----- monotone facts -----

  // A booking keeps everything but its lifecycle columns, moves only to a lower
  // rank and never changes again once it has ended.
  predicate Later(b: Booking, c: Booking) {
    && c == b.(row := c.row)
    && c.row.startsAt == b.row.startsAt
    && c.row.endsAt == b.row.endsAt
    && (c == b || (IsActive(b) && Rank(c.row.status) < Rank(b.row.status)))
  }

  // A reservation is released at most once and otherwise never changes.
  predicate LaterReservation(p: Reservation, q: Reservation) {
    q == p || (p.releasedAt.None? && q.releasedAt.Some? && q == p.(releasedAt := q.releasedAt, status := q.status))
  }

  ghost predicate OwnersKept(s: Store, t: Store) {
    && (forall c | c in s.owners :: c in t.owners && t.owners[c] == s.owners[c])
    && (forall v | v in s.vehicles :: v in t.vehicles && t.vehicles[v].customer == s.vehicles[v].customer)
  }

  ghost predicate BookingsKept(s: Store, t: Store) {
    forall id | id in s.bookings :: id in t.bookings && Later(s.bookings[id], t.bookings[id])
  }

  ghost predicate ReservationsKept(s: Store, t: Store) {
    forall r | r in s.reservations :: r in t.reservations && LaterReservation(s.reservations[r], t.reservations[r])
  }

  ghost predicate Evolves(s: Store, t: Store) {
    && OwnersKept(s, t)
    && BookingsKept(s, t)
    && ReservationsKept(s, t)
    && s.audit <= t.audit
    && s.clock <= t.clock
  }

  lemma EvolvesTrans(s: Store, t: Store, u: Store)
    requires Evolves(s, t) && Evolves(t, u)
    ensures Evolves(s, u)
  {
  }

  lemma ScheduleEvolves(s: Store, i: BookingInput)
    ensures Evolves(s, Schedule(s, i).0)
  {
    if Schedule(s, i).1.None? {
      var b, first := ScheduleWrites(s, i);
      hide Schedule, CheckBooking;
    }
  }

  lemma ChangeEvolves(s: Store, id: Id, dealership: Id, t: Transition)
    requires HandlerPair(t.from, t.to)
    ensures Evolves(s, Change(s, id, dealership, t).0)
  {
    if Change(s, id, dealership, t).1.None? {
      var row := ChangeWrites(s, id, dealership, t);
      HandlerLowersRank(s.bookings[id].row, t);
      hide Change;
    }
  }

  lemma TablesEvolve(s: Store, q: Request)
    requires Admissible(s, q) && !q.ScheduleRequest? && !q.ChangeRequest?
    ensures Evolves(s, Step(s, q, s.clock).0)
  {
    if OnSchedule(q) {
      if q.CreateShiftRequest? || q.UpdateShiftRequest? || q.DeleteShiftRequest? {
        ShiftsLeaveBookings(s, q);
      } else {
        TimeOffLeavesBookings(s, q);
      }
    } else {
      OthersLeaveBookings(s, q);
    }
    hide Step;
  }

  predicate OnSchedule(q: Request) {
    || q.CreateShiftRequest? || q.UpdateShiftRequest? || q.DeleteShiftRequest?
    || q.CreateTimeOffRequest? || q.UpdateTimeOffRequest? || q.DeleteTimeOffRequest?
  }

  ghost predicate OnlyTables(s: Store, t: Store) {
    t.bookings == s.bookings && t.reservations == s.reservations && t.audit == s.audit && t.clock == s.clock
  }

  ghost predicate LeavesBookings(s: Store, t: Store) {
    OnlyTables(s, t) && t.owners == s.owners && t.vehicles == s.vehicles
  }

  lemma ShiftsLeaveBookings(s: Store, q: Request)
    requires q.CreateShiftRequest? || q.UpdateShiftRequest? || q.DeleteShiftRequest?
    ensures LeavesBookings(s, Step(s, q, s.clock).0)
  {
    hide Schedule, Change, ShiftConflict, UncoveredBooking, LiveShiftOf, ValidWindow, CreateTimeOff, UpdateTimeOff, DeleteTimeOff,
      CreateVehicle, UpdateVehicle, DeleteVehicle, DeleteBay, DeleteServiceType;
  }

  lemma TimeOffLeavesBookings(s: Store, q: Request)
    requires q.CreateTimeOffRequest? || q.UpdateTimeOffRequest? || q.DeleteTimeOffRequest?
    ensures LeavesBookings(s, Step(s, q, s.clock).0)
  {
    hide Schedule, Change, ActiveOverlap, TimeOffConflict, LiveTimeOffOf, CreateShift, UpdateShift, DeleteShift, CreateVehicle,
      UpdateVehicle, DeleteVehicle, DeleteBay, DeleteServiceType;
  }

  lemma OthersLeaveBookings(s: Store, q: Request)
    requires !q.ScheduleRequest? && !q.ChangeRequest? && !OnSchedule(q)
    ensures OnlyTables(s, Step(s, q, s.clock).0) && OwnersKept(s, Step(s, q, s.clock).0)
  {
    hide Schedule, Change, CreateShift, UpdateShift, DeleteShift, CreateTimeOff, UpdateTimeOff, DeleteTimeOff, VinTaken,
      BayReferenced, ServiceTypeReferenced;
  }

  lemma StepEvolves(s: Store, q: Request, now: Instant)
    requires s.clock <= now && Admissible(s, q)
    ensures Evolves(s, Step(s, q, now).0)
  {
    var t := s.(clock := now);
    assert Step(s, q, now) == Step(t, q, now);
    assert Evolves(s, t);
    if q.ScheduleRequest? {
      ScheduleEvolves(t, q.input);
    } else if q.ChangeRequest? {
      ChangeEvolves(t, q.change.id, q.change.dealership, Stamp(q.change, now));
    } else {
      TablesEvolve(t, q);
    }
    assert Evolves(t, Step(t, q, now).0);
    hide Step;
    EvolvesTrans(s, t, Step(t, q, now).0);
  }

  lemma {:induction false} RunEvolves(s: Store, history: seq<Served>)
    requires Legal(s, history)
    ensures Evolves(s, Run(s, history))
    decreases history
  {
    if history != [] {
      var t := Step(s, history[0].request, history[0].at).0;
      StepEvolves(s, history[0].request, history[0].at);
      RunEvolves(t, history[1..]);
      EvolvesTrans(s, t, Run(s, history));
    }
  }

  // Whatever happens later, a customer keeps its dealership and
  // an ended booking keeps every column, while its vehicle stays its customer's.
  lemma OwnershipIsPermanent(s: Store, history: seq<Served>, customer: Id)
    requires Legal(s, history) && customer in s.owners
    ensures customer in Run(s, history).owners && Run(s, history).owners[customer] == s.owners[customer]
  {
    RunEvolves(s, history);
  }

  lemma EndedBookingsAreFinal(s: Store, history: seq<Served>, id: Id)
    requires Legal(s, history) && id in s.bookings && !IsActive(s.bookings[id])
    ensures id in Run(s, history).bookings && Run(s, history).bookings[id] == s.bookings[id]
  {
    RunEvolves(s, history);
  }

  // ----- the audit log -----

  lemma {:induction false} PrefixReplays(log: seq<AuditEvent>, n: nat)
    requires 1 <= n <= |log| && log[0].Created?
    requires forall k | 0 <= k < |log| - 1 :: ContinuesAt(log, k)
    ensures Replay(log[..n]) == Some(AfterStatus(log[n - 1]))
  {
    if n > 1 {
      PrefixReplays(log, n - 1);
      assert ContinuesAt(log, n - 2);
      assert log[..n][..n - 1] == log[..n - 1];
    }
  }

  // Folding a booking's log gives its status, and the log has at most four events.
  lemma AuditReplaysStatus(s: Store, id: Id)
    requires Reachable(s) && id in s.bookings
    ensures Replay(LogOf(s.audit, id)) == Some(s.bookings[id].row.status)
    ensures 1 <= |LogOf(s.audit, id)| <= 4
    ensures LogOf(s.audit, id)[0].Created?
  {
    ReachableHolds(s);
    var log := LogOf(s.audit, id);
    assert Replays(log, s.bookings[id], s.clock);
    hide Linked, LedgerDisjoint, Catalogued, Owned, ShiftsCover, ShiftsSound, TimeOffClear, Audited;
    PrefixReplays(log, |log|);
    assert log[..|log|] == log;
  }

  // ----- releasing capacity -----

  // Whether some other booking's unreleased reservation takes the interval.
  ghost predicate TakenByAnother(reservations: Reservations, id: Id, kind: Kind, resource: Id, startsAt: Instant, endsAt: Instant) {
    exists r | r in reservations ::
      reservations[r].booking != id && Takes(reservations[r], kind, resource, startsAt, endsAt)
  }

  lemma ReleaseFreesOwn(reservations: Reservations, id: Id, status: Status, now: Instant, kind: Kind, resource: Id, startsAt: Instant, endsAt: Instant)
    requires !Active(status)
    ensures ReservationConflict(Release(reservations, id, status, now), kind, resource, startsAt, endsAt)
            <==> TakenByAnother(reservations, id, kind, resource, startsAt, endsAt)
  {
    var after := Release(reservations, id, status, now);
    if TakenByAnother(reservations, id, kind, resource, startsAt, endsAt) {
      var r :| r in reservations && reservations[r].booking != id && Takes(reservations[r], kind, resource, startsAt, endsAt);
      assert after[r] == reservations[r];
    }
  }

  // Ending a booking frees its own capacity and nothing else.
  lemma EndingFreesOwnCapacity(s: Store, c: ChangeInput, now: Instant, kind: Kind, resource: Id, startsAt: Instant, endsAt: Instant)
    requires !Active(c.to) && Step(s, ChangeRequest(c), now).1.None?
    ensures ReservationConflict(Step(s, ChangeRequest(c), now).0.reservations, kind, resource, startsAt, endsAt)
            <==> TakenByAnother(s.reservations, c.id, kind, resource, startsAt, endsAt)
  {
    var row := ChangeWrites(s.(clock := now), c.id, c.dealership, Stamp(c, now));
    ReleaseFreesOwn(s.reservations, c.id, c.to, now, kind, resource, startsAt, endsAt);
  }

  // Cancelling right after booking undoes the booking's effect on every
  // resource and every interval, and so on every availability list.
  lemma CancelUndoesBooking(s: Store, i: BookingInput, at: Instant, c: ChangeInput, later: Instant,
                            kind: Kind, resource: Id, startsAt: Instant, endsAt: Instant)
    requires Reachable(s) && c.id == i.id && !Active(c.to)
    requires Step(s, ScheduleRequest(i), at).1.None?
    requires Step(Step(s, ScheduleRequest(i), at).0, ChangeRequest(c), later).1.None?
    ensures var t := Step(Step(s, ScheduleRequest(i), at).0, ChangeRequest(c), later).0;
      ReservationConflict(t.reservations, kind, resource, startsAt, endsAt)
      <==> ReservationConflict(s.reservations, kind, resource, startsAt, endsAt)
  {
    ReachableHolds(s);
    var booked := Step(s, ScheduleRequest(i), at).0;
    NewReservationsOnly(s, i, at);
    EndingFreesOwnCapacity(booked, c, later, kind, resource, startsAt, endsAt);
    hide Inv, Step;
    StrangersOnly(s.reservations, booked.reservations, i.id, kind, resource, startsAt, endsAt);
  }

  lemma NewReservationsOnly(s: Store, i: BookingInput, at: Instant)
    requires Inv(s) && Step(s, ScheduleRequest(i), at).1.None?
    ensures var after := Step(s, ScheduleRequest(i), at).0.reservations;
      && (forall r | r in s.reservations :: s.reservations[r].booking != i.id && r in after && after[r] == s.reservations[r])
      && (forall r | r in after && r !in s.reservations :: after[r].booking == i.id)
  {
    ReservationsHaveBookings(s);
    hide Inv;
    assert Step(s, ScheduleRequest(i), at) == Schedule(s.(clock := at), i);
    hide Step, Schedule;
    TwoReservationsMore(s.(clock := at), i);
  }

  lemma TwoReservationsMore(s: Store, i: BookingInput)
    requires Schedule(s, i).1.None?
    requires forall r | r in s.reservations :: s.reservations[r].booking in s.bookings
    ensures var after := Schedule(s, i).0.reservations;
      && (forall r | r in s.reservations :: s.reservations[r].booking != i.id && r in after && after[r] == s.reservations[r])
      && (forall r | r in after && r !in s.reservations :: after[r].booking == i.id)
  {
    hide CheckBooking, ActiveOverlap, OnTimeOff, ReferenceTaken, ReservationConflict;
    var b, first := ScheduleWrites(s, i);
    hide Schedule;
    assert i.id !in s.bookings;
    assert first == s.reservations[i.technicianReservation := NewReservation(i.id, b, TechnicianResource)];
  }

  lemma ReservationsHaveBookings(s: Store)
    requires Inv(s)
    ensures forall r | r in s.reservations :: s.reservations[r].booking in s.bookings
  {
    hide LedgerDisjoint, Catalogued, Owned, ShiftsCover, ShiftsSound, TimeOffClear, Audited;
  }

  lemma StrangersOnly(before: Reservations, after: Reservations, id: Id, kind: Kind, resource: Id, startsAt: Instant, endsAt: Instant)
    requires forall r | r in before :: before[r].booking != id && r in after && after[r] == before[r]
    requires forall r | r in after && r !in before :: after[r].booking == id
    ensures TakenByAnother(after, id, kind, resource, startsAt, endsAt)
            <==> ReservationConflict(before, kind, resource, startsAt, endsAt)
  {
    if ReservationConflict(before, kind, resource, startsAt, endsAt) {
      var r :| r in before && Takes(before[r], kind, resource, startsAt, endsAt);
      assert after[r].booking != id;
    }
  }
}
