/**
 The inductive invariant of the booking engine: one named part per promise, and
 lemmas saying that every request keeps every part.
 */
module LedgerInvariant {
  import opened Outcomes
  import opened LocalClock
  import opened Lifecycle
  import opened Tables
  import opened Ledger

  // ----- the parts -----

  // A reservation copies its booking's resource and interval, is unreleased
  // exactly while the booking is active and then carries the final status.
  predicate Mirrors(r: Reservation, b: Booking) {
    && r.resource == Resource(b, r.kind)
    && r.startsAt == b.row.startsAt
    && r.endsAt == b.row.endsAt
    && (r.releasedAt.None? <==> IsActive(b))
    && r.status == (if IsActive(b) then Requested else b.row.status)
  }

  ghost predicate Holds(reservations: Reservations, id: Id, kind: Kind) {
    exists r | r in reservations :: reservations[r].booking == id && reservations[r].kind == kind
  }

  predicate SameHolder(p: Reservation, q: Reservation) {
    p.booking == q.booking && p.kind == q.kind
  }

  // Every booking has exactly one reservation of each kind, and every
  // reservation mirrors its booking.
  ghost predicate Linked(bookings: Bookings, reservations: Reservations) {
    && (forall r | r in reservations ::
          reservations[r].booking in bookings && Mirrors(reservations[r], bookings[reservations[r].booking]))
    && (forall id, kind | id in bookings :: Holds(reservations, id, kind))
    && (forall q, r | q in reservations && r in reservations && SameHolder(reservations[q], reservations[r]) :: q == r)
  }

  predicate Competing(p: Reservation, q: Reservation) {
    && p.releasedAt.None? && q.releasedAt.None?
    && p.kind == q.kind && p.resource == q.resource
    && Overlaps(p.startsAt, p.endsAt, q.startsAt, q.endsAt)
  }

  // No two unreleased reservations of one resource overlap.
  ghost predicate LedgerDisjoint(reservations: Reservations) {
    forall q, r | q in reservations && r in reservations && q != r :: !Competing(reservations[q], reservations[r])
  }

  predicate SingleLocalDay(c: Catalog, b: Booking) {
    var offset := Offset(c, b.dealership);
    LocalDate(b.row.startsAt, offset) == LocalDate(b.row.endsAt, offset)
  }

  // What a booking refers to in the catalogue exists, belongs to its dealership
  // and is not deleted where deletion refuses referenced rows.
  predicate InCatalog(c: Catalog, b: Booking) {
    && b.row.startsAt < b.row.endsAt
    && b.dealership in c.dealerships
    && SingleLocalDay(c, b)
    && b.technician in c.technicians
    && c.technicians[b.technician].dealership == b.dealership
    && b.bay in c.bays
    && c.bays[b.bay].dealership == b.dealership
    && !c.bays[b.bay].deleted
    && b.serviceType in c.serviceTypes
    && c.serviceTypes[b.serviceType].dealership == b.dealership
    && !c.serviceTypes[b.serviceType].deleted
  }

  // The vehicle is the customer's and the customer is the dealership's.
  predicate Entitled(vehicles: Vehicles, owners: Owners, b: Booking) {
    && b.vehicle in vehicles
    && vehicles[b.vehicle].customer == b.customer
    && b.customer in owners
    && owners[b.customer] == b.dealership
  }

  ghost predicate Catalogued(c: Catalog, bookings: Bookings) {
    DurationsOrdered(c) && forall id | id in bookings :: InCatalog(c, bookings[id])
  }

  ghost predicate Owned(vehicles: Vehicles, owners: Owners, bookings: Bookings) {
    && (forall id | id in bookings :: Entitled(vehicles, owners, bookings[id]))
    && (forall v | v in vehicles :: vehicles[v].customer in owners)
  }

  predicate Covered(shifts: Shifts, c: Catalog, b: Booking) {
    OnShift(shifts, b.technician, b.row.startsAt, b.row.endsAt, Offset(c, b.dealership))
  }

  // Every active booking that ends after the clock lies in a live shift.
  ghost predicate ShiftsCover(shifts: Shifts, c: Catalog, bookings: Bookings, clock: Instant) {
    forall id | id in bookings && IsActive(bookings[id]) && bookings[id].row.endsAt > clock :: Covered(shifts, c, bookings[id])
  }

  // Shift clocks are in range and live shifts of one technician are disjoint.
  ghost predicate ShiftsSound(shifts: Shifts) {
    && (forall v | v in shifts :: ValidWindow(shifts[v].window))
    && ShiftsDisjoint(shifts)
  }

  ghost predicate ShiftsDisjoint(shifts: Shifts) {
    forall v, w | v in shifts && w in shifts && v != w && !shifts[v].deleted && LiveShiftOf(shifts, w, shifts[v].technician) ::
      !WindowsOverlap(shifts[v].window, shifts[w].window)
  }

  predicate Clear(timeOff: TimeOffs, b: Booking) {
    IsActive(b) ==> !OnTimeOff(timeOff, b.technician, b.row.startsAt, b.row.endsAt)
  }

  // Live time off never overlaps an active booking of the same technician.
  ghost predicate TimeOffClear(timeOff: TimeOffs, bookings: Bookings) {
    forall id | id in bookings :: Clear(timeOff, bookings[id])
  }

  // Time off is never empty and live time off of one technician is disjoint.
  predicate TimeOffSound(timeOff: TimeOffs) {
    && (forall x | x in timeOff :: timeOff[x].startsAt < timeOff[x].endsAt)
    && (forall x, y | x in timeOff && y in timeOff && x != y && !timeOff[x].deleted && LiveTimeOffOf(timeOff, y, timeOff[x].technician) ::
          !Overlaps(timeOff[x].startsAt, timeOff[x].endsAt, timeOff[y].startsAt, timeOff[y].endsAt))
  }

  // An event continues from the one before it.
  predicate Continues(prev: AuditEvent, next: AuditEvent) {
    && next.StatusChanged?
    && next.beforeStatus == AfterStatus(prev)
    && ValidTransition(next.beforeStatus, next.afterStatus)
    && (prev.StatusChanged? ==> next.beforeNotes == prev.afterNotes)
    && prev.occurredAt <= next.occurredAt
  }

  predicate ContinuesAt(log: seq<AuditEvent>, k: int) {
    0 <= k < |log| - 1 && Continues(log[k], log[k + 1])
  }

  ghost predicate Replays(log: seq<AuditEvent>, b: Booking, clock: Instant) {
    && log != []
    && log[0].Created?
    && log[0].startsAt == b.row.startsAt && log[0].endsAt == b.row.endsAt
    && (forall k | 0 <= k < |log| - 1 :: ContinuesAt(log, k))
    && AfterStatus(log[|log| - 1]) == b.row.status
    && (log[|log| - 1].StatusChanged? ==> log[|log| - 1].afterNotes == b.row.notes)
    && log[|log| - 1].occurredAt <= clock
    && |log| + Rank(b.row.status) <= 4
  }

  ghost predicate Audited(audit: seq<AuditEvent>, bookings: Bookings, clock: Instant) {
    && (forall e | e in audit :: e.booking in bookings)
    && (forall id | id in bookings :: Replays(LogOf(audit, id), bookings[id], clock))
  }

  ghost predicate Inv(s: Store) {
    && Linked(s.bookings, s.reservations)
    && LedgerDisjoint(s.reservations)
    && Catalogued(s.catalog, s.bookings)
    && Owned(s.vehicles, s.owners, s.bookings)
    && ShiftsCover(s.shifts, s.catalog, s.bookings, s.clock)
    && ShiftsSound(s.shifts)
    && TimeOffClear(s.timeOff, s.bookings)
    && Audited(s.audit, s.bookings, s.clock)
  }

  lemma EmptyHolds()
    ensures Inv(EMPTY)
  {
  }

  lemma TickAudited(audit: seq<AuditEvent>, bookings: Bookings, clock: Instant, now: Instant)
    requires Audited(audit, bookings, clock) && clock <= now
    ensures Audited(audit, bookings, now)
  {
    forall id | id in bookings
      ensures Replays(LogOf(audit, id), bookings[id], now)
    {
      assert Replays(LogOf(audit, id), bookings[id], clock);
    }
  }

  lemma TickCovers(shifts: Shifts, c: Catalog, bookings: Bookings, clock: Instant, now: Instant)
    requires ShiftsCover(shifts, c, bookings, clock) && clock <= now
    ensures ShiftsCover(shifts, c, bookings, now)
  {
  }

  lemma TickKeeps(s: Store, now: Instant)
    requires Inv(s) && s.clock <= now
    ensures Inv(s.(clock := now))
  {
    TickAudited(s.audit, s.bookings, s.clock, now);
    TickCovers(s.shifts, s.catalog, s.bookings, s.clock, now);
  }

  // ----- the audit log -----

  lemma LogOfAppend(audit: seq<AuditEvent>, e: AuditEvent, id: Id)
    ensures LogOf(audit + [e], id) == LogOf(audit, id) + if e.booking == id then [e] else []
  {
    assert (audit + [e])[..|audit|] == audit;
  }

  lemma {:induction false} LogOfStranger(audit: seq<AuditEvent>, id: Id)
    requires forall e | e in audit :: e.booking != id
    ensures LogOf(audit, id) == []
  {
    if audit != [] {
      assert audit[|audit| - 1] in audit;
      LogOfStranger(audit[..|audit| - 1], id);
    }
  }

  // ----- booking -----

  // What a successful booking checked and wrote.
  lemma ScheduleWrites(s: Store, i: BookingInput) returns (b: Booking, first: Reservations)
    requires Schedule(s, i).1.None?
    ensures CheckBooking(s, i) == Ok(b)
    ensures InsertBooking(s, i.id, b).Ok?
    ensures InsertReservation(s.reservations, i.technicianReservation, NewReservation(i.id, b, TechnicianResource)) == Ok(first)
    ensures InsertReservation(first, i.bayReservation, NewReservation(i.id, b, BayResource)).Ok?
    ensures Schedule(s, i).0 == s.(
      bookings := s.bookings[i.id := b],
      reservations := first[i.bayReservation := NewReservation(i.id, b, BayResource)],
      audit := s.audit + [Created(i.id, i.createdBy, b.row.startsAt, b.row.endsAt, s.clock)])
  {
    b := CheckBooking(s, i).value;
    first := s.reservations[i.technicianReservation := NewReservation(i.id, b, TechnicianResource)];
  }

  lemma BookLinked(bookings: Bookings, reservations: Reservations, id: Id, b: Booking, k1: Id, k2: Id)
    requires Linked(bookings, reservations)
    requires id !in bookings && IsActive(b) && k1 != k2 && k1 !in reservations && k2 !in reservations
    ensures Linked(bookings[id := b],
                   reservations[k1 := NewReservation(id, b, TechnicianResource)][k2 := NewReservation(id, b, BayResource)])
  {
    var after := reservations[k1 := NewReservation(id, b, TechnicianResource)][k2 := NewReservation(id, b, BayResource)];
    forall x, kind | x in bookings[id := b]
      ensures Holds(after, x, kind)
    {
      if x == id {
        var k := if kind.TechnicianResource? then k1 else k2;
        assert after[k].booking == x && after[k].kind == kind;
      } else {
        assert Holds(reservations, x, kind);
        var r :| r in reservations && reservations[r].booking == x && reservations[r].kind == kind;
        assert after[r] == reservations[r];
      }
    }
  }

  // Inserting what the exclusion constraint accepts keeps the ledger disjoint.
  lemma InsertDisjoint(reservations: Reservations, key: Id, r: Reservation)
    requires LedgerDisjoint(reservations) && InsertReservation(reservations, key, r).Ok?
    requires forall q | q in reservations && reservations[q].releasedAt.None? :: Active(reservations[q].status)
    ensures LedgerDisjoint(reservations[key := r])
  {
    var after := reservations[key := r];
    forall p, q | p in after && q in after && p != q
      ensures !Competing(after[p], after[q])
    {
      if p == key && Competing(r, after[q]) {
        assert Overlaps(after[q].startsAt, after[q].endsAt, r.startsAt, r.endsAt);
      }
    }
  }

  // The exclusion constraint, asked of one row at a time, is exact: it accepts the
  // rows with which the whole table stays disjoint, and no others.
  lemma InsertAcceptedIff(reservations: Reservations, key: Id, r: Reservation)
    requires LedgerDisjoint(reservations) && r.releasedAt.None? && key !in reservations
    requires forall q | q in reservations && reservations[q].releasedAt.None? :: Active(reservations[q].status)
    ensures InsertReservation(reservations, key, r).Ok? <==> r.startsAt < r.endsAt && LedgerDisjoint(reservations[key := r])
  {
    var after := reservations[key := r];
    if InsertReservation(reservations, key, r).Ok? {
      InsertDisjoint(reservations, key, r);
    }
    if LedgerDisjoint(after) && ReservationConflict(reservations, r.kind, r.resource, r.startsAt, r.endsAt) {
      var q :| q in reservations && Takes(reservations[q], r.kind, r.resource, r.startsAt, r.endsAt);
      assert q in after && key in after && Competing(after[q], after[key]);
    }
  }

  // What the checks say about the row they let through.
  lemma CheckedFits(s: Store, i: BookingInput, b: Booking)
    requires CheckBooking(s, i) == Ok(b) && InsertBooking(s, i.id, b).Ok?
    ensures InCatalog(s.catalog, b) && Entitled(s.vehicles, s.owners, b)
    ensures Covered(s.shifts, s.catalog, b) && Clear(s.timeOff, b)
    ensures b.row == NewRow(i.startsAt, b.row.endsAt, i.notes, s.clock)
  {
    var offset := Offset(s.catalog, b.dealership);
    assert OnShift(s.shifts, b.technician, b.row.startsAt, b.row.endsAt, offset);
    var v :| v in s.shifts && LiveShiftOf(s.shifts, v, b.technician) && InWindow(s.shifts[v].window, b.row.startsAt, b.row.endsAt, offset);
  }

  lemma BookAudited(audit: seq<AuditEvent>, bookings: Bookings, clock: Instant, id: Id, b: Booking, actor: Id)
    requires Audited(audit, bookings, clock) && id !in bookings
    requires b.row.status.Requested?
    ensures Audited(audit + [Created(id, actor, b.row.startsAt, b.row.endsAt, clock)], bookings[id := b], clock)
  {
    var e := Created(id, actor, b.row.startsAt, b.row.endsAt, clock);
    forall x | x in bookings[id := b]
      ensures Replays(LogOf(audit + [e], x), bookings[id := b][x], clock)
    {
      LogOfAppend(audit, e, x);
      if x == id {
        LogOfStranger(audit, id);
        assert LogOf(audit + [e], id) == [e];
      } else {
        assert LogOf(audit + [e], x) == LogOf(audit, x);
      }
    }
  }

  lemma BookReferences(s: Store, id: Id, b: Booking)
    requires Catalogued(s.catalog, s.bookings) && Owned(s.vehicles, s.owners, s.bookings)
    requires InCatalog(s.catalog, b) && Entitled(s.vehicles, s.owners, b)
    ensures Catalogued(s.catalog, s.bookings[id := b]) && Owned(s.vehicles, s.owners, s.bookings[id := b])
  {
  }

  lemma BookSchedules(s: Store, id: Id, b: Booking)
    requires ShiftsCover(s.shifts, s.catalog, s.bookings, s.clock) && TimeOffClear(s.timeOff, s.bookings)
    requires (IsActive(b) && b.row.endsAt > s.clock ==> Covered(s.shifts, s.catalog, b)) && Clear(s.timeOff, b)
    ensures ShiftsCover(s.shifts, s.catalog, s.bookings[id := b], s.clock) && TimeOffClear(s.timeOff, s.bookings[id := b])
  {
  }

  lemma BookReserves(s: Store, i: BookingInput, b: Booking, first: Reservations)
    requires Linked(s.bookings, s.reservations) && LedgerDisjoint(s.reservations)
    requires i.id !in s.bookings && IsActive(b)
    requires InsertReservation(s.reservations, i.technicianReservation, NewReservation(i.id, b, TechnicianResource)) == Ok(first)
    requires InsertReservation(first, i.bayReservation, NewReservation(i.id, b, BayResource)).Ok?
    ensures var both := first[i.bayReservation := NewReservation(i.id, b, BayResource)];
            Linked(s.bookings[i.id := b], both) && LedgerDisjoint(both)
  {
    BookLinked(s.bookings, s.reservations, i.id, b, i.technicianReservation, i.bayReservation);
    InsertDisjoint(s.reservations, i.technicianReservation, NewReservation(i.id, b, TechnicianResource));
    InsertDisjoint(first, i.bayReservation, NewReservation(i.id, b, BayResource));
  }

  lemma ScheduleKeeps(s: Store, i: BookingInput)
    requires Inv(s)
    ensures Inv(Schedule(s, i).0)
  {
    hide Linked, LedgerDisjoint, Catalogued, Owned, ShiftsCover, ShiftsSound, TimeOffClear, Audited;
    if Schedule(s, i).1.None? {
      var b, first := ScheduleWrites(s, i);
      CheckedFits(s, i, b);
      BookReserves(s, i, b, first);
      BookReferences(s, i.id, b);
      BookSchedules(s, i.id, b);
      BookAudited(s.audit, s.bookings, s.clock, i.id, b, i.createdBy);
    }
  }

  // ----- lifecycle -----

  lemma ChangeWrites(s: Store, id: Id, dealership: Id, t: Transition) returns (row: Row)
    requires Change(s, id, dealership, t).1.None?
    ensures id in s.bookings && ChangeRow(s.bookings[id].row, t) == Ok(row)
    ensures row.startsAt == s.bookings[id].row.startsAt && row.endsAt == s.bookings[id].row.endsAt && row.status == t.to
    ensures Change(s, id, dealership, t).0 == s.(
      bookings := s.bookings[id := s.bookings[id].(row := row)],
      reservations := if Active(t.to) then s.reservations else Release(s.reservations, id, t.to, t.occurredAt),
      audit := s.audit + [StatusEvent(id, s.bookings[id].row, row, t)])
  {
    row := Rewrite(s.bookings[id].row, t).value;
  }

  lemma ChangeLinked(bookings: Bookings, reservations: Reservations, id: Id, row: Row, now: Instant)
    requires Linked(bookings, reservations) && id in bookings && IsActive(bookings[id])
    requires row.startsAt == bookings[id].row.startsAt && row.endsAt == bookings[id].row.endsAt
    ensures Linked(bookings[id := bookings[id].(row := row)],
                   if Active(row.status) then reservations else Release(reservations, id, row.status, now))
  {
    var after := if Active(row.status) then reservations else Release(reservations, id, row.status, now);
    forall x, kind | x in bookings
      ensures Holds(after, x, kind)
    {
      assert Holds(reservations, x, kind);
      var r :| r in reservations && reservations[r].booking == x && reservations[r].kind == kind;
      assert after[r].booking == x && after[r].kind == kind;
    }
  }

  lemma ReleaseDisjoint(reservations: Reservations, id: Id, status: Status, now: Instant)
    requires LedgerDisjoint(reservations)
    ensures LedgerDisjoint(Release(reservations, id, status, now))
  {
    var after := Release(reservations, id, status, now);
    forall p, q | p in after && q in after && p != q
      ensures !Competing(after[p], after[q])
    {
      assert !Competing(reservations[p], reservations[q]);
    }
  }

  // One more event that continues a log.
  lemma ExtendReplays(log: seq<AuditEvent>, e: AuditEvent, b: Booking, after: Booking, clock: Instant)
    requires Replays(log, b, clock) && Continues(log[|log| - 1], e)
    requires after.row.startsAt == b.row.startsAt && after.row.endsAt == b.row.endsAt
    requires after.row.status == e.afterStatus && after.row.notes == e.afterNotes && e.occurredAt == clock
    requires Rank(after.row.status) < Rank(b.row.status)
    ensures Replays(log + [e], after, clock)
  {
    forall k | 0 <= k < |log|
      ensures ContinuesAt(log + [e], k)
    {
      if k < |log| - 1 {
        assert ContinuesAt(log, k);
      }
    }
  }

  lemma ChangeReplays(log: seq<AuditEvent>, id: Id, b: Booking, row: Row, t: Transition)
    requires Replays(log, b, t.occurredAt)
    requires HandlerPair(t.from, t.to) && ChangeRow(b.row, t) == Ok(row)
    ensures Replays(log + [StatusEvent(id, b.row, row, t)], b.(row := row), t.occurredAt)
  {
    HandlerLowersRank(b.row, t);
    ExtendReplays(log, StatusEvent(id, b.row, row, t), b, b.(row := row), t.occurredAt);
  }

  lemma ChangeAudited(audit: seq<AuditEvent>, bookings: Bookings, id: Id, row: Row, e: AuditEvent, clock: Instant)
    requires Audited(audit, bookings, clock) && id in bookings && e.booking == id
    requires Replays(LogOf(audit, id) + [e], bookings[id].(row := row), clock)
    ensures Audited(audit + [e], bookings[id := bookings[id].(row := row)], clock)
  {
    var after := bookings[id := bookings[id].(row := row)];
    forall x | x in after
      ensures Replays(LogOf(audit + [e], x), after[x], clock)
    {
      LogOfAppend(audit, e, x);
      assert x != id ==> LogOf(audit + [e], x) == LogOf(audit, x);
    }
  }

  lemma RewriteFits(s: Store, id: Id, row: Row)
    requires Inv(s) && id in s.bookings && IsActive(s.bookings[id])
    requires row.startsAt == s.bookings[id].row.startsAt && row.endsAt == s.bookings[id].row.endsAt
    ensures var b := s.bookings[id].(row := row);
            && InCatalog(s.catalog, b) && Entitled(s.vehicles, s.owners, b) && Clear(s.timeOff, b)
            && (b.row.endsAt > s.clock ==> Covered(s.shifts, s.catalog, b))
  {
    var b := s.bookings[id];
    assert InCatalog(s.catalog, b) && Entitled(s.vehicles, s.owners, b) && Clear(s.timeOff, b);
  }

  lemma ChangeKeeps(s: Store, id: Id, dealership: Id, t: Transition)
    requires Inv(s) && HandlerPair(t.from, t.to) && t.occurredAt == s.clock
    ensures Inv(Change(s, id, dealership, t).0)
  {
    if Change(s, id, dealership, t).1.None? {
      var row := ChangeWrites(s, id, dealership, t);
      assert Replays(LogOf(s.audit, id), s.bookings[id], s.clock);
      HandlerLowersRank(s.bookings[id].row, t);
      hide Linked, LedgerDisjoint, Catalogued, Owned, ShiftsCover, ShiftsSound, TimeOffClear, Audited;
      RewriteFits(s, id, row);
      ChangeLinked(s.bookings, s.reservations, id, row, t.occurredAt);
      ReleaseDisjoint(s.reservations, id, t.to, t.occurredAt);
      BookReferences(s, id, s.bookings[id].(row := row));
      BookSchedules(s, id, s.bookings[id].(row := row));
      ChangeReplays(LogOf(s.audit, id), id, s.bookings[id], row, t);
      ChangeAudited(s.audit, s.bookings, id, row, StatusEvent(id, s.bookings[id].row, row, t), s.clock);
    }
  }

  // ----- shifts -----

  lemma CreateShiftKeeps(s: Store, dealership: Id, technician: Id, shift: Id, w: Window)
    requires Inv(s)
    ensures Inv(CreateShift(s, dealership, technician, shift, w).0)
  {
    if CreateShift(s, dealership, technician, shift, w).1.None? {
      var after := s.shifts[shift := Shift(technician, w, false)];
      WriteShiftSound(s.shifts, technician, shift, w);
      forall id | id in s.bookings && IsActive(s.bookings[id]) && s.bookings[id].row.endsAt > s.clock
        ensures Covered(after, s.catalog, s.bookings[id])
      {
        var b := s.bookings[id];
        assert Covered(s.shifts, s.catalog, b);
        var v :| v in s.shifts && LiveShiftOf(s.shifts, v, b.technician)
                 && InWindow(s.shifts[v].window, b.row.startsAt, b.row.endsAt, Offset(s.catalog, b.dealership));
        assert LiveShiftOf(after, v, b.technician);
      }
    }
  }

  // A write that technician_shifts_no_overlap accepts keeps live shifts disjoint.
  lemma WriteShiftSound(shifts: Shifts, technician: Id, shift: Id, w: Window)
    requires ShiftsSound(shifts) && ValidWindow(w) && !ShiftConflict(shifts, technician, w, shift)
    ensures ShiftsSound(shifts[shift := Shift(technician, w, false)])
  {
    var after := shifts[shift := Shift(technician, w, false)];
    forall u, v | u in after && v in after && u != v && !after[u].deleted && LiveShiftOf(after, v, after[u].technician)
      ensures !WindowsOverlap(after[u].window, after[v].window)
    {
      if u == shift {
        assert LiveShiftOf(shifts, v, technician);
      } else if v == shift {
        assert LiveShiftOf(shifts, u, technician);
      } else {
        assert LiveShiftOf(shifts, v, shifts[u].technician);
      }
    }
  }

  // The checks on a shift that is written are exact as well.
  lemma ShiftAcceptedIff(shifts: Shifts, technician: Id, shift: Id, w: Window)
    requires ShiftsSound(shifts)
    ensures ShiftsSound(shifts[shift := Shift(technician, w, false)]) <==> ValidWindow(w) && !ShiftConflict(shifts, technician, w, shift)
  {
    var after := shifts[shift := Shift(technician, w, false)];
    if ValidWindow(w) && !ShiftConflict(shifts, technician, w, shift) {
      WriteShiftSound(shifts, technician, shift, w);
    }
    assert shift in after && after[shift].window == w;
    if ShiftsSound(after) && ShiftConflict(shifts, technician, w, shift) {
      var v :| v in shifts && v != shift && LiveShiftOf(shifts, v, technician) && WindowsOverlap(shifts[v].window, w);
      assert v in after && shift in after && !after[v].deleted && LiveShiftOf(after, shift, after[v].technician);
    }
  }

  // The guard query is what keeps coverage: a booking it does not report fits
  // the candidate or a live shift other than the one being replaced.
  lemma GuardKeepsCover(s: Store, technician: Id, candidate: Window, shift: Id, after: Shifts)
    requires Catalogued(s.catalog, s.bookings) && ShiftsCover(s.shifts, s.catalog, s.bookings, s.clock)
    requires LiveShiftOf(s.shifts, shift, technician) && !UncoveredBooking(s, technician, candidate, shift)
    requires forall v | v in s.shifts && v != shift :: v in after && after[v] == s.shifts[v]
    requires candidate == NO_SHIFT || after[shift := Shift(technician, candidate, false)] == after
    ensures ShiftsCover(after, s.catalog, s.bookings, s.clock)
  {
    forall id | id in s.bookings && IsActive(s.bookings[id]) && s.bookings[id].row.endsAt > s.clock
      ensures Covered(after, s.catalog, s.bookings[id])
    {
      var b := s.bookings[id];
      var offset := Offset(s.catalog, b.dealership);
      assert Covered(s.shifts, s.catalog, b) && InCatalog(s.catalog, b);
      if InWindow(candidate, b.row.startsAt, b.row.endsAt, offset) && b.technician == technician {
        assert candidate != NO_SHIFT;
        assert after[shift] == Shift(technician, candidate, false);
        assert LiveShiftOf(after, shift, technician);
      } else {
        var others := if b.technician == technician then s.shifts - {shift} else s.shifts;
        assert OnShift(others, b.technician, b.row.startsAt, b.row.endsAt, offset);
        var v :| v in others && LiveShiftOf(others, v, b.technician) && InWindow(others[v].window, b.row.startsAt, b.row.endsAt, offset);
        assert v != shift && LiveShiftOf(after, v, b.technician);
      }
    }
  }

  lemma UpdateShiftKeeps(s: Store, dealership: Id, technician: Id, shift: Id, p: ShiftPatch)
    requires Inv(s)
    ensures Inv(UpdateShift(s, dealership, technician, shift, p).0)
  {
    if UpdateShift(s, dealership, technician, shift, p).1.None? {
      var candidate := Patched(s.shifts[shift].window, p);
      WriteShiftSound(s.shifts, technician, shift, candidate);
      GuardKeepsCover(s, technician, candidate, shift, s.shifts[shift := Shift(technician, candidate, false)]);
    }
  }

  lemma DeleteShiftKeeps(s: Store, dealership: Id, technician: Id, shift: Id)
    requires Inv(s)
    ensures Inv(DeleteShift(s, dealership, technician, shift).0)
  {
    if DeleteShift(s, dealership, technician, shift).1.None? {
      var after := s.shifts[shift := s.shifts[shift].(deleted := true)];
      GuardKeepsCover(s, technician, NO_SHIFT, shift, after);
      assert forall v, w | v in after && LiveShiftOf(after, w, after[v].technician) :: LiveShiftOf(s.shifts, w, s.shifts[v].technician);
    }
  }

  // ----- time off -----

  // Writing time off that no active booking of the technician overlaps.
  lemma WriteTimeOffClear(timeOff: TimeOffs, bookings: Bookings, technician: Id, item: Id, startsAt: Instant, endsAt: Instant)
    requires TimeOffClear(timeOff, bookings)
    requires !ActiveOverlap(bookings, TechnicianResource, technician, startsAt, endsAt, None)
    ensures TimeOffClear(timeOff[item := TimeOff(technician, startsAt, endsAt, false)], bookings)
  {
    var after := timeOff[item := TimeOff(technician, startsAt, endsAt, false)];
    forall id | id in bookings
      ensures Clear(after, bookings[id])
    {
      var b := bookings[id];
      if IsActive(b) && OnTimeOff(after, b.technician, b.row.startsAt, b.row.endsAt) {
        var o :| o in after && LiveTimeOffOf(after, o, b.technician) && Overlaps(after[o].startsAt, after[o].endsAt, b.row.startsAt, b.row.endsAt);
        assert Resource(b, TechnicianResource) == b.technician && (o != item ==> LiveTimeOffOf(timeOff, o, b.technician));
        assert false;
      }
    }
  }

  lemma DeleteTimeOffClear(timeOff: TimeOffs, bookings: Bookings, item: Id)
    requires TimeOffClear(timeOff, bookings) && item in timeOff
    ensures TimeOffClear(timeOff[item := timeOff[item].(deleted := true)], bookings)
  {
    var after := timeOff[item := timeOff[item].(deleted := true)];
    forall id | id in bookings
      ensures Clear(after, bookings[id])
    {
      assert Clear(timeOff, bookings[id]);
      assert forall o | o in after && LiveTimeOffOf(after, o, bookings[id].technician) ::
          LiveTimeOffOf(timeOff, o, bookings[id].technician) && after[o] == timeOff[o];
    }
  }

  // ----- the catalogue -----

  predicate StillInCatalog(c: Catalog, d: Catalog, b: Booking) {
    InCatalog(d, b) && Offset(d, b.dealership) == Offset(c, b.dealership)
  }

  lemma EditCatalogCovers(s: Store, d: Catalog)
    requires ShiftsCover(s.shifts, s.catalog, s.bookings, s.clock)
    requires forall id | id in s.bookings :: StillInCatalog(s.catalog, d, s.bookings[id])
    ensures ShiftsCover(s.shifts, d, s.bookings, s.clock)
  {
  }

  lemma EditCatalogKeeps(s: Store, d: Catalog)
    requires Inv(s) && DurationsOrdered(d)
    requires forall id | id in s.bookings :: StillInCatalog(s.catalog, d, s.bookings[id])
    ensures Inv(s.(catalog := d))
  {
    EditCatalogCovers(s, d);
    assert Catalogued(d, s.bookings);
  }

  lemma ConfigureKeeps(s: Store, d: Catalog)
    requires Inv(s) && Extends(s.catalog, d)
    ensures Inv(s.(catalog := d))
  {
    forall id | id in s.bookings
      ensures StillInCatalog(s.catalog, d, s.bookings[id])
    {
      assert InCatalog(s.catalog, s.bookings[id]);
    }
    EditCatalogKeeps(s, d);
  }

  lemma ClaimOwned(vehicles: Vehicles, owners: Owners, bookings: Bookings, dealership: Id, vehicle: Id, v: Vehicle)
    requires Owned(vehicles, owners, bookings) && vehicle !in vehicles
    ensures Owned(vehicles[vehicle := v], Claim(owners, v.customer, dealership), bookings)
  {
    var after := Claim(owners, v.customer, dealership);
    forall id | id in bookings
      ensures Entitled(vehicles[vehicle := v], after, bookings[id])
    {
      assert Entitled(vehicles, owners, bookings[id]);
    }
  }

  lemma CreateVehicleKeeps(s: Store, dealership: Id, vehicle: Id, customer: Id, vin: Option<string>)
    requires Inv(s)
    ensures Inv(CreateVehicle(s, dealership, vehicle, customer, vin).0)
  {
    if CreateVehicle(s, dealership, vehicle, customer, vin).1.None? {
      hide Linked, LedgerDisjoint, Catalogued, Owned, ShiftsCover, ShiftsSound, TimeOffClear, Audited;
      ClaimOwned(s.vehicles, s.owners, s.bookings, dealership, vehicle, Vehicle(customer, vin, false));
    }
  }

  // Editing a vehicle other than its customer.
  lemma EditVehicleKeeps(s: Store, vehicle: Id, v: Vehicle)
    requires Inv(s) && vehicle in s.vehicles && v.customer == s.vehicles[vehicle].customer
    ensures Inv(s.(vehicles := s.vehicles[vehicle := v]))
  {
    assert Owned(s.vehicles[vehicle := v], s.owners, s.bookings) by {
      forall id | id in s.bookings
        ensures Entitled(s.vehicles[vehicle := v], s.owners, s.bookings[id])
      {
        assert Entitled(s.vehicles, s.owners, s.bookings[id]);
      }
    }
  }

  // A bay or service type that no booking refers to may be marked deleted.
  lemma DeleteBayKeeps(s: Store, dealership: Id, bay: Id)
    requires Inv(s)
    ensures Inv(DeleteBay(s, dealership, bay).0)
  {
    if DeleteBay(s, dealership, bay).1.None? {
      var c := s.catalog.(bays := s.catalog.bays[bay := s.catalog.bays[bay].(deleted := true)]);
      forall id | id in s.bookings
        ensures StillInCatalog(s.catalog, c, s.bookings[id])
      {
        assert InCatalog(s.catalog, s.bookings[id]);
      }
      EditCatalogKeeps(s, c);
    }
  }

  lemma DeleteServiceTypeKeeps(s: Store, dealership: Id, serviceType: Id)
    requires Inv(s)
    ensures Inv(DeleteServiceType(s, dealership, serviceType).0)
  {
    if DeleteServiceType(s, dealership, serviceType).1.None? {
      var t := s.catalog.serviceTypes[serviceType].(deleted := true);
      var c := s.catalog.(serviceTypes := s.catalog.serviceTypes[serviceType := t]);
      forall id | id in s.bookings
        ensures StillInCatalog(s.catalog, c, s.bookings[id])
      {
        assert InCatalog(s.catalog, s.bookings[id]);
      }
      EditCatalogKeeps(s, c);
    }
  }

  lemma TimeOffStepKeeps(s: Store, q: Request, now: Instant)
    requires Inv(s) && s.clock == now
    requires q.CreateTimeOffRequest? || q.UpdateTimeOffRequest? || q.DeleteTimeOffRequest?
    ensures Inv(Step(s, q, now).0)
  {
    hide Linked, LedgerDisjoint, Catalogued, Owned, ShiftsCover, ShiftsSound, TimeOffClear, Audited;
    assert s.(clock := now) == s;
    if Step(s, q, now).1.None? {
      match q
      case CreateTimeOffRequest(_, tech, off, st, en) =>
        WriteTimeOffClear(s.timeOff, s.bookings, tech, off, st, en);
      case UpdateTimeOffRequest(_, tech, off, st, en) =>
        WriteTimeOffClear(s.timeOff, s.bookings, tech, off, st.GetOr(s.timeOff[off].startsAt), en.GetOr(s.timeOff[off].endsAt));
      case DeleteTimeOffRequest(_, tech, off) =>
        DeleteTimeOffClear(s.timeOff, s.bookings, off);
    }
  }

  // ----- every request -----

  lemma StepKeeps(s: Store, q: Request, now: Instant)
    requires Inv(s) && s.clock <= now && Admissible(s, q)
    ensures Inv(Step(s, q, now).0)
  {
    TickKeeps(s, now);
    StepAtKeeps(s.(clock := now), q);
    assert Step(s, q, now) == Step(s.(clock := now), q, now);
  }

  lemma StepAtKeeps(t: Store, q: Request)
    requires Inv(t) && Admissible(t, q)
    ensures Inv(Step(t, q, t.clock).0)
  {
    hide Linked, LedgerDisjoint, Catalogued, Owned, ShiftsCover, ShiftsSound, TimeOffClear, Audited;
    assert t.(clock := t.clock) == t;
    match q {
      case ScheduleRequest(i) => ScheduleKeeps(t, i);
      case ChangeRequest(c) => ChangeKeeps(t, c.id, c.dealership, Stamp(c, t.clock));
      case CreateShiftRequest(d, tech, shift, w) => CreateShiftKeeps(t, d, tech, shift, w);
      case UpdateShiftRequest(d, tech, shift, p) => UpdateShiftKeeps(t, d, tech, shift, p);
      case DeleteShiftRequest(d, tech, shift) => DeleteShiftKeeps(t, d, tech, shift);
      case CreateTimeOffRequest(_, _, _, _, _) => TimeOffStepKeeps(t, q, t.clock);
      case UpdateTimeOffRequest(_, _, _, _, _) => TimeOffStepKeeps(t, q, t.clock);
      case DeleteTimeOffRequest(_, _, _) => TimeOffStepKeeps(t, q, t.clock);
      case CreateCustomerRequest(c) =>
      case CreateVehicleRequest(d, v, c, vin) => CreateVehicleKeeps(t, d, v, c, vin);
      case UpdateVehicleRequest(v, vin) =>
        if UpdateVehicle(t, v, vin).1.None? {
          EditVehicleKeeps(t, v, t.vehicles[v].(vin := vin));
        }
      case DeleteVehicleRequest(v) =>
        if DeleteVehicle(t, v).1.None? {
          EditVehicleKeeps(t, v, t.vehicles[v].(deleted := true));
        }
      case DeleteBayRequest(d, b) => DeleteBayKeeps(t, d, b);
      case DeleteServiceTypeRequest(d, x) => DeleteServiceTypeKeeps(t, d, x);
      case ConfigureRequest(c) => ConfigureKeeps(t, c);
    }
  }

  // ----- time off and time off -----

  lemma StepKeepsTimeOff(s: Store, q: Request, now: Instant)
    requires TimeOffSound(s.timeOff)
    ensures TimeOffSound(Step(s, q, now).0.timeOff)
  {
    hide Schedule, Change, CreateShift, UpdateShift, DeleteShift, CreateVehicle, UpdateVehicle, DeleteVehicle, DeleteBay, DeleteServiceType;
    if q.CreateTimeOffRequest? || q.UpdateTimeOffRequest? || q.DeleteTimeOffRequest? {
    } else {
      OthersLeaveTimeOff(s, q, now);
    }
  }

  lemma OthersLeaveTimeOff(s: Store, q: Request, now: Instant)
    requires !q.CreateTimeOffRequest? && !q.UpdateTimeOffRequest? && !q.DeleteTimeOffRequest?
    ensures Step(s, q, now).0.timeOff == s.timeOff
  {
    hide ActiveOverlap, ShiftConflict, UncoveredBooking, VinTaken, BayReferenced, ServiceTypeReferenced, CheckBooking,
      ReservationConflict;
  }
}
