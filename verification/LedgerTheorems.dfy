/**
 What holds in every state the booking engine can reach, and along every run.
 */
module LedgerTheorems {
  import opened Outcomes
  import opened LocalClock
  import opened Lifecycle
  import opened Tables
  import opened Ledger
  import opened LedgerInvariant

  // ----- runs -----

  datatype Served = Served(request: Request, at: Instant)

  function Run(s: Store, history: seq<Served>): Store
    decreases history
  {
    if history == [] then s else Run(Step(s, history[0].request, history[0].at).0, history[1..])
  }

  // The clock never goes back and every request is one the handlers can send.
  ghost predicate Legal(s: Store, history: seq<Served>)
    decreases history
  {
    history != [] ==>
      && s.clock <= history[0].at
      && Admissible(s, history[0].request)
      && Legal(Step(s, history[0].request, history[0].at).0, history[1..])
  }

  ghost predicate Reachable(s: Store) {
    exists history :: Legal(EMPTY, history) && Run(EMPTY, history) == s
  }

  lemma {:induction false} RunKeeps(s: Store, history: seq<Served>)
    requires Inv(s) && Legal(s, history)
    ensures Inv(Run(s, history))
    decreases history
  {
    hide Inv;
    if history != [] {
      StepKeeps(s, history[0].request, history[0].at);
      RunKeeps(Step(s, history[0].request, history[0].at).0, history[1..]);
    }
  }

  lemma ReachableHolds(s: Store)
    requires Reachable(s)
    ensures Inv(s)
  {
    var history :| Legal(EMPTY, history) && Run(EMPTY, history) == s;
    EmptyHolds();
    RunKeeps(EMPTY, history);
  }

  lemma {:induction false} RunExtends(s: Store, history: seq<Served>, last: Served)
    requires Legal(s, history)
    requires Run(s, history).clock <= last.at && Admissible(Run(s, history), last.request)
    ensures Legal(s, history + [last])
    ensures Run(s, history + [last]) == Step(Run(s, history), last.request, last.at).0
    decreases history
  {
    hide Step, Admissible;
    var longer := history + [last];
    if history == [] {
      assert longer[0] == last && longer[1..] == [];
      assert Legal(Step(s, last.request, last.at).0, longer[1..]);
    } else {
      assert longer[0] == history[0] && longer[1..] == history[1..] + [last];
      RunExtends(Step(s, history[0].request, history[0].at).0, history[1..], last);
    }
  }

  // The reachable states are the empty tables and what requests make of reachable
  // states.
  lemma ReachableNext(s: Store, q: Request, now: Instant)
    ensures Reachable(EMPTY)
    ensures Reachable(s) && s.clock <= now && Admissible(s, q) ==> Reachable(Step(s, q, now).0)
  {
    assert Legal(EMPTY, []) && Run(EMPTY, []) == EMPTY;
    if Reachable(s) && s.clock <= now && Admissible(s, q) {
      var history :| Legal(EMPTY, history) && Run(EMPTY, history) == s;
      RunExtends(EMPTY, history, Served(q, now));
      assert Legal(EMPTY, history + [Served(q, now)]);
    }
    hide Step, Admissible;
  }

  lemma {:induction false} RunKeepsTimeOff(s: Store, history: seq<Served>)
    requires TimeOffSound(s.timeOff)
    ensures TimeOffSound(Run(s, history).timeOff)
    decreases history
  {
    if history != [] {
      StepKeepsTimeOff(s, history[0].request, history[0].at);
      RunKeepsTimeOff(Step(s, history[0].request, history[0].at).0, history[1..]);
    }
  }

  lemma ReachableTimeOff(s: Store)
    requires Reachable(s)
    ensures TimeOffSound(s.timeOff)
  {
    var history :| Legal(EMPTY, history) && Run(EMPTY, history) == s;
    RunKeepsTimeOff(EMPTY, history);
  }

  // ----- no double booking, through the ledger -----

  lemma HolderOf(bookings: Bookings, reservations: Reservations, id: Id, kind: Kind) returns (r: Id)
    requires Linked(bookings, reservations) && id in bookings
    ensures r in reservations && reservations[r].booking == id && reservations[r].kind == kind
    ensures Mirrors(reservations[r], bookings[id])
  {
    assert Holds(reservations, id, kind);
    r :| r in reservations && reservations[r].booking == id && reservations[r].kind == kind;
  }

  lemma LedgerSeparates(bookings: Bookings, reservations: Reservations, x: Id, y: Id, kind: Kind)
    requires Linked(bookings, reservations) && LedgerDisjoint(reservations)
    requires x in bookings && y in bookings && x != y && IsActive(bookings[x]) && IsActive(bookings[y])
    requires Resource(bookings[x], kind) == Resource(bookings[y], kind)
    ensures !Overlaps(bookings[x].row.startsAt, bookings[x].row.endsAt, bookings[y].row.startsAt, bookings[y].row.endsAt)
  {
    var p := HolderOf(bookings, reservations, x, kind);
    var q := HolderOf(bookings, reservations, y, kind);
    assert !Competing(reservations[p], reservations[q]);
  }

  lemma NoDoubleBooking(s: Store, x: Id, y: Id)
    requires Reachable(s)
    requires x in s.bookings && y in s.bookings && x != y && IsActive(s.bookings[x]) && IsActive(s.bookings[y])
    requires s.bookings[x].technician == s.bookings[y].technician || s.bookings[x].bay == s.bookings[y].bay
    ensures s.bookings[x].row.endsAt <= s.bookings[y].row.startsAt || s.bookings[y].row.endsAt <= s.bookings[x].row.startsAt
  {
    ReachableHolds(s);
    var kind := if s.bookings[x].technician == s.bookings[y].technician then TechnicianResource else BayResource;
    LedgerSeparates(s.bookings, s.reservations, x, y, kind);
  }

  // The reservations of a booking, in both of its phases.
  lemma LedgerLinkage(s: Store, id: Id, kind: Kind) returns (r: Id)
    requires Reachable(s) && id in s.bookings
    ensures r in s.reservations && s.reservations[r].booking == id && s.reservations[r].kind == kind
    ensures forall q | q in s.reservations && s.reservations[q].booking == id && s.reservations[q].kind == kind :: q == r
    ensures s.reservations[r].resource == Resource(s.bookings[id], kind)
    ensures s.reservations[r].startsAt == s.bookings[id].row.startsAt && s.reservations[r].endsAt == s.bookings[id].row.endsAt
    ensures IsActive(s.bookings[id]) <==> s.reservations[r].releasedAt.None?
    ensures !IsActive(s.bookings[id]) ==> s.reservations[r].status == s.bookings[id].row.status
  {
    ReachableHolds(s);
    r := HolderOf(s.bookings, s.reservations, id, kind);
    forall q | q in s.reservations && s.reservations[q].booking == id && s.reservations[q].kind == kind
      ensures q == r
    {
      assert SameHolder(s.reservations[q], s.reservations[r]);
    }
  }

  // ----- the two overlap guards and the availability list -----

  lemma LinkedGuardsAgree(bookings: Bookings, reservations: Reservations, kind: Kind, resource: Id, startsAt: Instant, endsAt: Instant)
    requires Linked(bookings, reservations)
    ensures ActiveOverlap(bookings, kind, resource, startsAt, endsAt, None)
            <==> ReservationConflict(reservations, kind, resource, startsAt, endsAt)
  {
    if ActiveOverlap(bookings, kind, resource, startsAt, endsAt, None) {
      var id :| id in bookings && IsActive(bookings[id]) && Resource(bookings[id], kind) == resource
                && BookingOverlaps(bookings[id], startsAt, endsAt);
      var r := HolderOf(bookings, reservations, id, kind);
    }
    if ReservationConflict(reservations, kind, resource, startsAt, endsAt) {
      var r :| r in reservations && Takes(reservations[r], kind, resource, startsAt, endsAt);
      assert BookingOverlaps(bookings[reservations[r].booking], startsAt, endsAt);
    }
  }

  // Appointment status and released_at always give the same answer to "is this
  // resource busy", so the ledger's constraint and the appointments table's
  // constraints accept the same inserts.
  lemma GuardsAgree(s: Store, kind: Kind, resource: Id, startsAt: Instant, endsAt: Instant)
    requires Inv(s)
    ensures ActiveOverlap(s.bookings, kind, resource, startsAt, endsAt, None)
            <==> ReservationConflict(s.reservations, kind, resource, startsAt, endsAt)
  {
    LinkedGuardsAgree(s.bookings, s.reservations, kind, resource, startsAt, endsAt);
  }

  // A bay is listed as available exactly when booking would accept it: it is
  // compatible and its reservation can be inserted.
  lemma AvailabilityAgreesWithBooking(
    s: Store, dealership: Id, serviceType: Id, bay: Id, startsAt: Instant, endsAt: Instant, key: Id, r: Reservation)
    requires Inv(s)
    requires startsAt < endsAt && key !in s.reservations
    requires r.kind == BayResource && r.resource == bay && r.startsAt == startsAt && r.endsAt == endsAt
    ensures bay in AvailableBays(s, dealership, serviceType, startsAt, endsAt) <==>
      && bay in s.catalog.bays
      && s.catalog.bays[bay].dealership == dealership && s.catalog.bays[bay].isActive && !s.catalog.bays[bay].deleted
      && (serviceType in s.catalog.serviceTypes ==>
            forall c | c in s.catalog.serviceTypes[serviceType].requiredCapabilities :: c in s.catalog.bays[bay].capabilities)
      && InsertReservation(s.reservations, key, r).Ok?
  {
    GuardsAgree(s, BayResource, bay, startsAt, endsAt);
  }

  // ----- schedules -----

  predicate Holding(shifts: Shifts, shift: Id, technician: Id, startsAt: Instant, endsAt: Instant, offset: int) {
    LiveShiftOf(shifts, shift, technician) && InWindow(shifts[shift].window, startsAt, endsAt, offset)
  }

  lemma OneHoldingShift(shifts: Shifts, technician: Id, startsAt: Instant, endsAt: Instant, offset: int) returns (shift: Id)
    requires ShiftsSound(shifts) && startsAt < endsAt && OnShift(shifts, technician, startsAt, endsAt, offset)
    ensures Holding(shifts, shift, technician, startsAt, endsAt, offset)
    ensures forall v | Holding(shifts, v, technician, startsAt, endsAt, offset) :: v == shift
    ensures InCalendarShift(shifts[shift].window, LocalDate(startsAt, offset), startsAt, endsAt, offset)
  {
    shift :| shift in shifts && LiveShiftOf(shifts, shift, technician) && InWindow(shifts[shift].window, startsAt, endsAt, offset);
    CalendarShiftBounds(shifts[shift].window, LocalDate(startsAt, offset), startsAt, endsAt, offset);
    forall v | Holding(shifts, v, technician, startsAt, endsAt, offset)
      ensures v == shift
    {
      SharedBookingOverlaps(shifts[shift].window, shifts[v].window, startsAt, endsAt, offset);
    }
  }

  // An active booking that has not ended lies in exactly one live shift of its
  // technician, and the calendar of its local date shows that shift around it.
  lemma InExactlyOneShift(s: Store, id: Id) returns (shift: Id)
    requires Reachable(s) && id in s.bookings && IsActive(s.bookings[id]) && s.bookings[id].row.endsAt > s.clock
    ensures var b := s.bookings[id]; var offset := Offset(s.catalog, b.dealership);
      && Holding(s.shifts, shift, b.technician, b.row.startsAt, b.row.endsAt, offset)
      && (forall v | Holding(s.shifts, v, b.technician, b.row.startsAt, b.row.endsAt, offset) :: v == shift)
      && InCalendarShift(s.shifts[shift].window, LocalDate(b.row.startsAt, offset), b.row.startsAt, b.row.endsAt, offset)
  {
    ReachableHolds(s);
    var b := s.bookings[id];
    assert Covered(s.shifts, s.catalog, b) && InCatalog(s.catalog, b);
    hide Linked, LedgerDisjoint, Catalogued, Owned, ShiftsCover, ShiftsSound, TimeOffClear, Audited;
    shift := OneHoldingShift(s.shifts, b.technician, b.row.startsAt, b.row.endsAt, Offset(s.catalog, b.dealership));
  }

  // An active booking of the technician that ends after `now` and lies in the window.
  predicate LeansOn(s: Store, id: Id, technician: Id, w: Window, now: Instant) {
    && id in s.bookings
    && s.bookings[id].technician == technician
    && IsActive(s.bookings[id])
    && s.bookings[id].row.endsAt > now
    && InWindow(w, s.bookings[id].row.startsAt, s.bookings[id].row.endsAt, Offset(s.catalog, s.bookings[id].dealership))
  }

  lemma UncoveredAtIff(s: Store, id: Id, technician: Id, candidate: Window, shift: Id, now: Instant)
    requires Inv(s) && s.clock <= now && LiveShiftOf(s.shifts, shift, technician)
    ensures Uncovered(s.(clock := now), id, technician, candidate, shift)
            <==> LeansOn(s, id, technician, s.shifts[shift].window, now) && !LeansOn(s, id, technician, candidate, now)
  {
    hide Linked, LedgerDisjoint, Owned, ShiftsSound, TimeOffClear, Audited, OnShift, InWindow;
    if id in s.bookings && s.bookings[id].technician == technician && IsActive(s.bookings[id]) && s.bookings[id].row.endsAt > now {
      var b := s.bookings[id];
      assert InCatalog(s.catalog, b) && Covered(s.shifts, s.catalog, b);
      OthersCoverIff(s.shifts, technician, shift, b.row.startsAt, b.row.endsAt, Offset(s.catalog, b.dealership));
    }
  }

  lemma OthersCoverIff(shifts: Shifts, technician: Id, shift: Id, startsAt: Instant, endsAt: Instant, offset: int)
    requires ShiftsSound(shifts) && startsAt < endsAt && OnShift(shifts, technician, startsAt, endsAt, offset)
    requires LiveShiftOf(shifts, shift, technician)
    ensures InWindow(shifts[shift].window, startsAt, endsAt, offset)
            <==> !OnShift(shifts - {shift}, technician, startsAt, endsAt, offset)
  {
    var holder := OneHoldingShift(shifts, technician, startsAt, endsAt, offset);
    assert InWindow(shifts[shift].window, startsAt, endsAt, offset) ==> Holding(shifts, shift, technician, startsAt, endsAt, offset);
    assert forall v | v in shifts - {shift} && LiveShiftOf(shifts - {shift}, v, technician)
                      && InWindow((shifts - {shift})[v].window, startsAt, endsAt, offset) ::
        Holding(shifts, v, technician, startsAt, endsAt, offset);
    assert holder != shift ==> LiveShiftOf(shifts - {shift}, holder, technician);
  }

  // The coverage query, which looks at all bookings and all other shifts, comes
  // down to the bookings in the shift that is about to go or to change.
  lemma UncoveredIff(s: Store, technician: Id, candidate: Window, shift: Id, now: Instant)
    requires Inv(s) && s.clock <= now && LiveShiftOf(s.shifts, shift, technician)
    ensures UncoveredBooking(s.(clock := now), technician, candidate, shift)
            <==> exists id :: LeansOn(s, id, technician, s.shifts[shift].window, now)
                              && !LeansOn(s, id, technician, candidate, now)
  {
    forall id
      ensures Uncovered(s.(clock := now), id, technician, candidate, shift)
              <==> LeansOn(s, id, technician, s.shifts[shift].window, now) && !LeansOn(s, id, technician, candidate, now)
    {
      UncoveredAtIff(s, id, technician, candidate, shift, now);
    }
    assert UncoveredBooking(s.(clock := now), technician, candidate, shift)
      <==> exists id :: Uncovered(s.(clock := now), id, technician, candidate, shift);
    hide Uncovered, LeansOn, UncoveredBooking, Inv;
  }

  // A shift can be deleted exactly when no active booking that has not ended lies
  // in it.
  lemma DeleteShiftSucceedsIff(s: Store, dealership: Id, technician: Id, shift: Id, now: Instant)
    requires Inv(s) && s.clock <= now
    requires ActiveTechnician(s.catalog, technician, dealership) && LiveShiftOf(s.shifts, shift, technician)
    ensures Step(s, DeleteShiftRequest(dealership, technician, shift), now).1.None?
            <==> forall id :: !LeansOn(s, id, technician, s.shifts[shift].window, now)
  {
    UncoveredIff(s, technician, NO_SHIFT, shift, now);
    hide Inv, UncoveredBooking;
    assert forall id :: !LeansOn(s, id, technician, NO_SHIFT, now);
  }

  // A shift can be moved exactly when the new window clashes with no other shift
  // and still holds every such booking that the old one holds.
  lemma UpdateShiftSucceedsIff(s: Store, dealership: Id, technician: Id, shift: Id, patch: ShiftPatch, now: Instant)
    requires Inv(s) && s.clock <= now
    requires ActiveTechnician(s.catalog, technician, dealership) && LiveShiftOf(s.shifts, shift, technician)
    ensures var w := Patched(s.shifts[shift].window, patch);
            Step(s, UpdateShiftRequest(dealership, technician, shift, patch), now).1.None? <==>
              && ValidWindow(w)
              && !ShiftConflict(s.shifts, technician, w, shift)
              && forall id :: LeansOn(s, id, technician, s.shifts[shift].window, now) ==> LeansOn(s, id, technician, w, now)
  {
    UncoveredIff(s, technician, Patched(s.shifts[shift].window, patch), shift, now);
    hide Inv, UncoveredBooking, ShiftConflict, LeansOn;
  }

  // Time off can be created exactly when no unreleased reservation of the
  // technician, and no other live time off, overlaps it.
  lemma CreateTimeOffSucceedsIff(s: Store, dealership: Id, technician: Id, off: Id, startsAt: Instant, endsAt: Instant, now: Instant)
    requires Inv(s) && KnownTechnician(s.catalog, technician, dealership) && off != 0 && off !in s.timeOff
    ensures Step(s, CreateTimeOffRequest(dealership, technician, off, startsAt, endsAt), now).1.None? <==>
      && startsAt < endsAt
      && !ReservationConflict(s.reservations, TechnicianResource, technician, startsAt, endsAt)
      && !OnTimeOff(s.timeOff, technician, startsAt, endsAt)
  {
    GuardsAgree(s, TechnicianResource, technician, startsAt, endsAt);
    hide Inv, ActiveOverlap, ReservationConflict;
    assert TimeOffConflict(s.timeOff, technician, startsAt, endsAt, off) <==> OnTimeOff(s.timeOff, technician, startsAt, endsAt);
  }

  // Time off can be moved exactly under the same condition, its own old interval
  // aside.
  lemma UpdateTimeOffSucceedsIff(
    s: Store, dealership: Id, technician: Id, off: Id, newStart: Option<Instant>, newEnd: Option<Instant>, now: Instant)
    requires Inv(s) && KnownTechnician(s.catalog, technician, dealership) && LiveTimeOffOf(s.timeOff, off, technician)
    ensures var startsAt, endsAt := newStart.GetOr(s.timeOff[off].startsAt), newEnd.GetOr(s.timeOff[off].endsAt);
            Step(s, UpdateTimeOffRequest(dealership, technician, off, newStart, newEnd), now).1.None? <==>
              && startsAt < endsAt
              && !ReservationConflict(s.reservations, TechnicianResource, technician, startsAt, endsAt)
              && !OnTimeOff(s.timeOff - {off}, technician, startsAt, endsAt)
  {
    var startsAt, endsAt := newStart.GetOr(s.timeOff[off].startsAt), newEnd.GetOr(s.timeOff[off].endsAt);
    GuardsAgree(s, TechnicianResource, technician, startsAt, endsAt);
    OthersOnTimeOff(s.timeOff, off, technician, startsAt, endsAt);
    hide Inv, ActiveOverlap, ReservationConflict, OnTimeOff, TimeOffConflict;
  }

  lemma OthersOnTimeOff(timeOff: TimeOffs, off: Id, technician: Id, startsAt: Instant, endsAt: Instant)
    ensures OnTimeOff(timeOff - {off}, technician, startsAt, endsAt) <==> TimeOffConflict(timeOff, technician, startsAt, endsAt, off)
  {
    if TimeOffConflict(timeOff, technician, startsAt, endsAt, off) {
      var id :| id in timeOff && id != off && LiveTimeOffOf(timeOff, id, technician)
                && Overlaps(timeOff[id].startsAt, timeOff[id].endsAt, startsAt, endsAt);
      assert id in timeOff - {off} && LiveTimeOffOf(timeOff - {off}, id, technician);
    }
    if OnTimeOff(timeOff - {off}, technician, startsAt, endsAt) {
      var id :| id in timeOff - {off} && LiveTimeOffOf(timeOff - {off}, id, technician)
                && Overlaps((timeOff - {off})[id].startsAt, (timeOff - {off})[id].endsAt, startsAt, endsAt);
      assert id in timeOff && LiveTimeOffOf(timeOff, id, technician);
    }
  }

  lemma TimeOffNeverClashes(s: Store, id: Id, off: Id)
    requires Reachable(s) && id in s.bookings && IsActive(s.bookings[id])
    requires LiveTimeOffOf(s.timeOff, off, s.bookings[id].technician)
    ensures s.timeOff[off].endsAt <= s.bookings[id].row.startsAt || s.bookings[id].row.endsAt <= s.timeOff[off].startsAt
  {
    ReachableHolds(s);
    assert Clear(s.timeOff, s.bookings[id]);
  }

  // Every booking is on the calendar of exactly one local date.
  lemma OnOneCalendar(s: Store, id: Id, date: int)
    requires Reachable(s) && id in s.bookings
    ensures var b := s.bookings[id]; var offset := Offset(s.catalog, b.dealership);
      OnCalendarDay(date, b.row.startsAt, b.row.endsAt, offset) <==> date == LocalDate(b.row.startsAt, offset)
  {
    ReachableHolds(s);
    assert InCatalog(s.catalog, s.bookings[id]);
    OnOneCalendarDay(s.bookings[id].row.startsAt, s.bookings[id].row.endsAt, Offset(s.catalog, s.bookings[id].dealership), date);
  }

  // ----- references -----

  lemma NothingDeletedIsBooked(s: Store, id: Id)
    requires Reachable(s) && id in s.bookings
    ensures var b := s.bookings[id];
      && b.bay in s.catalog.bays && !s.catalog.bays[b.bay].deleted && s.catalog.bays[b.bay].dealership == b.dealership
      && b.serviceType in s.catalog.serviceTypes && !s.catalog.serviceTypes[b.serviceType].deleted
      && s.catalog.serviceTypes[b.serviceType].dealership == b.dealership
  {
    ReachableHolds(s);
    assert InCatalog(s.catalog, s.bookings[id]);
  }

  lemma BookingsAreEntitled(s: Store, id: Id)
    requires Reachable(s) && id in s.bookings
    ensures var b := s.bookings[id];
      && b.vehicle in s.vehicles && s.vehicles[b.vehicle].customer == b.customer
      && b.customer in s.owners && s.owners[b.customer] == b.dealership
  {
    ReachableHolds(s);
    assert Entitled(s.vehicles, s.owners, s.bookings[id]);
  }

  // ----- what one request decides -----

  lemma NoOtherOverlap(bookings: Bookings, reservations: Reservations, id: Id, kind: Kind)
    requires Linked(bookings, reservations) && LedgerDisjoint(reservations) && id in bookings && IsActive(bookings[id])
    ensures !ActiveOverlap(bookings, kind, Resource(bookings[id], kind), bookings[id].row.startsAt, bookings[id].row.endsAt, Some(id))
  {
    forall x | x in bookings && Some(id) != Some(x) && IsActive(bookings[x]) && Resource(bookings[x], kind) == Resource(bookings[id], kind)
      ensures !BookingOverlaps(bookings[x], bookings[id].row.startsAt, bookings[id].row.endsAt)
    {
      LedgerSeparates(bookings, reservations, x, id, kind);
    }
  }

  // An UPDATE of an active booking never trips the time-off trigger or an
  // exclusion constraint.
  lemma UpdateNeverRejected(s: Store, id: Id, row: Row)
    requires Linked(s.bookings, s.reservations) && LedgerDisjoint(s.reservations) && TimeOffClear(s.timeOff, s.bookings)
    requires id in s.bookings && IsActive(s.bookings[id])
    requires row.startsAt == s.bookings[id].row.startsAt && row.endsAt == s.bookings[id].row.endsAt
    requires row.status.Cancelled? ==> row.cancellationReason.Some?
    ensures !UpdateRejected(s, id, s.bookings[id].(row := row))
  {
    assert Clear(s.timeOff, s.bookings[id]);
    NoOtherOverlap(s.bookings, s.reservations, id, TechnicianResource);
    NoOtherOverlap(s.bookings, s.reservations, id, BayResource);
  }

  // While the invariant holds a handler's lifecycle request succeeds exactly when the
  // domain entity that matches the row allows it: no constraint interferes.
  lemma TransitionSucceedsIff(s: Store, c: ChangeInput, now: Instant, a: Appointment)
    requires Inv(s) && HandlerPair(c.from, c.to)
    requires c.id != 0 && c.id in s.bookings && s.bookings[c.id].dealership == c.dealership
    requires Matches(s.bookings[c.id].row, a)
    ensures Step(s, ChangeRequest(c), now).1.None? <==> ChangeAppointment(a, Stamp(c, now)).Ok?
    ensures Step(s, ChangeRequest(c), now).1.None? ==>
      && c.id in Step(s, ChangeRequest(c), now).0.bookings
      && Matches(Step(s, ChangeRequest(c), now).0.bookings[c.id].row, ChangeAppointment(a, Stamp(c, now)).value)
  {
    hide Linked, LedgerDisjoint, Catalogued, Owned, ShiftsCover, ShiftsSound, TimeOffClear, Audited;
    var t := s.(clock := now);
    var tr := Stamp(c, now);
    var before := s.bookings[c.id].row;
    RowRefinesEntity(before, a, tr);
    if ChangeRow(before, tr).Ok? {
      HandlerLowersRank(before, tr);
      UpdateNeverRejected(t, c.id, ChangeRow(before, tr).value);
    }
  }

  // What a booking needs, spelled out on the tables: the steps use none of the
  // predicates from here to Bookable.
  predicate Complete(i: BookingInput) {
    && i.customer != 0 && i.vehicle != 0 && i.serviceType != 0 && i.technician != 0 && i.bay != 0
    && (i.planned.Some? ==> i.planned.value > 0)
  }

  predicate Offered(c: Catalog, i: BookingInput) {
    && i.dealership in c.dealerships && c.dealerships[i.dealership].isActive && !c.dealerships[i.dealership].deleted
    && i.serviceType in c.serviceTypes
    && var service := c.serviceTypes[i.serviceType];
       service.dealership == i.dealership && service.isActive && !service.deleted
  }

  // The minutes asked for, or the longest the service may take.
  function Minutes(c: Catalog, i: BookingInput): int
    requires i.serviceType in c.serviceTypes
  {
    if i.planned.Some? then i.planned.value else c.serviceTypes[i.serviceType].maxMinutes
  }

  function Finish(c: Catalog, i: BookingInput): Instant
    requires i.serviceType in c.serviceTypes
  {
    EndOf(i.startsAt, Minutes(c, i))
  }

  predicate DurationFits(c: Catalog, i: BookingInput)
    requires i.serviceType in c.serviceTypes
  {
    c.serviceTypes[i.serviceType].minMinutes <= Minutes(c, i) <= c.serviceTypes[i.serviceType].maxMinutes
  }

  predicate BringsOwnVehicle(s: Store, i: BookingInput) {
    && i.vehicle in s.vehicles && s.vehicles[i.vehicle].customer == i.customer && !s.vehicles[i.vehicle].deleted
    && i.customer in s.owners && s.owners[i.customer] == i.dealership
  }

  predicate WhileOpen(c: Catalog, i: BookingInput)
    requires i.dealership in c.dealerships && i.serviceType in c.serviceTypes
  {
    exists h | h in c.openingHours ::
      h.dealership == i.dealership && InWindow(h.window, i.startsAt, Finish(c, i), c.dealerships[i.dealership].offset)
  }

  predicate Skilled(c: Catalog, i: BookingInput)
    requires i.serviceType in c.serviceTypes
  {
    && i.technician in c.technicians
    && var technician := c.technicians[i.technician];
       && technician.dealership == i.dealership && technician.isActive && !technician.deleted
       && forall skill | skill in c.serviceTypes[i.serviceType].requiredSkills :: skill in technician.skills
  }

  predicate Equipped(c: Catalog, i: BookingInput)
    requires i.serviceType in c.serviceTypes
  {
    && i.bay in c.bays
    && var bay := c.bays[i.bay];
       && bay.dealership == i.dealership && bay.isActive && !bay.deleted
       && forall capability | capability in c.serviceTypes[i.serviceType].requiredCapabilities :: capability in bay.capabilities
  }

  // A live shift of the technician that the calendar of some date shows around the
  // interval.
  ghost predicate ShownOnCalendar(shifts: Shifts, technician: Id, startsAt: Instant, endsAt: Instant, offset: int) {
    exists shift, date ::
      && shift in shifts && !shifts[shift].deleted && shifts[shift].technician == technician
      && InCalendarShift(shifts[shift].window, date, startsAt, endsAt, offset)
  }

  predicate Away(timeOff: TimeOffs, technician: Id, startsAt: Instant, endsAt: Instant) {
    exists off | off in timeOff ::
      && !timeOff[off].deleted && timeOff[off].technician == technician
      && timeOff[off].startsAt < endsAt && startsAt < timeOff[off].endsAt
  }

  ghost predicate OnDuty(s: Store, i: BookingInput)
    requires i.dealership in s.catalog.dealerships && i.serviceType in s.catalog.serviceTypes
  {
    && ShownOnCalendar(s.shifts, i.technician, i.startsAt, Finish(s.catalog, i), s.catalog.dealerships[i.dealership].offset)
    && !Away(s.timeOff, i.technician, i.startsAt, Finish(s.catalog, i))
  }

  predicate Ended(b: Booking) {
    b.row.status.Completed? || b.row.status.Cancelled?
  }

  // No booking that has not ended has the technician or the bay at that time.
  predicate Unclaimed(bookings: Bookings, technician: Id, bay: Id, startsAt: Instant, endsAt: Instant) {
    forall id | id in bookings && !Ended(bookings[id]) && (bookings[id].technician == technician || bookings[id].bay == bay) ::
      bookings[id].row.endsAt <= startsAt || endsAt <= bookings[id].row.startsAt
  }

  ghost predicate Bookable(s: Store, i: BookingInput) {
    && Complete(i)
    && Offered(s.catalog, i)
    && DurationFits(s.catalog, i)
    && i.startsAt < Finish(s.catalog, i)
    && BringsOwnVehicle(s, i)
    && WhileOpen(s.catalog, i)
    && Skilled(s.catalog, i)
    && Equipped(s.catalog, i)
    && OnDuty(s, i)
    && Unclaimed(s.bookings, i.technician, i.bay, i.startsAt, Finish(s.catalog, i))
  }

  predicate FreshKeys(s: Store, i: BookingInput) {
    && i.id !in s.bookings
    && (forall id | id in s.bookings :: s.bookings[id].referenceCode != i.referenceCode)
    && i.technicianReservation != i.bayReservation
    && i.technicianReservation !in s.reservations
    && i.bayReservation !in s.reservations
  }

  // A live shift whose weekday and clock times hold the interval.
  predicate WorksThen(shifts: Shifts, technician: Id, startsAt: Instant, endsAt: Instant, offset: int) {
    exists shift | shift in shifts ::
      !shifts[shift].deleted && shifts[shift].technician == technician && InWindow(shifts[shift].window, startsAt, endsAt, offset)
  }

  lemma WorksThenIsShown(shifts: Shifts, technician: Id, startsAt: Instant, endsAt: Instant, offset: int)
    requires ShiftsSound(shifts) && startsAt < endsAt
    ensures WorksThen(shifts, technician, startsAt, endsAt, offset) <==> ShownOnCalendar(shifts, technician, startsAt, endsAt, offset)
  {
    forall shift | shift in shifts
      ensures InWindow(shifts[shift].window, startsAt, endsAt, offset) <==>
              exists date :: InCalendarShift(shifts[shift].window, date, startsAt, endsAt, offset)
    {
      BookingTestIsCalendarShift(shifts[shift].window, startsAt, endsAt, offset);
    }
  }

  // The first thing a booking lacks, in the order in which a caller learns of it.
  function FirstMissing(s: Store, i: BookingInput): Option<Error> {
    if !Complete(i) then Some(InvalidInput)
    else if !Offered(s.catalog, i) then Some(NotFound)
    else if !DurationFits(s.catalog, i) then Some(InvalidInput)
    else if !BringsOwnVehicle(s, i) then Some(InvalidCustomerVehicle)
    else if !WhileOpen(s.catalog, i) then Some(OutsideOpeningHours)
    else if !Skilled(s.catalog, i) then Some(IncompatibleTechnician)
    else if !Equipped(s.catalog, i) then Some(IncompatibleBay)
    else
      var endsAt, offset := Finish(s.catalog, i), s.catalog.dealerships[i.dealership].offset;
      if !WorksThen(s.shifts, i.technician, i.startsAt, endsAt, offset) || Away(s.timeOff, i.technician, i.startsAt, endsAt)
      then Some(OutsideTechnicianSchedule)
      else None
  }

  // What a booking request is answered while the invariant holds, whatever its keys.
  function BookingAnswer(s: Store, i: BookingInput): Option<Error> {
    if FirstMissing(s, i).Some? then FirstMissing(s, i)
    else
      var endsAt := Finish(s.catalog, i);
      if endsAt <= i.startsAt then Some(ConstraintViolation)
      else if i.id in s.bookings || exists id | id in s.bookings :: s.bookings[id].referenceCode == i.referenceCode then
        Some(ConstraintViolation)
      else if !Unclaimed(s.bookings, i.technician, i.bay, i.startsAt, endsAt) then Some(Unavailable)
      else if !FreshKeys(s, i) then Some(ConstraintViolation)
      else None
  }

  // The technician's new reservation never blocks the bay's.
  lemma OtherKindNeverConflicts(reservations: Reservations, key: Id, r: Reservation, kind: Kind, resource: Id, startsAt: Instant, endsAt: Instant)
    requires key !in reservations && r.kind != kind
    ensures ReservationConflict(reservations[key := r], kind, resource, startsAt, endsAt)
            <==> ReservationConflict(reservations, kind, resource, startsAt, endsAt)
  {
    if ReservationConflict(reservations, kind, resource, startsAt, endsAt) {
      var q :| q in reservations && Takes(reservations[q], kind, resource, startsAt, endsAt);
      assert reservations[key := r][q] == reservations[q];
    }
  }

  lemma ChecksFindFirstMissing(s: Store, i: BookingInput)
    ensures FirstMissing(s, i).Some? <==> CheckBooking(s, i).Err?
    ensures FirstMissing(s, i).Some? ==> CheckBooking(s, i).error == FirstMissing(s, i).value
    ensures FirstMissing(s, i).None? ==>
              i.serviceType in s.catalog.serviceTypes && CheckBooking(s, i).value == NewBooking(i, Minutes(s.catalog, i), s.clock)
  {
  }

  lemma UnclaimedIsFree(bookings: Bookings, technician: Id, bay: Id, startsAt: Instant, endsAt: Instant)
    ensures Unclaimed(bookings, technician, bay, startsAt, endsAt) <==>
      && !ActiveOverlap(bookings, TechnicianResource, technician, startsAt, endsAt, None)
      && !ActiveOverlap(bookings, BayResource, bay, startsAt, endsAt, None)
  {
  }

  lemma BookableIff(s: Store, i: BookingInput)
    requires ShiftsSound(s.shifts)
    ensures Bookable(s, i) && FreshKeys(s, i) <==> BookingAnswer(s, i).None?
  {
    if FirstMissing(s, i).None? || Bookable(s, i) {
      var endsAt, offset := Finish(s.catalog, i), s.catalog.dealerships[i.dealership].offset;
      if i.startsAt < endsAt {
        WorksThenIsShown(s.shifts, i.technician, i.startsAt, endsAt, offset);
      }
    }
  }

  lemma NothingMissing(s: Store, i: BookingInput)
    requires DurationsOrdered(s.catalog) && FirstMissing(s, i).None?
    ensures Minutes(s.catalog, i) > 0
    ensures !OnTimeOff(s.timeOff, i.technician, i.startsAt, Finish(s.catalog, i))
  {
  }

  // The answer is exactly that: each check says what it means, and neither the
  // reservation ledger nor any constraint refuses more.
  lemma BookingAnswered(s: Store, i: BookingInput)
    requires Linked(s.bookings, s.reservations) && DurationsOrdered(s.catalog)
    ensures Schedule(s, i).1 == BookingAnswer(s, i)
  {
    ChecksFindFirstMissing(s, i);
    hide CheckBooking, FirstMissing;
    if FirstMissing(s, i).None? {
      NothingMissing(s, i);
      hide Linked, DurationsOrdered, Unclaimed, ActiveOverlap, ReservationConflict, OnTimeOff, Minutes, EndOf;
      var endsAt := Finish(s.catalog, i);
      var b := NewBooking(i, Minutes(s.catalog, i), s.clock);
      UnclaimedIsFree(s.bookings, i.technician, i.bay, i.startsAt, endsAt);
      LinkedGuardsAgree(s.bookings, s.reservations, TechnicianResource, i.technician, i.startsAt, endsAt);
      LinkedGuardsAgree(s.bookings, s.reservations, BayResource, i.bay, i.startsAt, endsAt);
      if i.technicianReservation !in s.reservations {
        OtherKindNeverConflicts(s.reservations, i.technicianReservation, NewReservation(i.id, b, TechnicianResource),
                                BayResource, i.bay, i.startsAt, endsAt);
      }
    }
    hide Linked, DurationsOrdered, Unclaimed, ActiveOverlap, ReservationConflict, OnTimeOff, Minutes, EndOf;
  }

  // While the invariant holds a booking with unused keys succeeds exactly when it is
  // bookable: the reservation ledger never refuses what the lists allow.
  lemma BookingSucceedsIff(s: Store, i: BookingInput, now: Instant)
    requires Inv(s) && FreshKeys(s, i)
    ensures Step(s, ScheduleRequest(i), now).1.None? <==> Bookable(s, i)
  {
    assert DurationsOrdered(s.catalog);
    BookingSucceedsIffAt(s.(clock := now), i);
    assert Bookable(s, i) <==> Bookable(s.(clock := now), i);
  }

  lemma BookingSucceedsIffAt(s: Store, i: BookingInput)
    requires Linked(s.bookings, s.reservations) && ShiftsSound(s.shifts) && DurationsOrdered(s.catalog) && FreshKeys(s, i)
    ensures Schedule(s, i).1.None? <==> Bookable(s, i)
  {
    BookingAnswered(s, i);
    BookableIff(s, i);
    hide Schedule, BookingAnswer, Bookable;
  }

  // So the bay of a booking that can be made is on the list its customer picks from.
  lemma BookableBayIsListed(s: Store, i: BookingInput)
    requires Bookable(s, i)
    ensures i.bay in AvailableBays(s, i.dealership, i.serviceType, i.startsAt, Finish(s.catalog, i))
  {
    UnclaimedIsFree(s.bookings, i.technician, i.bay, i.startsAt, Finish(s.catalog, i));
  }

  // The end is the start plus the planned minutes exactly while the int64
  // nanosecond product does not wrap.
  lemma EndIsPlannedIff(startsAt: Instant, minutes: int)
    requires 0 < minutes < 0x8000_0000
    ensures EndOf(startsAt, minutes) == startsAt + minutes * MICROS_PER_MINUTE <==> minutes <= 153_722_867
  {
  }
}
