/**
 What each request does to the tables. Every request is one atomic step: it
 either returns an error and leaves the tables alone or commits all its writes.
 */
module Ledger {
  import opened Integers
  import opened Outcomes
  import opened LocalClock
  import opened Lifecycle
  import opened Tables

  datatype Error =
    | InvalidInput
    | NotFound
    | InvalidCustomerVehicle
    | OutsideOpeningHours
    | IncompatibleTechnician
    | IncompatibleBay
    | OutsideTechnicianSchedule
    | Unavailable // ErrAppointmentUnavailable: an exclusion violation while booking
    | ConstraintViolation // any other PostgreSQL error, passed through
    | BadTransition(reason: LifecycleError)
    | ShiftOverlaps
    | ShiftChangeConflict
    | TimeOffOverlaps
    | TimeOffAppointmentConflict
    | VehicleForbidden
    | VehicleVinTaken
    | InUse

  datatype BookingInput = BookingInput(
    id: Id, referenceCode: string,
    customer: Id, vehicle: Id, dealership: Id, serviceType: Id, technician: Id, bay: Id,
    createdBy: Id,
    startsAt: Instant,
    planned: Option<int>,
    notes: Option<string>,
    technicianReservation: Id,
    bayReservation: Id)

  // ----- booking -----

  // StartsAt.Add(time.Duration(minutes) * time.Minute), stored in microseconds;
  // the product is an int64 count of nanoseconds.
  function EndOf(startsAt: Instant, minutes: int): Instant {
    startsAt + Wrap64(minutes * NANOS_PER_MINUTE) / NANOS_PER_MICRO
  }

  // Zero stands for "not given" and is replaced by the longest allowed duration.
  function PlanMinutes(requested: int, min: int, max: int): Result<int, Error> {
    var minutes := if requested == 0 then max else requested;
    if minutes < min || minutes > max then Err(InvalidInput) else Ok(minutes)
  }

  function NewBooking(i: BookingInput, minutes: int, now: Instant): Booking {
    Booking(i.referenceCode, i.customer, i.vehicle, i.dealership, i.serviceType, i.technician, i.bay,
            minutes, i.createdBy, now, NewRow(i.startsAt, EndOf(i.startsAt, minutes), i.notes, now))
  }

  // The checks of the application service and of the transaction, in order.
  function CheckBooking(s: Store, i: BookingInput): Result<Booking, Error> {
    if i.customer == 0 || i.vehicle == 0 || i.serviceType == 0 || i.technician == 0 || i.bay == 0 then Err(InvalidInput)
    else if i.planned.Some? && i.planned.value <= 0 then Err(InvalidInput)
    else if !ActiveDealership(s.catalog, i.dealership) then Err(NotFound)
    else if !ActiveServiceType(s.catalog, i.serviceType, i.dealership) then Err(NotFound)
    else
      var t := s.catalog.serviceTypes[i.serviceType];
      var plan := PlanMinutes(i.planned.GetOr(0), t.minMinutes, t.maxMinutes);
      if plan.Err? then Err(plan.error)
      else
        var endsAt := EndOf(i.startsAt, plan.value);
        if !CustomerVehicle(s.vehicles, s.owners, i.vehicle, i.customer, i.dealership) then Err(InvalidCustomerVehicle)
        else if !WithinOpeningHours(s.catalog, i.dealership, i.startsAt, endsAt) then Err(OutsideOpeningHours)
        else if !CompatibleTechnician(s.catalog, i.technician, i.dealership, t.requiredSkills) then Err(IncompatibleTechnician)
        else if !CompatibleBay(s.catalog, i.bay, i.dealership, t.requiredCapabilities) then Err(IncompatibleBay)
        else if !OnShift(s.shifts, i.technician, i.startsAt, endsAt, Offset(s.catalog, i.dealership))
                || OnTimeOff(s.timeOff, i.technician, i.startsAt, endsAt) then Err(OutsideTechnicianSchedule)
        else Ok(NewBooking(i, plan.value, s.clock))
  }

  // INSERT INTO appointments: the time-off trigger, the CHECK constraints, the
  // unique keys and the two exclusion constraints.
  function InsertBooking(s: Store, id: Id, b: Booking): Result<Store, Error> {
    if IsActive(b) && OnTimeOff(s.timeOff, b.technician, b.row.startsAt, b.row.endsAt) then Err(Unavailable)
    else if b.row.endsAt <= b.row.startsAt || b.plannedMinutes <= 0 then Err(ConstraintViolation)
    else if id in s.bookings || ReferenceTaken(s.bookings, b.referenceCode) then Err(ConstraintViolation)
    else if ActiveOverlap(s.bookings, TechnicianResource, b.technician, b.row.startsAt, b.row.endsAt, None) then Err(Unavailable)
    else if ActiveOverlap(s.bookings, BayResource, b.bay, b.row.startsAt, b.row.endsAt, None) then Err(Unavailable)
    else Ok(s.(bookings := s.bookings[id := b]))
  }

  function NewReservation(id: Id, b: Booking, kind: Kind): Reservation {
    Reservation(id, kind, Resource(b, kind), b.row.startsAt, b.row.endsAt, Requested, b.createdAt, b.createdBy, None)
  }

  // INSERT INTO appointment_resource_reservations
  function InsertReservation(reservations: Reservations, key: Id, r: Reservation): Result<Reservations, Error> {
    if r.endsAt <= r.startsAt || key in reservations then Err(ConstraintViolation)
    else if ReservationConflict(reservations, r.kind, r.resource, r.startsAt, r.endsAt) then Err(Unavailable)
    else Ok(reservations[key := r])
  }

  function Schedule(s: Store, i: BookingInput): (Store, Option<Error>) {
    match CheckBooking(s, i)
    case Err(e) => (s, Some(e))
    case Ok(b) =>
      match InsertBooking(s, i.id, b)
      case Err(e) => (s, Some(e))
      case Ok(booked) =>
        match InsertReservation(s.reservations, i.technicianReservation, NewReservation(i.id, b, TechnicianResource))
        case Err(e) => (s, Some(e))
        case Ok(first) =>
          match InsertReservation(first, i.bayReservation, NewReservation(i.id, b, BayResource))
          case Err(e) => (s, Some(e))
          case Ok(both) =>
            var event := Created(i.id, i.createdBy, b.row.startsAt, b.row.endsAt, s.clock);
            (booked.(reservations := both, audit := s.audit + [event]), None)
  }

  // ----- lifecycle -----

  // UPDATE ... SET released_at, status WHERE appointment_id = id AND released_at IS NULL
  function Release(reservations: Reservations, id: Id, status: Status, now: Instant): Reservations {
    map r | r in reservations ::
      if reservations[r].booking == id && reservations[r].releasedAt.None?
      then reservations[r].(releasedAt := Some(now), status := status)
      else reservations[r]
  }

  // The constraints and the trigger that an UPDATE of the status re-evaluates.
  predicate UpdateRejected(s: Store, id: Id, b: Booking) {
    || (IsActive(b) && OnTimeOff(s.timeOff, b.technician, b.row.startsAt, b.row.endsAt))
    || (b.row.status.Cancelled? && b.row.cancellationReason.None?)
    || (IsActive(b) && ActiveOverlap(s.bookings, TechnicianResource, b.technician, b.row.startsAt, b.row.endsAt, Some(id)))
    || (IsActive(b) && ActiveOverlap(s.bookings, BayResource, b.bay, b.row.startsAt, b.row.endsAt, Some(id)))
  }

  function StatusEvent(id: Id, before: Row, after: Row, t: Transition): AuditEvent {
    StatusChanged(id, t.actor, before.status, before.notes, after.status, after.notes,
                  if t.to.Completed? then Some(ActualEnd(t)) else t.actualEndsAt, t.reason, t.occurredAt)
  }

  function Change(s: Store, id: Id, dealership: Id, t: Transition): (Store, Option<Error>) {
    if id == 0 then (s, Some(InvalidInput))
    else if Guard(t).Some? then (s, Some(BadTransition(Guard(t).value)))
    else if id !in s.bookings || s.bookings[id].dealership != dealership then (s, Some(NotFound))
    else
      var before := s.bookings[id];
      match Rewrite(before.row, t)
      case Err(e) => (s, Some(BadTransition(e)))
      case Ok(row) =>
        var changed := before.(row := row);
        if UpdateRejected(s, id, changed) then (s, Some(ConstraintViolation))
        else
          var reservations :=
            if t.to.Completed? || t.to.Cancelled? then Release(s.reservations, id, t.to, t.occurredAt) else s.reservations;
          (s.(bookings := s.bookings[id := changed],
              reservations := reservations,
              audit := s.audit + [StatusEvent(id, before.row, row, t)]), None)
  }

  // ----- technician shifts -----

  // GetTechnicianForDealership
  predicate KnownTechnician(c: Catalog, technician: Id, dealership: Id) {
    && technician in c.technicians
    && c.technicians[technician].dealership == dealership
    && !c.technicians[technician].deleted
  }

  // The three shift use cases also ask for an active technician.
  predicate ActiveTechnician(c: Catalog, technician: Id, dealership: Id) {
    KnownTechnician(c, technician, dealership) && c.technicians[technician].isActive
  }

  function CreateShift(s: Store, dealership: Id, technician: Id, shift: Id, w: Window): (Store, Option<Error>) {
    if !ActiveTechnician(s.catalog, technician, dealership) then (s, Some(NotFound))
    else if shift == 0 || !ValidWindow(w) then (s, Some(InvalidInput))
    else if shift in s.shifts then (s, Some(ConstraintViolation))
    else if ShiftConflict(s.shifts, technician, w, shift) then (s, Some(ShiftOverlaps))
    else (s.(shifts := s.shifts[shift := Shift(technician, w, false)]), None)
  }

  datatype ShiftPatch = ShiftPatch(dayOfWeek: Option<int>, startsAt: Option<int>, endsAt: Option<int>)

  function Patched(w: Window, p: ShiftPatch): Window {
    Window(p.dayOfWeek.GetOr(w.dayOfWeek), p.startsAt.GetOr(w.startsAt), p.endsAt.GetOr(w.endsAt))
  }

  function UpdateShift(s: Store, dealership: Id, technician: Id, shift: Id, p: ShiftPatch): (Store, Option<Error>) {
    if !ActiveTechnician(s.catalog, technician, dealership) then (s, Some(NotFound))
    else if !LiveShiftOf(s.shifts, shift, technician) then (s, Some(NotFound))
    else
      var candidate := Patched(s.shifts[shift].window, p);
      if !ValidWindow(candidate) then (s, Some(InvalidInput))
      else if UncoveredBooking(s, technician, candidate, shift) then (s, Some(ShiftChangeConflict))
      else if ShiftConflict(s.shifts, technician, candidate, shift) then (s, Some(ShiftOverlaps))
      else (s.(shifts := s.shifts[shift := Shift(technician, candidate, false)]), None)
  }

  // domain.TechnicianShift{}, the candidate a deletion passes
  const NO_SHIFT := Window(0, 0, 0)

  function DeleteShift(s: Store, dealership: Id, technician: Id, shift: Id): (Store, Option<Error>) {
    if !ActiveTechnician(s.catalog, technician, dealership) then (s, Some(NotFound))
    else if !LiveShiftOf(s.shifts, shift, technician) then (s, Some(NotFound))
    else if UncoveredBooking(s, technician, NO_SHIFT, shift) then (s, Some(ShiftChangeConflict))
    else (s.(shifts := s.shifts[shift := s.shifts[shift].(deleted := true)]), None)
  }

  // ----- technician time off -----

  function CreateTimeOff(s: Store, dealership: Id, technician: Id, timeOff: Id, startsAt: Instant, endsAt: Instant)
    : (Store, Option<Error>)
  {
    if !KnownTechnician(s.catalog, technician, dealership) then (s, Some(NotFound))
    else if timeOff == 0 || endsAt <= startsAt then (s, Some(InvalidInput))
    else if ActiveOverlap(s.bookings, TechnicianResource, technician, startsAt, endsAt, None) then (s, Some(TimeOffAppointmentConflict))
    else if timeOff in s.timeOff then (s, Some(ConstraintViolation))
    else if TimeOffConflict(s.timeOff, technician, startsAt, endsAt, timeOff) then (s, Some(TimeOffOverlaps))
    else (s.(timeOff := s.timeOff[timeOff := TimeOff(technician, startsAt, endsAt, false)]), None)
  }

  function UpdateTimeOff(
    s: Store, dealership: Id, technician: Id, timeOff: Id, newStart: Option<Instant>, newEnd: Option<Instant>)
    : (Store, Option<Error>)
  {
    if !KnownTechnician(s.catalog, technician, dealership) then (s, Some(NotFound))
    else if !LiveTimeOffOf(s.timeOff, timeOff, technician) then (s, Some(NotFound))
    else
      var startsAt := newStart.GetOr(s.timeOff[timeOff].startsAt);
      var endsAt := newEnd.GetOr(s.timeOff[timeOff].endsAt);
      if endsAt <= startsAt then (s, Some(InvalidInput))
      else if ActiveOverlap(s.bookings, TechnicianResource, technician, startsAt, endsAt, None) then (s, Some(TimeOffAppointmentConflict))
      else if TimeOffConflict(s.timeOff, technician, startsAt, endsAt, timeOff) then (s, Some(TimeOffOverlaps))
      else (s.(timeOff := s.timeOff[timeOff := TimeOff(technician, startsAt, endsAt, false)]), None)
  }

  function DeleteTimeOff(s: Store, dealership: Id, technician: Id, timeOff: Id): (Store, Option<Error>) {
    if !KnownTechnician(s.catalog, technician, dealership) then (s, Some(NotFound))
    else if !LiveTimeOffOf(s.timeOff, timeOff, technician) then (s, Some(NotFound))
    else (s.(timeOff := s.timeOff[timeOff := s.timeOff[timeOff].(deleted := true)]), None)
  }

  // ----- customers and vehicles -----

  // ClaimCustomerDealership: INSERT ... ON CONFLICT DO NOTHING
  function Claim(owners: Owners, customer: Id, dealership: Id): Owners {
    if customer in owners then owners else owners[customer := dealership]
  }

  function CreateVehicle(s: Store, dealership: Id, vehicle: Id, customer: Id, vin: Option<string>): (Store, Option<Error>) {
    if customer !in s.customers then (s, Some(NotFound))
    else
      var owners := Claim(s.owners, customer, dealership);
      if owners[customer] != dealership then (s, Some(VehicleForbidden))
      else if vehicle in s.vehicles then (s, Some(ConstraintViolation))
      else if VinTaken(s.vehicles, vin, None) then (s, Some(VehicleVinTaken))
      else (s.(owners := owners, vehicles := s.vehicles[vehicle := Vehicle(customer, vin, false)]), None)
  }

  function UpdateVehicle(s: Store, vehicle: Id, vin: Option<string>): (Store, Option<Error>) {
    if vehicle !in s.vehicles || s.vehicles[vehicle].deleted then (s, Some(NotFound))
    else if VinTaken(s.vehicles, vin, Some(vehicle)) then (s, Some(VehicleVinTaken))
    else (s.(vehicles := s.vehicles[vehicle := s.vehicles[vehicle].(vin := vin)]), None)
  }

  function DeleteVehicle(s: Store, vehicle: Id): (Store, Option<Error>) {
    if vehicle !in s.vehicles || s.vehicles[vehicle].deleted then (s, Some(NotFound))
    else (s.(vehicles := s.vehicles[vehicle := s.vehicles[vehicle].(deleted := true)]), None)
  }

  // ----- bays and service types -----

  function DeleteBay(s: Store, dealership: Id, bay: Id): (Store, Option<Error>) {
    if bay !in s.catalog.bays || s.catalog.bays[bay].dealership != dealership || s.catalog.bays[bay].deleted then
      (s, Some(NotFound))
    else if BayReferenced(s.bookings, bay) then (s, Some(InUse))
    else (s.(catalog := s.catalog.(bays := s.catalog.bays[bay := s.catalog.bays[bay].(deleted := true)])), None)
  }

  function DeleteServiceType(s: Store, dealership: Id, serviceType: Id): (Store, Option<Error>) {
    if serviceType !in s.catalog.serviceTypes || s.catalog.serviceTypes[serviceType].dealership != dealership
       || s.catalog.serviceTypes[serviceType].deleted then (s, Some(NotFound))
    else if ServiceTypeReferenced(s.bookings, serviceType) then (s, Some(InUse))
    else
      var t := s.catalog.serviceTypes[serviceType].(deleted := true);
      (s.(catalog := s.catalog.(serviceTypes := s.catalog.serviceTypes[serviceType := t])), None)
  }

  // What catalogue administration may do besides the two deletions above: add
  // rows and edit any column except a dealership's timezone, the dealership a row
  // belongs to and a bay's or service type's deletion mark.
  ghost predicate Extends(c: Catalog, d: Catalog) {
    && (forall x | x in c.dealerships :: x in d.dealerships && d.dealerships[x].offset == c.dealerships[x].offset)
    && (forall x | x in c.technicians :: x in d.technicians && d.technicians[x].dealership == c.technicians[x].dealership)
    && (forall x | x in c.bays ::
          && x in d.bays
          && d.bays[x].dealership == c.bays[x].dealership
          && d.bays[x].deleted == c.bays[x].deleted)
    && (forall x | x in c.serviceTypes ::
          && x in d.serviceTypes
          && d.serviceTypes[x].dealership == c.serviceTypes[x].dealership
          && d.serviceTypes[x].deleted == c.serviceTypes[x].deleted)
    && DurationsOrdered(d)
  }

  // domain.ServiceType: 0 < min <= max, in an int32 column
  predicate DurationsOrdered(c: Catalog) {
    forall x | x in c.serviceTypes ::
      0 < c.serviceTypes[x].minMinutes <= c.serviceTypes[x].maxMinutes < 0x8000_0000
  }

  // ----- requests -----

  // A handler's transition request, before the service stamps it with the time.
  datatype ChangeInput = ChangeInput(
    id: Id, dealership: Id, from: Option<Status>, to: Status, actor: Id,
    actualEndsAt: Option<Instant>, reason: Option<string>, note: Option<string>)

  function Stamp(c: ChangeInput, now: Instant): Transition {
    Transition(c.from, c.to, c.actor, now, c.actualEndsAt, c.reason, c.note)
  }

  datatype Request =
    | ScheduleRequest(input: BookingInput)
    | ChangeRequest(change: ChangeInput)
    | CreateShiftRequest(dealership: Id, technician: Id, shift: Id, window: Window)
    | UpdateShiftRequest(dealership: Id, technician: Id, shift: Id, patch: ShiftPatch)
    | DeleteShiftRequest(dealership: Id, technician: Id, shift: Id)
    | CreateTimeOffRequest(dealership: Id, technician: Id, timeOff: Id, startsAt: Instant, endsAt: Instant)
    | UpdateTimeOffRequest(dealership: Id, technician: Id, timeOff: Id, newStart: Option<Instant>, newEnd: Option<Instant>)
    | DeleteTimeOffRequest(dealership: Id, technician: Id, timeOff: Id)
    | CreateCustomerRequest(customer: Id)
    | CreateVehicleRequest(dealership: Id, vehicle: Id, customer: Id, vin: Option<string>)
    | UpdateVehicleRequest(vehicle: Id, vin: Option<string>)
    | DeleteVehicleRequest(vehicle: Id)
    | DeleteBayRequest(dealership: Id, bay: Id)
    | DeleteServiceTypeRequest(dealership: Id, serviceType: Id)
    | ConfigureRequest(catalog: Catalog)

  // One request served at time `now`.
  function Step(s: Store, q: Request, now: Instant): (Store, Option<Error>) {
    var t := s.(clock := now);
    match q
    case ScheduleRequest(i) => Schedule(t, i)
    case ChangeRequest(c) => Change(t, c.id, c.dealership, Stamp(c, now))
    case CreateShiftRequest(d, tech, shift, w) => CreateShift(t, d, tech, shift, w)
    case UpdateShiftRequest(d, tech, shift, p) => UpdateShift(t, d, tech, shift, p)
    case DeleteShiftRequest(d, tech, shift) => DeleteShift(t, d, tech, shift)
    case CreateTimeOffRequest(d, tech, off, st, en) => CreateTimeOff(t, d, tech, off, st, en)
    case UpdateTimeOffRequest(d, tech, off, st, en) => UpdateTimeOff(t, d, tech, off, st, en)
    case DeleteTimeOffRequest(d, tech, off) => DeleteTimeOff(t, d, tech, off)
    case CreateCustomerRequest(c) => (t.(customers := t.customers + {c}), None)
    case CreateVehicleRequest(d, v, c, vin) => CreateVehicle(t, d, v, c, vin)
    case UpdateVehicleRequest(v, vin) => UpdateVehicle(t, v, vin)
    case DeleteVehicleRequest(v) => DeleteVehicle(t, v)
    case DeleteBayRequest(d, b) => DeleteBay(t, d, b)
    case DeleteServiceTypeRequest(d, x) => DeleteServiceType(t, d, x)
    case ConfigureRequest(c) => (t.(catalog := c), None)
  }

  // Requests the HTTP handlers can send in state s: lifecycle requests carry a
  // handler's pair, administration edits the catalogue within its limits.
  ghost predicate Admissible(s: Store, q: Request) {
    match q
    case ChangeRequest(c) => HandlerPair(c.from, c.to)
    case ConfigureRequest(c) => Extends(s.catalog, c)
    case _ => true
  }
}
