/**
 The scheduler's PostgreSQL tables as one immutable snapshot, and the SQL
 predicates that the booking engine evaluates on them. Soft-deleted rows stay in
 their table with `deleted` set.
 */
module Tables {
  import opened Outcomes
  import opened LocalClock
  import opened Lifecycle

  datatype Dealership = Dealership(offset: int, isActive: bool, deleted: bool)

  datatype OpeningHours = OpeningHours(dealership: Id, window: Window)

  // The technicians row joined with its users row.
  datatype Technician = Technician(dealership: Id, isActive: bool, deleted: bool, skills: set<Id>)

  datatype Bay = Bay(dealership: Id, isActive: bool, deleted: bool, capabilities: set<Id>)

  datatype ServiceType = ServiceType(
    dealership: Id, minMinutes: int, maxMinutes: int, isActive: bool, deleted: bool,
    requiredSkills: set<Id>, requiredCapabilities: set<Id>)

  datatype Catalog = Catalog(
    dealerships: map<Id, Dealership>,
    openingHours: set<OpeningHours>,
    technicians: map<Id, Technician>,
    bays: map<Id, Bay>,
    serviceTypes: map<Id, ServiceType>)

  datatype Shift = Shift(technician: Id, window: Window, deleted: bool)

  datatype TimeOff = TimeOff(technician: Id, startsAt: Instant, endsAt: Instant, deleted: bool)

  datatype Vehicle = Vehicle(customer: Id, vin: Option<string>, deleted: bool)

  // One appointments row; `row` holds the columns the lifecycle rewrites.
  datatype Booking = Booking(
    referenceCode: string,
    customer: Id, vehicle: Id, dealership: Id, serviceType: Id, technician: Id, bay: Id,
    plannedMinutes: int,
    createdBy: Id,
    createdAt: Instant,
    row: Row)

  datatype Kind = TechnicianResource | BayResource

  datatype Reservation = Reservation(
    booking: Id, kind: Kind, resource: Id,
    startsAt: Instant, endsAt: Instant,
    status: Status,
    assignedAt: Instant, assignedBy: Id,
    releasedAt: Option<Instant>)

  datatype AuditEvent =
    | Created(booking: Id, actor: Id, startsAt: Instant, endsAt: Instant, occurredAt: Instant)
    | StatusChanged(
        booking: Id, actor: Id,
        beforeStatus: Status, beforeNotes: Option<string>,
        afterStatus: Status, afterNotes: Option<string>,
        actualEndsAt: Option<Instant>, reason: Option<string>,
        occurredAt: Instant)

  type Owners = map<Id, Id> // customer_dealerships: customer -> dealership
  type Vehicles = map<Id, Vehicle>
  type Shifts = map<Id, Shift>
  type TimeOffs = map<Id, TimeOff>
  type Bookings = map<Id, Booking>
  type Reservations = map<Id, Reservation>

  datatype Store = Store(
    catalog: Catalog,
    customers: set<Id>,
    owners: Owners,
    vehicles: Vehicles,
    shifts: Shifts,
    timeOff: TimeOffs,
    bookings: Bookings,
    reservations: Reservations,
    audit: seq<AuditEvent>, // in insertion order
    clock: Instant) // the time at which the current request is served

  // Freshly migrated tables.
  const EMPTY := Store(Catalog(map[], {}, map[], map[], map[]), {}, map[], map[], map[], map[], map[], map[], [], 0)

  // ----- rows -----

  predicate IsActive(b: Booking) {
    Active(b.row.status)
  }

  predicate BookingOverlaps(b: Booking, startsAt: Instant, endsAt: Instant) {
    Overlaps(b.row.startsAt, b.row.endsAt, startsAt, endsAt)
  }

  function Resource(b: Booking, kind: Kind): Id {
    match kind
    case TechnicianResource => b.technician
    case BayResource => b.bay
  }

  function Offset(catalog: Catalog, dealership: Id): int {
    if dealership in catalog.dealerships then catalog.dealerships[dealership].offset else 0
  }

  // ----- SQL predicates -----

  predicate ActiveDealership(c: Catalog, dealership: Id) {
    && dealership in c.dealerships
    && c.dealerships[dealership].isActive
    && !c.dealerships[dealership].deleted
  }

  predicate ActiveServiceType(c: Catalog, serviceType: Id, dealership: Id) {
    && serviceType in c.serviceTypes
    && var t := c.serviceTypes[serviceType]; t.dealership == dealership && t.isActive && !t.deleted
  }

  // CustomerVehicleBelongsToDealership
  predicate CustomerVehicle(vehicles: Vehicles, owners: Owners, vehicle: Id, customer: Id, dealership: Id) {
    && vehicle in vehicles
    && vehicles[vehicle].customer == customer
    && !vehicles[vehicle].deleted
    && customer in owners
    && owners[customer] == dealership
  }

  // IsWithinDealershipOperatingHours
  predicate WithinOpeningHours(c: Catalog, dealership: Id, startsAt: Instant, endsAt: Instant) {
    exists h | h in c.openingHours ::
      h.dealership == dealership && InWindow(h.window, startsAt, endsAt, Offset(c, dealership))
  }

  // IsCompatibleTechnician
  predicate CompatibleTechnician(c: Catalog, technician: Id, dealership: Id, required: set<Id>) {
    && technician in c.technicians
    && var t := c.technicians[technician];
       t.dealership == dealership && t.isActive && !t.deleted && required <= t.skills
  }

  // IsCompatibleServiceBay
  predicate CompatibleBay(c: Catalog, bay: Id, dealership: Id, required: set<Id>) {
    && bay in c.bays
    && var b := c.bays[bay];
       b.dealership == dealership && b.isActive && !b.deleted && required <= b.capabilities
  }

  function RequiredCapabilities(c: Catalog, serviceType: Id): set<Id> {
    if serviceType in c.serviceTypes then c.serviceTypes[serviceType].requiredCapabilities else {}
  }

  // The two halves of IsTechnicianAvailableForAppointment.
  predicate LiveShiftOf(shifts: Shifts, shift: Id, technician: Id) {
    shift in shifts && !shifts[shift].deleted && shifts[shift].technician == technician
  }

  predicate OnShift(shifts: Shifts, technician: Id, startsAt: Instant, endsAt: Instant, offset: int) {
    exists shift | shift in shifts ::
      LiveShiftOf(shifts, shift, technician) && InWindow(shifts[shift].window, startsAt, endsAt, offset)
  }

  predicate LiveTimeOffOf(timeOff: TimeOffs, id: Id, technician: Id) {
    id in timeOff && !timeOff[id].deleted && timeOff[id].technician == technician
  }

  predicate OnTimeOff(timeOff: TimeOffs, technician: Id, startsAt: Instant, endsAt: Instant) {
    exists id | id in timeOff ::
      LiveTimeOffOf(timeOff, id, technician) && Overlaps(timeOff[id].startsAt, timeOff[id].endsAt, startsAt, endsAt)
  }

  // HasActiveAppointmentOverlap, and the appointments_no_technician_overlap and
  // appointments_no_service_bay_overlap constraints on a row other than `except`.
  predicate ActiveOverlap(bookings: Bookings, kind: Kind, resource: Id, startsAt: Instant, endsAt: Instant, except: Option<Id>) {
    exists id | id in bookings ::
      && except != Some(id)
      && IsActive(bookings[id])
      && Resource(bookings[id], kind) == resource
      && BookingOverlaps(bookings[id], startsAt, endsAt)
  }

  // An unreleased reservation of the resource that overlaps the interval.
  predicate Takes(r: Reservation, kind: Kind, resource: Id, startsAt: Instant, endsAt: Instant) {
    && r.releasedAt.None?
    && Active(r.status)
    && r.kind == kind
    && r.resource == resource
    && Overlaps(r.startsAt, r.endsAt, startsAt, endsAt)
  }

  // appointment_resource_reservations_no_overlap
  predicate ReservationConflict(reservations: Reservations, kind: Kind, resource: Id, startsAt: Instant, endsAt: Instant) {
    exists r | r in reservations :: Takes(reservations[r], kind, resource, startsAt, endsAt)
  }

  // An active booking that ends after now and fits neither a live shift other than
  // `excluded` nor the candidate.
  predicate Uncovered(s: Store, id: Id, technician: Id, candidate: Window, excluded: Id) {
    && id in s.bookings
    && s.bookings[id].technician == technician
    && technician in s.catalog.technicians
    && IsActive(s.bookings[id])
    && s.bookings[id].row.endsAt > s.clock
    && var offset := Offset(s.catalog, s.catalog.technicians[technician].dealership);
       && !OnShift(s.shifts - {excluded}, technician, s.bookings[id].row.startsAt, s.bookings[id].row.endsAt, offset)
       && !InWindow(candidate, s.bookings[id].row.startsAt, s.bookings[id].row.endsAt, offset)
  }

  // HasFutureAppointmentsOutsideTechnicianShift
  predicate UncoveredBooking(s: Store, technician: Id, candidate: Window, excluded: Id) {
    exists id | id in s.bookings :: Uncovered(s, id, technician, candidate, excluded)
  }

  // technician_shifts_no_overlap on a row other than `except`
  predicate ShiftConflict(shifts: Shifts, technician: Id, window: Window, except: Id) {
    exists shift | shift in shifts ::
      shift != except && LiveShiftOf(shifts, shift, technician) && WindowsOverlap(shifts[shift].window, window)
  }

  // technician_time_off_no_overlap on a row other than `except`
  predicate TimeOffConflict(timeOff: TimeOffs, technician: Id, startsAt: Instant, endsAt: Instant, except: Id) {
    exists id | id in timeOff ::
      && id != except
      && LiveTimeOffOf(timeOff, id, technician)
      && Overlaps(timeOff[id].startsAt, timeOff[id].endsAt, startsAt, endsAt)
  }

  predicate ReferenceTaken(bookings: Bookings, referenceCode: string) {
    exists id | id in bookings :: bookings[id].referenceCode == referenceCode
  }

  predicate VinTaken(vehicles: Vehicles, vin: Option<string>, except: Option<Id>) {
    vin.Some? && exists v | v in vehicles :: except != Some(v) && vehicles[v].vin == vin
  }

  predicate BayReferenced(bookings: Bookings, bay: Id) {
    exists id | id in bookings :: bookings[id].bay == bay
  }

  predicate ServiceTypeReferenced(bookings: Bookings, serviceType: Id) {
    exists id | id in bookings :: bookings[id].serviceType == serviceType
  }

  // ListAvailableServiceBays, without its ORDER BY
  function AvailableBays(s: Store, dealership: Id, serviceType: Id, startsAt: Instant, endsAt: Instant): set<Id> {
    set bay | bay in s.catalog.bays
              && s.catalog.bays[bay].dealership == dealership
              && s.catalog.bays[bay].isActive
              && !s.catalog.bays[bay].deleted
              && !ActiveOverlap(s.bookings, BayResource, bay, startsAt, endsAt, None)
              && RequiredCapabilities(s.catalog, serviceType) <= s.catalog.bays[bay].capabilities
  }

  // ----- the audit table -----

  function AfterStatus(e: AuditEvent): Status {
    match e
    case Created(_, _, _, _, _) => Requested
    case StatusChanged(_, _, _, _, after, _, _, _, _) => after
  }

  // The events of one booking, in insertion order.
  function LogOf(audit: seq<AuditEvent>, booking: Id): seq<AuditEvent> {
    if audit == [] then []
    else
      var last := audit[|audit| - 1];
      LogOf(audit[..|audit| - 1], booking) + if last.booking == booking then [last] else []
  }

  // Folds a log from no row to a status; None means the log does not replay.
  function Replay(log: seq<AuditEvent>): Option<Status> {
    if log == [] then None
    else
      var last := log[|log| - 1];
      match last
      case Created(_, _, _, _, _) => if |log| == 1 then Some(Requested) else None
      case StatusChanged(_, _, before, _, after, _, _, _, _) =>
        if Replay(log[..|log| - 1]) == Some(before) then Some(after) else None
  }
}
