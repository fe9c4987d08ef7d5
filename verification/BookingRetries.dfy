/**
 Booking under the transaction runner. The body writes the planned duration back
 into the caller's record, so a second run starts from a different record than
 the first one did.
 */
module BookingRetries {
  import opened Outcomes
  import opened Tables
  import opened Lifecycle
  import opened Ledger
  import opened LedgerInvariant
  import opened Transactions

  // The record the body sees: zero minutes stand for a duration not given.
  function Given(i: BookingInput, minutes: int): BookingInput {
    i.(planned := if minutes == 0 then None else Some(minutes))
  }

  function Longest(c: Catalog, serviceType: Id): int {
    if serviceType in c.serviceTypes then c.serviceTypes[serviceType].maxMinutes else 0
  }

  // What the body leaves in the record's duration.
  function MinutesAfter(s: Store, i: BookingInput, minutes: int): int {
    if minutes == 0 && ActiveDealership(s.catalog, i.dealership) && ActiveServiceType(s.catalog, i.serviceType, i.dealership)
    then Longest(s.catalog, i.serviceType)
    else minutes
  }

  // Where the body can panic, by the writes it has made.
  datatype Point = BeforeInsert | AfterInsert | AfterFirst | AfterBoth | AfterAudit

  predicate Inserts(s: Store, i: BookingInput) {
    CheckBooking(s, i).Ok? && InsertBooking(s, i.id, CheckBooking(s, i).value).Ok?
  }

  function FirstReservation(s: Store, i: BookingInput): Result<Reservations, Error>
    requires Inserts(s, i)
  {
    var b := CheckBooking(s, i).value;
    InsertReservation(s.reservations, i.technicianReservation, NewReservation(i.id, b, TechnicianResource))
  }

  function BothReservations(s: Store, i: BookingInput): Result<Reservations, Error>
    requires Inserts(s, i) && FirstReservation(s, i).Ok?
  {
    var b := CheckBooking(s, i).value;
    InsertReservation(FirstReservation(s, i).value, i.bayReservation, NewReservation(i.id, b, BayResource))
  }

  predicate Reaches(s: Store, i: BookingInput, point: Point) {
    && (!point.BeforeInsert? ==> Inserts(s, i))
    && (point.AfterFirst? ==> FirstReservation(s, i).Ok?)
    && (point.AfterBoth? || point.AfterAudit? ==> FirstReservation(s, i).Ok? && BothReservations(s, i).Ok?)
  }

  function Written(s: Store, i: BookingInput, reservations: Reservations): Store
    requires Inserts(s, i)
  {
    s.(bookings := s.bookings[i.id := CheckBooking(s, i).value], reservations := reservations)
  }

  // The transaction's tables at that point.
  function TablesAt(s: Store, i: BookingInput, point: Point): Store
    requires Reaches(s, i, point)
  {
    match point
    case BeforeInsert => s
    case AfterInsert => Written(s, i, s.reservations)
    case AfterFirst => Written(s, i, FirstReservation(s, i).value)
    case AfterBoth => Written(s, i, BothReservations(s, i).value)
    case AfterAudit => Schedule(s, i).0
  }

  // What may befall one run of the body: a panic after some of its writes, or a
  // statement that fails with any text, before or after the duration is filled in.
  datatype Fault = NoFault | PanicAt(point: Point) | StatementFails(text: string, filled: bool)

  // The record's duration, and the faults that later runs of the body will meet.
  datatype Memory = Memory(minutes: int, faults: seq<Fault>)

  function First(faults: seq<Fault>): Fault {
    if faults == [] then NoFault else faults[0]
  }

  function Rest(faults: seq<Fault>): seq<Fault> {
    if faults == [] then [] else faults[1..]
  }

  // The tables and the ending of one run.
  function RunOnce(s: Store, i: BookingInput, fault: Fault, text: Error -> string): (Store, Ending) {
    if fault.StatementFails? then (s, Failed(fault.text))
    else if fault.PanicAt? && Reaches(s, i, fault.point) then (TablesAt(s, i, fault.point), Panic)
    else
      var (after, error) := Schedule(s, i);
      (after, if error.Some? then Failed(text(error.value)) else Success)
  }

  function MinutesLeft(s: Store, i: BookingInput, minutes: int, fault: Fault): int {
    if fault.StatementFails? && !fault.filled then minutes else MinutesAfter(s, i, minutes)
  }

  function BookingBody(i: BookingInput, text: Error -> string): (Memory, Store) -> BodyRun<Store, Memory> {
    (m: Memory, s: Store) =>
      var (after, ending) := RunOnce(s, Given(i, m.minutes), First(m.faults), text);
      BodyRun(Memory(MinutesLeft(s, i, m.minutes, First(m.faults)), Rest(m.faults)), after, ending)
  }

  predicate IsOffered(c: Catalog, i: BookingInput) {
    && i.dealership in c.dealerships && c.dealerships[i.dealership].isActive && !c.dealerships[i.dealership].deleted
    && i.serviceType in c.serviceTypes && c.serviceTypes[i.serviceType].dealership == i.dealership
    && c.serviceTypes[i.serviceType].isActive && !c.serviceTypes[i.serviceType].deleted
  }

  // What the body does with its record and its tables, fault by fault: it fills in a
  // duration not given as soon as it has read the service type, which a rollback does
  // not undo.
  lemma BodyMeans(s: Store, i: BookingInput, m: Memory, text: Error -> string)
    ensures var run := BookingBody(i, text)(m, s);
            var fault := if m.faults == [] then NoFault else m.faults[0];
            var (booked, error) := Schedule(s, Given(i, m.minutes));
            && (fault.StatementFails? ==> run.after == s && run.ending == Failed(fault.text))
            && (fault.NoFault? ==> run.after == booked && run.ending == if error.None? then Success else Failed(text(error.value)))
            && run.memory.minutes ==
               (if m.minutes == 0 && IsOffered(s.catalog, i) && (fault.StatementFails? ==> fault.filled)
                then s.catalog.serviceTypes[i.serviceType].maxMinutes
                else m.minutes)
            && run.memory.faults == if m.faults == [] then [] else m.faults[1..]
  {
    hide Schedule;
    var run, error := BookingBody(i, text)(m, s), Schedule(s, Given(i, m.minutes)).1;
    assert First(m.faults).NoFault? && error.Some? ==> run.ending == Failed(text(error.value));
  }

  // After a run on s, a second run on t plans what a first run on t would exactly when
  // the duration was given, the first run did not get as far as filling it in, or the
  // service type's longest duration has not changed in between.
  lemma RerunPlansTheSameIff(s: Store, t: Store, i: BookingInput, minutes: int)
    requires DurationsOrdered(s.catalog) && DurationsOrdered(t.catalog) && i.serviceType in t.catalog.serviceTypes
    ensures var service := t.catalog.serviceTypes[i.serviceType];
            PlanMinutes(MinutesAfter(s, i, minutes), service.minMinutes, service.maxMinutes)
            == PlanMinutes(minutes, service.minMinutes, service.maxMinutes)
            <==> minutes != 0 || !IsOffered(s.catalog, i) || s.catalog.serviceTypes[i.serviceType].maxMinutes == service.maxMinutes
  {
  }

  // The two durations a run can find in the record of a booking for `asked`.
  predicate Leftover(asked: int, minutes: int, longest: int) {
    minutes == asked || (asked == 0 && minutes == longest)
  }

  lemma RerunDecidesTheSame(s: Store, i: BookingInput, asked: int, minutes: int)
    requires asked >= 0 && DurationsOrdered(s.catalog) && Leftover(asked, minutes, Longest(s.catalog, i.serviceType))
    ensures forall fault, text :: RunOnce(s, Given(i, minutes), fault, text) == RunOnce(s, Given(i, asked), fault, text)
    ensures forall fault :: Leftover(asked, MinutesLeft(s, i, minutes, fault), Longest(s.catalog, i.serviceType))
  {
    assert CheckBooking(s, Given(i, minutes)) == CheckBooking(s, Given(i, asked));
    hide CheckBooking;
  }

  // The other clients leave the bounds on this service type's durations alone.
  ghost predicate KeepsDurations(a: Attempt<Store>, serviceType: Id) {
    forall s: Store ::
      && (DurationsOrdered(s.catalog) ==> DurationsOrdered(a.others(s).catalog))
      && Longest(a.others(s).catalog, serviceType) == Longest(s.catalog, serviceType)
  }

  // ... and never remove a booking.
  ghost predicate KeepsBooking(a: Attempt<Store>, id: Id) {
    forall s: Store :: id in s.bookings ==> id in a.others(s).bookings
  }

  ghost predicate OtherClients(attempts: seq<Attempt<Store>>, i: BookingInput) {
    forall k | 0 <= k < |attempts| :: KeepsDurations(attempts[k], i.serviceType) && KeepsBooking(attempts[k], i.id)
  }

  lemma OthersLater(attempts: seq<Attempt<Store>>, i: BookingInput)
    requires attempts != [] && OtherClients(attempts, i)
    ensures OtherClients(attempts[1..], i)
    ensures KeepsDurations(attempts[0], i.serviceType) && KeepsBooking(attempts[0], i.id)
  {
  }

  lemma FirstDurations(db: Store, i: BookingInput, attempts: seq<Attempt<Store>>)
    requires attempts != [] && OtherClients(attempts, i) && DurationsOrdered(db.catalog)
    ensures var first := attempts[0].others(db);
            DurationsOrdered(first.catalog) && Longest(first.catalog, i.serviceType) == Longest(db.catalog, i.serviceType)
  {
    hide DurationsOrdered, Longest, KeepsBooking;
    assert KeepsDurations(attempts[0], i.serviceType);
  }

  // One attempt, in terms of the original request.
  lemma OneAttempt(s: Store, i: BookingInput, asked: int, m: Memory, a: Attempt<Store>, text: Error -> string)
    requires asked >= 0 && DurationsOrdered(s.catalog) && Leftover(asked, m.minutes, Longest(s.catalog, i.serviceType))
    ensures var o := Try(s, m, a, BookingBody(i, text));
            var (after, ending) := RunOnce(s, Given(i, asked), First(m.faults), text);
            var lands := a.begin.None? && !ending.Failed? && !a.commit.CommitFailed?;
            && o.db == (if lands then after else s)
            && o.applied == (if lands then 1 else 0)
            && (o.partial <==> lands && ending.Panic?)
            && (o.ending.Success? <==> a.begin.None? && ending.Success? && a.commit.Committed?)
            && (o.ending.Panic? <==> a.begin.None? && ending.Panic?)
            && (Retryable(o.ending) <==> AsksRetry(a, BodyRun(m, after, ending)))
            && o.memory.faults == (if a.begin.None? then Rest(m.faults) else m.faults)
            && Leftover(asked, o.memory.minutes, Longest(s.catalog, i.serviceType))
  {
    RerunDecidesTheSame(s, i, asked, m.minutes);
    RetriedIff(s, m, a, BookingBody(i, text));
    hide RunOnce, MinutesLeft, Leftover, Contains, BeginText, Joined;
  }

  // Once the booking is stored no run writes anything any more.
  lemma StoredWritesNothing(s: Store, i: BookingInput, fault: Fault, text: Error -> string)
    requires i.id in s.bookings
    ensures var (after, ending) := RunOnce(s, i, fault, text); after == s && !ending.Success?
  {
  }

  lemma SuccessStores(s: Store, i: BookingInput, fault: Fault, text: Error -> string)
    ensures var (after, ending) := RunOnce(s, i, fault, text);
            && (ending.Success? ==> after == Schedule(s, i).0 && Schedule(s, i).1.None? && i.id in after.bookings)
            && (ending.Panic? ==> fault.PanicAt? && Reaches(s, i, fault.point) && after == TablesAt(s, i, fault.point))
            && after.catalog == s.catalog
  {
    hide CheckBooking;
  }

  lemma StoredAttempt(s: Store, i: BookingInput, m: Memory, a: Attempt<Store>, text: Error -> string)
    requires i.id in s.bookings
    ensures var o := Try(s, m, a, BookingBody(i, text));
            o.db == s && !o.ending.Success? && o.applied == (if o.partial then 1 else 0) && (o.partial ==> o.ending.Panic?)
  {
    StoredWritesNothing(s, Given(i, m.minutes), First(m.faults), text);
    hide RunOnce, MinutesLeft, Contains, BeginText, Joined;
  }

  lemma {:induction false} AfterStored(
    db: Store, i: BookingInput, m: Memory, attempts: seq<Attempt<Store>>, text: Error -> string, left: nat)
    requires 0 < left <= |attempts| && i.id in db.bookings && OtherClients(attempts, i)
    ensures var o := Retry(db, m, attempts, BookingBody(i, text), left);
            && 1 <= o.tries <= left
            && !o.ending.Success?
            && o.applied == (if o.partial then 1 else 0)
            && o.db == OthersOnly(db, attempts, o.tries)
    decreases left
  {
    var first := attempts[0].others(db);
    OthersLater(attempts, i);
    StillStored(db, i, attempts[0]);
    StoredAttempt(first, i, m, attempts[0], text);
    OthersNow(first, attempts[1..]);
    var o := Try(first, m, attempts[0], BookingBody(i, text));
    hide Try, BookingBody, OtherClients, KeepsBooking, KeepsDurations, Retryable, OthersOnly;
    if Retryable(o.ending) && left > 1 && attempts[0].giveUp.None? {
      RetryGoesOn(db, m, attempts, BookingBody(i, text), left);
      AfterStored(first, i, o.memory, attempts[1..], text, left - 1);
      NothingLater(db, attempts, Retry(first, o.memory, attempts[1..], BookingBody(i, text), left - 1).tries);
    } else {
      RetryStops(db, m, attempts, BookingBody(i, text), left);
      NothingLater(db, attempts, 0);
    }
  }

  lemma StillStored(db: Store, i: BookingInput, a: Attempt<Store>)
    requires KeepsBooking(a, i.id) && i.id in db.bookings
    ensures i.id in a.others(db).bookings
  {
  }

  lemma OthersNext(db: Store, attempts: seq<Attempt<Store>>)
    requires attempts != []
    ensures OthersOnly(db, attempts, 1) == attempts[0].others(db)
    ensures forall n: nat | n < |attempts| :: OthersOnly(db, attempts, n + 1) == OthersOnly(attempts[0].others(db), attempts[1..], n)
    ensures OthersOnly(db, attempts, 0) == db
  {
  }

  // The tables after `tries` attempts of which the k-th made one run of the original
  // request, on what the other clients had made of them by then.
  predicate RanAt(db: Store, i: BookingInput, attempts: seq<Attempt<Store>>, tries: nat, k: nat, after: Store) {
    && k < tries <= |attempts|
    && var seen := OthersOnly(db, attempts, k + 1);
       && Schedule(seen, i).1.None?
       && after == OthersOnly(Schedule(seen, i).0, attempts[k + 1..], tries - k - 1)
  }

  // ... of which the last one stopped at some point and was committed.
  predicate StoppedAt(db: Store, i: BookingInput, attempts: seq<Attempt<Store>>, tries: nat, point: Point, after: Store) {
    && tries <= |attempts|
    && var seen := OthersOnly(db, attempts, tries);
       Reaches(seen, i, point) && after == TablesAt(seen, i, point)
  }

  lemma RanLater(db: Store, i: BookingInput, attempts: seq<Attempt<Store>>, tries: nat, k: nat, after: Store)
    requires attempts != [] && RanAt(attempts[0].others(db), i, attempts[1..], tries, k, after)
    ensures RanAt(db, i, attempts, tries + 1, k + 1, after)
  {
    hide Schedule;
    assert attempts[1..][k + 1..] == attempts[k + 2..];
  }

  // What a run of the loop is worth: nothing of it is in the tables, exactly one run
  // of the original request is, or, after a committed panic, the writes up to it.
  ghost predicate Settled(
    db: Store, i: BookingInput, attempts: seq<Attempt<Store>>, tries: nat, applied: nat, partial: bool, after: Store)
  {
    || (1 <= tries <= |attempts| && applied == 0 && after == OthersOnly(db, attempts, tries))
    || (exists k: nat :: k < tries && RanAt(db, i, attempts, tries, k, after))
    || (partial && applied == 1 && exists point :: StoppedAt(db, i, attempts, tries, point, after))
  }

  lemma SettledLater(
    db: Store, i: BookingInput, attempts: seq<Attempt<Store>>, tries: nat, applied: nat, partial: bool, after: Store)
    requires attempts != [] && Settled(attempts[0].others(db), i, attempts[1..], tries, applied, partial, after)
    ensures Settled(db, i, attempts, tries + 1, applied, partial, after)
  {
    var first, later := attempts[0].others(db), attempts[1..];
    hide RanAt, StoppedAt;
    if k: nat :| k < tries && RanAt(first, i, later, tries, k, after) {
      RanLater(db, i, attempts, tries, k, after);
    } else if point: Point :| StoppedAt(first, i, later, tries, point, after) {
      StoppedLater(db, i, attempts, tries, point, after);
      NothingLater(db, attempts, tries);
    } else {
      NothingLater(db, attempts, tries);
    }
  }

  lemma NothingLater(db: Store, attempts: seq<Attempt<Store>>, tries: nat)
    requires attempts != []
    ensures tries < |attempts| ==> OthersOnly(db, attempts, tries + 1) == OthersOnly(attempts[0].others(db), attempts[1..], tries)
  {
  }

  lemma StoppedLater(db: Store, i: BookingInput, attempts: seq<Attempt<Store>>, tries: nat, point: Point, after: Store)
    requires attempts != [] && StoppedAt(attempts[0].others(db), i, attempts[1..], tries, point, after)
    ensures StoppedAt(db, i, attempts, tries + 1, point, after)
  {
    OthersNext(db, attempts);
    hide Reaches, TablesAt;
  }

  // Nothing or one run, at most; success is the last attempt's own run; a second
  // commit can only be the empty one of a panic before the first write.
  ghost predicate BookedOnce(db: Store, i: BookingInput, attempts: seq<Attempt<Store>>, o: Outcome<Store, Memory>) {
    && 1 <= o.tries <= |attempts|
    && Settled(db, i, attempts, o.tries, o.applied, o.partial, o.db)
    && (o.ending.Success? ==> o.applied == 1 && RanAt(db, i, attempts, o.tries, o.tries - 1, o.db))
    && (o.applied <= 1 || (o.applied == 2 && o.partial &&
                           exists k: nat :: k < o.tries - 1 && RanAt(db, i, attempts, o.tries, k, o.db)))
  }

  lemma BookedLater(
    db: Store, i: BookingInput, attempts: seq<Attempt<Store>>, rest: Outcome<Store, Memory>, o: Outcome<Store, Memory>)
    requires attempts != [] && BookedOnce(attempts[0].others(db), i, attempts[1..], rest)
    requires o == rest.(tries := rest.tries + 1)
    ensures BookedOnce(db, i, attempts, o)
  {
    hide Settled, RanAt;
    SettledLater(db, i, attempts, rest.tries, rest.applied, rest.partial, rest.db);
    if rest.ending.Success? {
      RanLater(db, i, attempts, rest.tries, rest.tries - 1, rest.db);
    }
    if rest.applied == 2 {
      var k: nat :| k < rest.tries - 1 && RanAt(attempts[0].others(db), i, attempts[1..], rest.tries, k, rest.db);
      RanLater(db, i, attempts, rest.tries, k, rest.db);
    }
  }

  // A first attempt that books and loses its reply, and then what the others do.
  lemma BookedByFirst(
    db: Store, i: BookingInput, attempts: seq<Attempt<Store>>, booked: Store, rest: Outcome<Store, Memory>, o: Outcome<Store, Memory>)
    requires attempts != [] && 1 <= rest.tries < |attempts| && !rest.ending.Success?
    requires Schedule(attempts[0].others(db), i) == (booked, None)
    requires rest.db == OthersOnly(booked, attempts[1..], rest.tries) && rest.applied == if rest.partial then 1 else 0
    requires o.db == rest.db && o.tries == rest.tries + 1 && o.applied == rest.applied + 1
    requires o.ending == rest.ending && o.partial == rest.partial
    ensures BookedOnce(db, i, attempts, o)
  {
    RanFirst(db, i, attempts, booked, rest.tries);
    hide RanAt, Schedule, StoppedAt, OthersOnly;
  }

  lemma RanFirst(db: Store, i: BookingInput, attempts: seq<Attempt<Store>>, booked: Store, n: nat)
    requires n < |attempts| && Schedule(attempts[0].others(db), i) == (booked, None)
    ensures RanAt(db, i, attempts, n + 1, 0, OthersOnly(booked, attempts[1..], n))
  {
    OthersNext(db, attempts);
    hide Schedule;
  }

  predicate GoesOnPast(db: Store, i: BookingInput, m: Memory, attempts: seq<Attempt<Store>>, text: Error -> string, left: nat)
    requires attempts != []
  {
    && left > 1
    && attempts[0].giveUp.None?
    && Retryable(Try(attempts[0].others(db), m, attempts[0], BookingBody(i, text)).ending)
  }

  lemma AfterNothing(
    db: Store, i: BookingInput, given: BookingInput, m: Memory, attempts: seq<Attempt<Store>>, text: Error -> string, left: nat)
    requires 0 < left <= |attempts| && GoesOnPast(db, i, m, attempts, text, left)
    requires var first := attempts[0].others(db);
             var once := Try(first, m, attempts[0], BookingBody(i, text));
             && once.applied == 0
             && BookedOnce(first, given, attempts[1..], Retry(first, once.memory, attempts[1..], BookingBody(i, text), left - 1))
             && once.db == first
    ensures BookedOnce(db, given, attempts, Retry(db, m, attempts, BookingBody(i, text), left))
  {
    var first := attempts[0].others(db);
    var once := Try(first, m, attempts[0], BookingBody(i, text));
    RetryGoesOn(db, m, attempts, BookingBody(i, text), left);
    hide *;
    BookedLater(db, given, attempts, Retry(first, once.memory, attempts[1..], BookingBody(i, text), left - 1),
                Retry(db, m, attempts, BookingBody(i, text), left));
  }

  lemma AfterBooking(
    db: Store, i: BookingInput, given: BookingInput, m: Memory, attempts: seq<Attempt<Store>>, text: Error -> string, left: nat)
    requires 0 < left <= |attempts| && GoesOnPast(db, i, m, attempts, text, left) && OtherClients(attempts, i)
    requires var first := attempts[0].others(db);
             var once := Try(first, m, attempts[0], BookingBody(i, text));
             && once.applied == 1
             && Schedule(first, given).1.None? && once.db == Schedule(first, given).0 && i.id in once.db.bookings
    ensures BookedOnce(db, given, attempts, Retry(db, m, attempts, BookingBody(i, text), left))
  {
    var first, body := attempts[0].others(db), BookingBody(i, text);
    var once := Try(first, m, attempts[0], body);
    RetryGoesOn(db, m, attempts, body, left);
    OthersLater(attempts, i);
    hide Try, BookingBody, Schedule, OtherClients, KeepsBooking, KeepsDurations, BookedOnce, Retryable, GoesOnPast;
    AfterStored(once.db, i, once.memory, attempts[1..], text, left - 1);
    BookedByFirst(db, given, attempts, once.db, Retry(once.db, once.memory, attempts[1..], body, left - 1),
                  Retry(db, m, attempts, body, left));
  }

  // However often a booking is retried, whatever its attempts meet and even if the
  // replies to COMMIT get lost, it is booked at most once, and the run ends in
  // success exactly with its own last attempt, never on top of a booking from before.
  lemma {:induction false} RetriedBooking(
    db: Store, i: BookingInput, asked: int, m: Memory, attempts: seq<Attempt<Store>>, text: Error -> string, left: nat)
    requires 0 < left <= |attempts| && OtherClients(attempts, i)
    requires asked >= 0 && DurationsOrdered(db.catalog) && Leftover(asked, m.minutes, Longest(db.catalog, i.serviceType))
    ensures BookedOnce(db, Given(i, asked), attempts, Retry(db, m, attempts, BookingBody(i, text), left))
    decreases left
  {
    var first, given, body := attempts[0].others(db), Given(i, asked), BookingBody(i, text);
    var once := Try(first, m, attempts[0], body);
    OthersLater(attempts, i);
    FirstDurations(db, i, attempts);
    OnceSettles(db, i, asked, m, attempts, text);
    if GoesOnPast(db, i, m, attempts, text, left) {
      assert !once.partial;
      hide *;
      if once.applied == 0 {
        RetriedBooking(first, i, asked, once.memory, attempts[1..], text, left - 1);
        AfterNothing(db, i, given, m, attempts, text, left);
      } else {
        AfterBooking(db, i, given, m, attempts, text, left);
      }
    } else {
      RetryStops(db, m, attempts, body, left);
      hide *;
      BookedEither(db, given, attempts, once, Retry(db, m, attempts, body, left));
    }
  }

  // So success is never reported on top of a booking that an earlier attempt left
  // behind a lost reply: if it stands, the run ends in an error.
  lemma SuccessIsItsOwn(
    db: Store, i: BookingInput, asked: int, m: Memory, attempts: seq<Attempt<Store>>, text: Error -> string, left: nat)
    requires 0 < left <= |attempts| && OtherClients(attempts, i)
    requires asked >= 0 && DurationsOrdered(db.catalog) && Leftover(asked, m.minutes, Longest(db.catalog, i.serviceType))
    ensures var o := Retry(db, m, attempts, BookingBody(i, text), left);
            o.ending.Success? ==>
              && o.applied == 1 && o.tries <= |attempts|
              && i.id !in OthersOnly(db, attempts, o.tries).bookings && i.id in o.db.bookings
  {
    var o := Retry(db, m, attempts, BookingBody(i, text), left);
    RetriedBooking(db, i, asked, m, attempts, text, left);
    if o.ending.Success? {
      var seen := OthersOnly(db, attempts, o.tries);
      hide Retry, BookingBody, Settled, OtherClients, DurationsOrdered, Longest, CheckBooking;
      assert Schedule(seen, Given(i, asked)).1.None?;
      SuccessIsNew(seen, Given(i, asked));
      OthersNow(Schedule(seen, Given(i, asked)).0, attempts[o.tries..]);
    }
  }

  lemma SuccessIsNew(s: Store, i: BookingInput)
    requires Schedule(s, i).1.None?
    ensures i.id !in s.bookings && i.id in Schedule(s, i).0.bookings
  {
    hide CheckBooking;
  }

  // The run ends with its first attempt, given up or not.
  lemma BookedEither(
    db: Store, i: BookingInput, attempts: seq<Attempt<Store>>, once: Outcome<Store, Memory>, o: Outcome<Store, Memory>)
    requires attempts != [] && Settled(db, i, attempts, 1, once.applied, once.partial, once.db) && once.tries == 1 && once.applied <= 1
    requires once.ending.Success? ==> once.applied == 1 && RanAt(db, i, attempts, 1, 0, once.db)
    requires o == once.(ending := o.ending) && (o.ending.Success? ==> once.ending.Success?)
    ensures BookedOnce(db, i, attempts, o)
  {
    hide RanAt, StoppedAt, OthersOnly;
  }

  // The first attempt: what it has done if the run ends with it, and the state the
  // next one starts from.
  lemma OnceSettles(db: Store, i: BookingInput, asked: int, m: Memory, attempts: seq<Attempt<Store>>, text: Error -> string)
    requires attempts != [] && asked >= 0 && DurationsOrdered(attempts[0].others(db).catalog)
    requires Leftover(asked, m.minutes, Longest(attempts[0].others(db).catalog, i.serviceType))
    ensures var first, given := attempts[0].others(db), Given(i, asked);
            var once := Try(first, m, attempts[0], BookingBody(i, text));
            && Settled(db, given, attempts, 1, once.applied, once.partial, once.db)
            && (once.ending.Success? ==> once.applied == 1 && RanAt(db, given, attempts, 1, 0, once.db))
            && (once.applied == 1 && !once.partial ==> once.db == Schedule(first, given).0 && Schedule(first, given).1.None?
                                                       && i.id in once.db.bookings)
            && (once.applied == 0 ==> once.db == first)
            && (Retryable(once.ending) ==> !once.partial)
            && Leftover(asked, once.memory.minutes, Longest(first.catalog, i.serviceType))
  {
    var first, given := attempts[0].others(db), Given(i, asked);
    var once := Try(first, m, attempts[0], BookingBody(i, text));
    OneAttempt(first, i, asked, m, attempts[0], text);
    SuccessStores(first, given, First(m.faults), text);
    OthersNext(db, attempts);
    OthersNow(Schedule(first, given).0, attempts[1..]);
    hide Try, BookingBody, RunOnce, Schedule, Reaches, TablesAt, DurationsOrdered, Leftover, AsksRetry, Contains, OthersOnly;
    if once.partial {
      assert StoppedAt(db, given, attempts, 1, First(m.faults).point, once.db);
    } else if once.applied == 1 {
      assert RanAt(db, given, attempts, 1, 0, once.db);
    }
  }

  lemma OthersNow(db: Store, attempts: seq<Attempt<Store>>)
    ensures OthersOnly(db, attempts, 0) == db
  {
  }

  // ----- what a committed panic does to the engine -----

  lemma NoReservationOf(s: Store, id: Id)
    requires Linked(s.bookings, s.reservations) && id !in s.bookings
    ensures forall r | r in s.reservations :: s.reservations[r].booking != id
  {
  }

  // The tables at a point keep the engine's invariant exactly if nothing or
  // everything has been written: in between, the booking lacks a reservation or its
  // first audit event.
  lemma PanicKeepsInvariantIff(s: Store, i: BookingInput, point: Point)
    requires Inv(s) && Reaches(s, i, point)
    ensures Inv(TablesAt(s, i, point)) <==> point.BeforeInsert? || point.AfterAudit?
  {
    match point {
      case BeforeInsert =>
      case AfterInsert => MissingReservation(s, i, point);
      case AfterFirst => MissingReservation(s, i, point);
      case AfterBoth => MissingEvent(s, i);
      case AfterAudit => ScheduleKeeps(s, i);
    }
  }

  lemma MissingReservation(s: Store, i: BookingInput, point: Point)
    requires Inv(s) && Reaches(s, i, point) && (point.AfterInsert? || point.AfterFirst?)
    ensures !Linked(TablesAt(s, i, point).bookings, TablesAt(s, i, point).reservations)
  {
    hide LedgerDisjoint, Catalogued, Owned, ShiftsCover, ShiftsSound, TimeOffClear, Audited, CheckBooking;
    assert Inserts(s, i);
    var t := TablesAt(s, i, point);
    assert i.id !in s.bookings && i.id in t.bookings;
    NoReservationOf(s, i.id);
    assert !Holds(t.reservations, i.id, BayResource);
  }

  lemma MissingEvent(s: Store, i: BookingInput)
    requires Inv(s) && Reaches(s, i, AfterBoth)
    ensures !Audited(TablesAt(s, i, AfterBoth).audit, TablesAt(s, i, AfterBoth).bookings, s.clock)
  {
    hide Linked, LedgerDisjoint, Catalogued, Owned, ShiftsCover, ShiftsSound, TimeOffClear, CheckBooking;
    assert Inserts(s, i);
    var t := TablesAt(s, i, AfterBoth);
    assert i.id !in s.bookings && i.id in t.bookings && t.audit == s.audit;
    assert forall e | e in s.audit :: e.booking != i.id;
    LogOfStranger(s.audit, i.id);
    assert !Replays(LogOf(t.audit, i.id), t.bookings[i.id], s.clock);
  }

  // ----- when a retried booking breaks the invariant -----

  // The fault that the body run of the k-th attempt meets, if it gets to its body.
  function FaultOf(attempts: seq<Attempt<Store>>, faults: seq<Fault>, k: nat): Fault
    requires k < |attempts|
    decreases k
  {
    if k == 0 then First(faults)
    else FaultOf(attempts[1..], if attempts[0].begin.None? then Rest(faults) else faults, k - 1)
  }

  // With these tables the attempt leaves them alone and asks for another one.
  predicate AsksAgain(s: Store, i: BookingInput, a: Attempt<Store>, fault: Fault, text: Error -> string) {
    var (after, ending) := RunOnce(s, i, fault, text);
    && a.giveUp.None?
    && AsksRetry(a, BodyRun(Memory(0, []), after, ending))
    && (a.begin.Some? || ending.Failed? || a.commit.CommitFailed?)
  }

  // The k-th attempt panics between the first and the last write of a booking that
  // the tables of the other clients allow, and its COMMIT applies; every attempt
  // before it asks for another one.
  predicate BreaksAt(
    db: Store, i: BookingInput, attempts: seq<Attempt<Store>>, faults: seq<Fault>, text: Error -> string, k: nat)
  {
    && k < |attempts|
    && (forall j | 0 <= j < k :: AsksAgain(OthersOnly(db, attempts, j + 1), i, attempts[j], FaultOf(attempts, faults, j), text))
    && BreaksNow(OthersOnly(db, attempts, k + 1), i, attempts[k], FaultOf(attempts, faults, k))
  }

  predicate BreaksNow(s: Store, i: BookingInput, a: Attempt<Store>, fault: Fault) {
    && a.begin.None? && !a.commit.CommitFailed?
    && fault.PanicAt? && !fault.point.BeforeInsert? && !fault.point.AfterAudit?
    && Reaches(s, i, fault.point)
  }

  lemma BreaksLater(
    db: Store, i: BookingInput, attempts: seq<Attempt<Store>>, faults: seq<Fault>, text: Error -> string, k: nat)
    requires k + 1 < |attempts|
    ensures var first := attempts[0].others(db);
            var rest := if attempts[0].begin.None? then Rest(faults) else faults;
            BreaksAt(db, i, attempts, faults, text, k + 1)
            <==> AsksAgain(first, i, attempts[0], First(faults), text) && BreaksAt(first, i, attempts[1..], rest, text, k)
  {
    var first, later := attempts[0].others(db), attempts[1..];
    var rest := if attempts[0].begin.None? then Rest(faults) else faults;
    OthersNext(db, attempts);
    hide AsksAgain, BreaksNow;
    forall j: nat | j <= k
      ensures OthersOnly(db, attempts, j + 2) == OthersOnly(first, later, j + 1)
      ensures FaultOf(attempts, faults, j + 1) == FaultOf(later, rest, j) && attempts[j + 1] == later[j]
    {
    }
    if BreaksAt(db, i, attempts, faults, text, k + 1) {
      assert AsksAgain(OthersOnly(db, attempts, 0 + 1), i, attempts[0], FaultOf(attempts, faults, 0), text);
      forall j | 0 <= j < k
        ensures AsksAgain(OthersOnly(first, later, j + 1), i, later[j], FaultOf(later, rest, j), text)
      {
        assert AsksAgain(OthersOnly(db, attempts, (j + 1) + 1), i, attempts[j + 1], FaultOf(attempts, faults, j + 1), text);
      }
    }
    if AsksAgain(first, i, attempts[0], First(faults), text) && BreaksAt(first, i, later, rest, text, k) {
      forall j | 0 <= j < k + 1
        ensures AsksAgain(OthersOnly(db, attempts, j + 1), i, attempts[j], FaultOf(attempts, faults, j), text)
      {
        if j > 0 {
          assert AsksAgain(OthersOnly(first, later, (j - 1) + 1), i, later[j - 1], FaultOf(later, rest, j - 1), text);
        }
      }
    }
  }

  ghost predicate Breaks(
    db: Store, i: BookingInput, attempts: seq<Attempt<Store>>, faults: seq<Fault>, text: Error -> string, left: nat)
  {
    exists k: nat :: k < left && BreaksAt(db, i, attempts, faults, text, k)
  }

  lemma BreaksStep(
    db: Store, i: BookingInput, attempts: seq<Attempt<Store>>, faults: seq<Fault>, text: Error -> string, left: nat)
    requires 0 < left <= |attempts|
    ensures var first := attempts[0].others(db);
            var rest := if attempts[0].begin.None? then Rest(faults) else faults;
            Breaks(db, i, attempts, faults, text, left)
            <==> || BreaksNow(first, i, attempts[0], First(faults))
                 || (AsksAgain(first, i, attempts[0], First(faults), text) && Breaks(first, i, attempts[1..], rest, text, left - 1))
  {
    var first := attempts[0].others(db);
    var rest := if attempts[0].begin.None? then Rest(faults) else faults;
    OthersNext(db, attempts);
    hide AsksAgain, BreaksNow;
    assert BreaksAt(db, i, attempts, faults, text, 0) <==> BreaksNow(first, i, attempts[0], First(faults));
    hide BreaksAt;
    if Breaks(db, i, attempts, faults, text, left) {
      var k: nat :| k < left && BreaksAt(db, i, attempts, faults, text, k);
      if k > 0 {
        BreaksLater(db, i, attempts, faults, text, k - 1);
      }
    }
    if AsksAgain(first, i, attempts[0], First(faults), text) && Breaks(first, i, attempts[1..], rest, text, left - 1) {
      var k: nat :| k < left - 1 && BreaksAt(first, i, attempts[1..], rest, text, k);
      BreaksLater(db, i, attempts, faults, text, k);
      assert BreaksAt(db, i, attempts, faults, text, k + 1);
    }
  }

  // The other clients keep the invariant.
  ghost predicate KeepsInv(a: Attempt<Store>) {
    forall s: Store :: Inv(s) ==> Inv(a.others(s))
  }

  ghost predicate OthersKeepInv(attempts: seq<Attempt<Store>>) {
    forall k | 0 <= k < |attempts| :: KeepsInv(attempts[k])
  }

  lemma {:induction false} OthersOnlyKeeps(db: Store, attempts: seq<Attempt<Store>>, n: nat)
    requires n <= |attempts| && Inv(db) && OthersKeepInv(attempts)
    ensures Inv(OthersOnly(db, attempts, n))
    decreases n
  {
    hide Inv;
    if n > 0 {
      assert KeepsInv(attempts[0]);
      OthersOnlyKeeps(attempts[0].others(db), attempts[1..], n - 1);
    }
  }

  // What one attempt means to the invariant.
  lemma OneAttemptKeepsInvIff(s: Store, i: BookingInput, asked: int, m: Memory, a: Attempt<Store>, text: Error -> string)
    requires Inv(s) && asked >= 0 && DurationsOrdered(s.catalog) && Leftover(asked, m.minutes, Longest(s.catalog, i.serviceType))
    ensures var o := Try(s, m, a, BookingBody(i, text));
            && (Inv(o.db) <==> !BreaksNow(s, Given(i, asked), a, First(m.faults)))
            && (Retryable(o.ending) ==> !BreaksNow(s, Given(i, asked), a, First(m.faults)))
            && (Retryable(o.ending) && a.giveUp.None? && o.applied == 0 <==> AsksAgain(s, Given(i, asked), a, First(m.faults), text))
            && o.memory.faults == (if a.begin.None? then Rest(m.faults) else m.faults)
  {
    var given, fault := Given(i, asked), First(m.faults);
    OneAttempt(s, i, asked, m, a, text);
    RunKeepsInvIff(s, given, fault, text);
    hide Inv, Try, BookingBody, Reaches, TablesAt, Schedule, AsksRetry, DurationsOrdered, Longest, Leftover, Retryable;
  }

  lemma RunKeepsInvIff(s: Store, i: BookingInput, fault: Fault, text: Error -> string)
    requires Inv(s)
    ensures Inv(RunOnce(s, i, fault, text).0)
            <==> !(fault.PanicAt? && !fault.point.BeforeInsert? && !fault.point.AfterAudit? && Reaches(s, i, fault.point))
    ensures fault.PanicAt? && Reaches(s, i, fault.point) <==> RunOnce(s, i, fault, text).1.Panic?
  {
    hide Inv, CheckBooking;
    if fault.PanicAt? && Reaches(s, i, fault.point) {
      PanicKeepsInvariantIff(s, i, fault.point);
    }
    ScheduleKeeps(s, i);
  }

  // A retried booking leaves the invariant in place exactly if no attempt that is
  // made panics between the first and the last write with a COMMIT that applies.
  lemma {:induction false} RetriedBookingKeepsInvIff(
    db: Store, i: BookingInput, asked: int, m: Memory, attempts: seq<Attempt<Store>>, text: Error -> string, left: nat)
    requires 0 < left <= |attempts| && OtherClients(attempts, i) && OthersKeepInv(attempts)
    requires Inv(db) && asked >= 0 && Leftover(asked, m.minutes, Longest(db.catalog, i.serviceType))
    ensures Inv(Retry(db, m, attempts, BookingBody(i, text), left).db)
            <==> !exists k: nat :: k < left && BreaksAt(db, Given(i, asked), attempts, m.faults, text, k)
    decreases left
  {
    var first, given, body := attempts[0].others(db), Given(i, asked), BookingBody(i, text);
    var once := Try(first, m, attempts[0], body);
    hide Inv, Try, BookingBody, Retryable, OtherClients, OthersKeepInv, GoesOnPast, AsksAgain, BreaksNow, Breaks, BreaksAt,
      Leftover, Longest, DurationsOrdered, Retry;
    InvOrders(db);
    FirstKeepsInv(db, attempts);
    OthersLater(attempts, i);
    FirstDurations(db, i, attempts);
    OneAttemptKeepsInvIff(first, i, asked, m, attempts[0], text);
    OnceLeaves(db, i, asked, m, attempts, text);
    BreaksStep(db, given, attempts, m.faults, text, left);
    BreaksIs(db, given, attempts, m.faults, text, left);
    if GoesOnPast(db, i, m, attempts, text, left) {
      PastLeaves(db, i, m, attempts, text, left);
      if once.applied == 0 {
        RetriedBookingKeepsInvIff(first, i, asked, once.memory, attempts[1..], text, left - 1);
        BreaksIs(first, given, attempts[1..], once.memory.faults, text, left - 1);
        PastNothing(db, i, given, m, attempts, text, left);
      } else {
        assert Inv(once.db) && i.id in once.db.bookings;
        PastBooking(db, i, m, attempts, text, left);
      }
    } else {
      StopMeans(db, i, given, m, attempts, text, left);
    }
  }

  // The part of OnceSettles that the next attempt needs.
  lemma OnceLeaves(db: Store, i: BookingInput, asked: int, m: Memory, attempts: seq<Attempt<Store>>, text: Error -> string)
    requires attempts != [] && asked >= 0 && DurationsOrdered(attempts[0].others(db).catalog)
    requires Leftover(asked, m.minutes, Longest(attempts[0].others(db).catalog, i.serviceType))
    ensures var first := attempts[0].others(db);
            var once := Try(first, m, attempts[0], BookingBody(i, text));
            && (Retryable(once.ending) && once.applied != 0 ==> i.id in once.db.bookings)
            && (once.applied == 0 ==> once.db == first)
            && Leftover(asked, once.memory.minutes, Longest(first.catalog, i.serviceType))
  {
    OnceSettles(db, i, asked, m, attempts, text);
    hide Settled, RanAt, Schedule, Leftover, Longest, DurationsOrdered, Retryable;
  }

  lemma PastLeaves(db: Store, i: BookingInput, m: Memory, attempts: seq<Attempt<Store>>, text: Error -> string, left: nat)
    requires attempts != [] && GoesOnPast(db, i, m, attempts, text, left)
    ensures left > 1 && attempts[0].giveUp.None?
    ensures Retryable(Try(attempts[0].others(db), m, attempts[0], BookingBody(i, text)).ending)
  {
    hide Try, BookingBody, Retryable;
  }

  lemma PastNothing(
    db: Store, i: BookingInput, given: BookingInput, m: Memory, attempts: seq<Attempt<Store>>, text: Error -> string, left: nat)
    requires 0 < left <= |attempts| && GoesOnPast(db, i, m, attempts, text, left) && left > 1
    requires var first := attempts[0].others(db);
             var once := Try(first, m, attempts[0], BookingBody(i, text));
             && once.db == first
             && (Inv(Retry(first, once.memory, attempts[1..], BookingBody(i, text), left - 1).db)
                 <==> !Breaks(first, given, attempts[1..], once.memory.faults, text, left - 1))
    ensures var first := attempts[0].others(db);
            var once := Try(first, m, attempts[0], BookingBody(i, text));
            Inv(Retry(db, m, attempts, BookingBody(i, text), left).db)
            <==> !Breaks(first, given, attempts[1..], once.memory.faults, text, left - 1)
  {
    hide Inv, Try, BookingBody, Retryable, GoesOnPast, Breaks;
    PastMeans(db, i, m, attempts, text, left);
  }

  lemma PastBooking(db: Store, i: BookingInput, m: Memory, attempts: seq<Attempt<Store>>, text: Error -> string, left: nat)
    requires 0 < left <= |attempts| && GoesOnPast(db, i, m, attempts, text, left)
    requires OtherClients(attempts, i) && OthersKeepInv(attempts)
    requires var once := Try(attempts[0].others(db), m, attempts[0], BookingBody(i, text)).db;
             Inv(once) && i.id in once.bookings
    ensures Inv(Retry(db, m, attempts, BookingBody(i, text), left).db)
  {
    var once := Try(attempts[0].others(db), m, attempts[0], BookingBody(i, text));
    hide Inv, Try, BookingBody, Retryable, OtherClients, OthersKeepInv, GoesOnPast;
    PastMeans(db, i, m, attempts, text, left);
    OthersLater(attempts, i);
    OthersKeepLater(attempts);
    StoredKeepsInv(once.db, i, once.memory, attempts[1..], text, left - 1);
  }

  lemma OthersKeepLater(attempts: seq<Attempt<Store>>)
    requires attempts != [] && OthersKeepInv(attempts)
    ensures OthersKeepInv(attempts[1..])
  {
    hide KeepsInv;
  }

  lemma PastMeans(db: Store, i: BookingInput, m: Memory, attempts: seq<Attempt<Store>>, text: Error -> string, left: nat)
    requires 0 < left <= |attempts| && GoesOnPast(db, i, m, attempts, text, left)
    ensures var body, first := BookingBody(i, text), attempts[0].others(db);
            var once := Try(first, m, attempts[0], body);
            && left > 1 && attempts[0].giveUp.None? && Retryable(once.ending)
            && Retry(db, m, attempts, body, left).db == Retry(once.db, once.memory, attempts[1..], body, left - 1).db
  {
    RetryGoesOn(db, m, attempts, BookingBody(i, text), left);
  }

  lemma StopMeans(
    db: Store, i: BookingInput, given: BookingInput, m: Memory, attempts: seq<Attempt<Store>>, text: Error -> string, left: nat)
    requires 0 < left <= |attempts| && !GoesOnPast(db, i, m, attempts, text, left)
    ensures var body, first := BookingBody(i, text), attempts[0].others(db);
            var once := Try(first, m, attempts[0], body);
            && Retry(db, m, attempts, body, left).db == once.db
            && (left == 1 || attempts[0].giveUp.Some? || !Retryable(once.ending))
            && !Breaks(first, given, attempts[1..], once.memory.faults, text, 0)
  {
    RetryStops(db, m, attempts, BookingBody(i, text), left);
  }

  lemma BreaksIs(
    db: Store, i: BookingInput, attempts: seq<Attempt<Store>>, faults: seq<Fault>, text: Error -> string, left: nat)
    ensures Breaks(db, i, attempts, faults, text, left)
            <==> exists k: nat :: k < left && BreaksAt(db, i, attempts, faults, text, k)
  {
    hide BreaksAt;
  }

  lemma InvOrders(db: Store)
    requires Inv(db)
    ensures DurationsOrdered(db.catalog)
  {
    hide Linked, LedgerDisjoint, Owned, ShiftsCover, ShiftsSound, TimeOffClear, Audited;
  }

  lemma FirstKeepsInv(db: Store, attempts: seq<Attempt<Store>>)
    requires attempts != [] && Inv(db) && OthersKeepInv(attempts)
    ensures Inv(attempts[0].others(db)) && OthersKeepInv(attempts[1..])
  {
    hide Inv;
    assert KeepsInv(attempts[0]);
  }

  lemma StoredKeepsInv(db: Store, i: BookingInput, m: Memory, attempts: seq<Attempt<Store>>, text: Error -> string, left: nat)
    requires 0 < left <= |attempts| && i.id in db.bookings && OtherClients(attempts, i) && OthersKeepInv(attempts) && Inv(db)
    ensures Inv(Retry(db, m, attempts, BookingBody(i, text), left).db)
  {
    var o := Retry(db, m, attempts, BookingBody(i, text), left);
    AfterStored(db, i, m, attempts, text, left);
    OthersOnlyKeeps(db, attempts, o.tries);
  }
}
