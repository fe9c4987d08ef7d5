/**
 What a calendar page promises: it neither loses nor invents a slot, and read
 from a reachable database it shows each technician an ordered day without
 overlaps, inside the technician's shifts.
 */
module CalendarTheorems {
  import opened Outcomes
  import opened LocalClock
  import opened Lifecycle
  import opened Tables
  import opened Ledger
  import opened LedgerInvariant
  import opened LedgerTheorems
  import opened Calendar

  // ----- one tagged list of everything a page may show -----

  datatype Tagged = Tagged(technician: Id, slot: Slot)

  function TaggedAppointments(rows: seq<AppointmentRow>): seq<Tagged> {
    seq(|rows|, i requires 0 <= i < |rows| => Tagged(rows[i].technician, ShownAppointment(rows[i])))
  }

  function TaggedTimeOff(rows: seq<TimeOffRow>): seq<Tagged> {
    seq(|rows|, i requires 0 <= i < |rows| => Tagged(rows[i].technician, ShownTimeOff(rows[i])))
  }

  function Busy(f: Fetched, includes: Includes): seq<Tagged> {
    (if includes.appointments then TaggedAppointments(f.appointments) else [])
    + if includes.timeOff then TaggedTimeOff(f.timeOff) else []
  }

  function OwnedBy(technician: Id, busy: seq<Tagged>): seq<Slot> {
    if busy == [] then [] else
      var n := |busy| - 1;
      OwnedBy(technician, busy[..n]) + if busy[n].technician == technician then [busy[n].slot] else []
  }

  lemma {:induction false} OwnedConcat(technician: Id, a: seq<Tagged>, b: seq<Tagged>)
    ensures OwnedBy(technician, a + b) == OwnedBy(technician, a) + OwnedBy(technician, b)
    decreases b
  {
    if b == [] {
      assert a + b == a;
    } else {
      var n := |b| - 1;
      assert (a + b)[..|a + b| - 1] == a + b[..n];
      OwnedConcat(technician, a, b[..n]);
    }
  }

  lemma {:induction false} OwnedAppointments(technician: Id, rows: seq<AppointmentRow>, n: nat)
    requires n <= |rows|
    ensures OwnedBy(technician, TaggedAppointments(rows)[..n]) == AppointmentsOf(technician, rows, n)
  {
    if n > 0 {
      OwnedAppointments(technician, rows, n - 1);
      assert TaggedAppointments(rows)[..n][..n - 1] == TaggedAppointments(rows)[..n - 1];
    }
  }

  lemma {:induction false} OwnedTimeOff(technician: Id, rows: seq<TimeOffRow>, n: nat)
    requires n <= |rows|
    ensures OwnedBy(technician, TaggedTimeOff(rows)[..n]) == TimeOffOf(technician, rows, n)
  {
    if n > 0 {
      OwnedTimeOff(technician, rows, n - 1);
      assert TaggedTimeOff(rows)[..n][..n - 1] == TaggedTimeOff(rows)[..n - 1];
    }
  }

  // What row k shows, from the tagged list.
  function RowOwned(technicians: seq<Listed>, busy: seq<Tagged>, k: nat): seq<Slot>
    requires k < |technicians|
  {
    if IsLast(technicians, k) then OwnedBy(technicians[k].technician, busy) else []
  }

  lemma RowShowsOwned(row: PageRow, f: Fetched, includes: Includes, date: int, offset: int, k: nat)
    requires k < |f.technicians| && IsRow(row, f, includes, date, offset, k)
    ensures multiset(row.slots) == multiset(RowOwned(f.technicians, Busy(f, includes), k))
  {
    var t := f.technicians[k].technician;
    var a, b := TaggedAppointments(f.appointments), TaggedTimeOff(f.timeOff);
    OwnedAppointments(t, f.appointments, |a|);
    OwnedTimeOff(t, f.timeOff, |b|);
    assert a[..|a|] == a && b[..|b|] == b;
    OwnedConcat(t, if includes.appointments then a else [], if includes.timeOff then b else []);
  }

  // ----- a lossless partition -----

  ghost function Total(rows: seq<PageRow>): multiset<Slot> {
    if rows == [] then multiset{} else
      var n := |rows| - 1; Total(rows[..n]) + multiset(rows[n].slots)
  }

  predicate IsListed(technicians: seq<Listed>, technician: Id) {
    exists k | 0 <= k < |technicians| :: technicians[k].technician == technician
  }

  // The slots of listed technicians; those of anybody else are dropped.
  ghost function ListedSlots(technicians: seq<Listed>, busy: seq<Tagged>): multiset<Slot> {
    if busy == [] then multiset{} else
      var n := |busy| - 1;
      ListedSlots(technicians, busy[..n]) + if IsListed(technicians, busy[n].technician) then multiset{busy[n].slot} else multiset{}
  }

  // The first m rows together.
  ghost function OwnedTotal(technicians: seq<Listed>, busy: seq<Tagged>, m: nat): multiset<Slot>
    requires m <= |technicians|
  {
    if m == 0 then multiset{} else OwnedTotal(technicians, busy, m - 1) + multiset(RowOwned(technicians, busy, m - 1))
  }

  // The last entry of a technician's rows, if there is one among the first m.
  predicate LastAmong(technicians: seq<Listed>, technician: Id, m: nat)
    requires m <= |technicians|
  {
    exists k | 0 <= k < m :: technicians[k].technician == technician && IsLast(technicians, k)
  }

  lemma {:induction false} ListedHasLast(technicians: seq<Listed>, technician: Id, m: nat)
    requires m <= |technicians|
    requires forall k | m <= k < |technicians| :: technicians[k].technician != technician
    ensures LastAmong(technicians, technician, |technicians|) <==> IsListed(technicians, technician)
  {
    if m > 0 {
      if technicians[m - 1].technician == technician {
        assert IsLast(technicians, m - 1);
      } else {
        ListedHasLast(technicians, technician, m - 1);
      }
    }
  }

  predicate TakesNext(technicians: seq<Listed>, technician: Id, k: nat)
    requires k < |technicians|
  {
    technicians[k].technician == technician && IsLast(technicians, k)
  }

  lemma RowGrows(technicians: seq<Listed>, busy: seq<Tagged>, last: Tagged, k: nat)
    requires k < |technicians|
    ensures RowOwned(technicians, busy + [last], k)
            == RowOwned(technicians, busy, k) + if TakesNext(technicians, last.technician, k) then [last.slot] else []
  {
    assert (busy + [last])[..|busy|] == busy;
  }

  lemma OneLast(technicians: seq<Listed>, technician: Id, m: nat)
    requires 0 < m <= |technicians|
    ensures TakesNext(technicians, technician, m - 1) ==>
              !LastAmong(technicians, technician, m - 1) && LastAmong(technicians, technician, m)
    ensures !TakesNext(technicians, technician, m - 1) ==>
              (LastAmong(technicians, technician, m) <==> LastAmong(technicians, technician, m - 1))
  {
  }

  lemma NoneAmongNone(technicians: seq<Listed>, technician: Id)
    ensures !LastAmong(technicians, technician, 0)
  {
  }

  // One more fetched slot goes to exactly one row, or to none.
  lemma {:induction false} OneMoreSlot(technicians: seq<Listed>, busy: seq<Tagged>, last: Tagged, m: nat)
    requires m <= |technicians|
    ensures OwnedTotal(technicians, busy + [last], m)
            == OwnedTotal(technicians, busy, m)
               + if LastAmong(technicians, last.technician, m) then multiset{last.slot} else multiset{}
  {
    hide RowOwned, LastAmong, TakesNext;
    if m == 0 {
      NoneAmongNone(technicians, last.technician);
    } else {
      OneMoreSlot(technicians, busy, last, m - 1);
      RowGrows(technicians, busy, last, m - 1);
      OneLast(technicians, last.technician, m);
    }
  }

  lemma {:induction false} NothingOwnedOfNothing(technicians: seq<Listed>, m: nat)
    requires m <= |technicians|
    ensures OwnedTotal(technicians, [], m) == multiset{}
  {
    if m > 0 {
      NothingOwnedOfNothing(technicians, m - 1);
    }
  }

  lemma {:induction false} OwnedTotalIsListed(technicians: seq<Listed>, busy: seq<Tagged>)
    ensures OwnedTotal(technicians, busy, |technicians|) == ListedSlots(technicians, busy)
    decreases busy
  {
    if busy == [] {
      NothingOwnedOfNothing(technicians, |technicians|);
    } else {
      var n := |busy| - 1;
      assert busy == busy[..n] + [busy[n]];
      OneMoreSlot(technicians, busy[..n], busy[n], |technicians|);
      ListedHasLast(technicians, busy[n].technician, |technicians|);
      OwnedTotalIsListed(technicians, busy[..n]);
    }
  }

  lemma {:induction false} TotalIsOwned(rows: seq<PageRow>, f: Fetched, includes: Includes, date: int, offset: int, m: nat)
    requires IsPage(rows, f, includes, date, offset) && m <= |rows|
    ensures Total(rows[..m]) == OwnedTotal(f.technicians, Busy(f, includes), m)
  {
    hide IsRow, Busy, RowOwned;
    if m > 0 {
      TotalIsOwned(rows, f, includes, date, offset, m - 1);
      RowShowsOwned(rows[m - 1], f, includes, date, offset, m - 1);
      assert rows[..m][..m - 1] == rows[..m - 1];
    }
  }

  // All rows together show every included slot of a listed technician exactly as
  // often as it was fetched, and nothing else, even if a technician is listed twice.
  lemma PageIsLossless(rows: seq<PageRow>, f: Fetched, includes: Includes, date: int, offset: int)
    requires IsPage(rows, f, includes, date, offset)
    ensures Total(rows) == ListedSlots(f.technicians, Busy(f, includes))
  {
    TotalIsOwned(rows, f, includes, date, offset, |rows|);
    assert rows[..|rows|] == rows;
    OwnedTotalIsListed(f.technicians, Busy(f, includes));
  }

  // ----- a page read from the database -----

  // ListTechnicianScheduleAppointments, without its technician filter and ORDER BY.
  predicate AppointmentOnPage(s: Store, dealership: Id, date: int, id: Id) {
    && id in s.bookings
    && s.bookings[id].dealership == dealership
    && IsActive(s.bookings[id])
    && OnCalendarDay(date, s.bookings[id].row.startsAt, s.bookings[id].row.endsAt, Offset(s.catalog, dealership))
  }

  predicate AppointmentRowOf(r: AppointmentRow, b: Booking) {
    && r.technician == b.technician && r.startsAt == b.row.startsAt && r.endsAt == b.row.endsAt
    && r.status == b.row.status && r.bay == b.bay && r.referenceCode == b.referenceCode
  }

  predicate FetchedAppointments(s: Store, dealership: Id, date: int, technicians: seq<Listed>, rows: seq<AppointmentRow>) {
    && (forall i | 0 <= i < |rows| ::
          AppointmentOnPage(s, dealership, date, rows[i].appointment) && AppointmentRowOf(rows[i], s.bookings[rows[i].appointment]))
    && (forall i, j | 0 <= i < j < |rows| :: rows[i].appointment != rows[j].appointment)
    && (forall id | id in s.bookings && AppointmentOnPage(s, dealership, date, id) && IsListed(technicians, s.bookings[id].technician) ::
          exists i | 0 <= i < |rows| :: rows[i].appointment == id)
  }

  // ListTechnicianScheduleTimeOff; `ids` are the keys of the rows it returns.
  predicate TimeOffOnPage(s: Store, dealership: Id, date: int, off: Id) {
    && off in s.timeOff && !s.timeOff[off].deleted
    && OnCalendarDay(date, s.timeOff[off].startsAt, s.timeOff[off].endsAt, Offset(s.catalog, dealership))
  }

  predicate TimeOffRowOf(r: TimeOffRow, item: TimeOff) {
    r.technician == item.technician && r.startsAt == item.startsAt && r.endsAt == item.endsAt
  }

  predicate FetchedTimeOff(s: Store, dealership: Id, date: int, technicians: seq<Listed>, ids: seq<Id>, rows: seq<TimeOffRow>) {
    && |ids| == |rows|
    && (forall i | 0 <= i < |rows| :: TimeOffOnPage(s, dealership, date, ids[i]) && TimeOffRowOf(rows[i], s.timeOff[ids[i]]))
    && (forall i, j | 0 <= i < j < |rows| :: ids[i] != ids[j])
    && (forall off | off in s.timeOff && TimeOffOnPage(s, dealership, date, off) && IsListed(technicians, s.timeOff[off].technician) ::
          exists i | 0 <= i < |rows| :: ids[i] == off)
  }

  // ListTechnicianScheduleShifts of the page's weekday.
  predicate ShiftRowOf(r: ShiftRow, shift: Shift) {
    && r.technician == shift.technician
    && r.startsAt == FromPgTime(shift.window.startsAt) && r.endsAt == FromPgTime(shift.window.endsAt)
  }

  predicate ShiftOnPage(s: Store, date: int, v: Id) {
    v in s.shifts && !s.shifts[v].deleted && s.shifts[v].window.dayOfWeek == ShiftWeekday(date)
  }

  predicate FetchedShifts(s: Store, date: int, technicians: seq<Listed>, rows: seq<ShiftRow>) {
    && (forall v | v in s.shifts && ShiftOnPage(s, date, v) && IsListed(technicians, s.shifts[v].technician) ::
          exists i | 0 <= i < |rows| :: ShiftRowOf(rows[i], s.shifts[v]))
    && (forall i | 0 <= i < |rows| :: exists v | v in s.shifts :: ShiftOnPage(s, date, v) && ShiftRowOf(rows[i], s.shifts[v]))
  }

  ghost predicate IsFetched(s: Store, dealership: Id, date: int, ids: seq<Id>, f: Fetched) {
    && (forall i, j | 0 <= i < j < |f.technicians| :: f.technicians[i].technician != f.technicians[j].technician)
    && FetchedAppointments(s, dealership, date, f.technicians, f.appointments)
    && FetchedTimeOff(s, dealership, date, f.technicians, ids, f.timeOff)
    && FetchedShifts(s, date, f.technicians, f.shifts)
  }

  predicate Proper(a: Slot) {
    a.startsAt < a.endsAt
  }

  predicate Separate(a: Slot, b: Slot) {
    a.endsAt <= b.startsAt || b.endsAt <= a.startsAt
  }

  predicate AllSeparate(slots: seq<Slot>) {
    && (forall x | x in slots :: Proper(x))
    && (forall i, j | 0 <= i < j < |slots| :: Separate(slots[i], slots[j]))
  }

  lemma {:induction false} OwnedOrigin(technician: Id, busy: seq<Tagged>, slot: Slot)
    requires slot in OwnedBy(technician, busy)
    ensures Tagged(technician, slot) in busy
    decreases busy
  {
    if busy != [] {
      var n := |busy| - 1;
      if slot in OwnedBy(technician, busy[..n]) {
        OwnedOrigin(technician, busy[..n], slot);
      }
    }
  }

  lemma {:induction false} OwnedSeparate(technician: Id, busy: seq<Tagged>)
    requires forall x | x in busy :: Proper(x.slot)
    requires forall i, j | 0 <= i < j < |busy| && busy[i].technician == busy[j].technician :: Separate(busy[i].slot, busy[j].slot)
    ensures AllSeparate(OwnedBy(technician, busy))
    decreases busy
  {
    if busy != [] {
      var n := |busy| - 1;
      var before := OwnedBy(technician, busy[..n]);
      OwnedSeparate(technician, busy[..n]);
      assert busy[n] in busy;
      if busy[n].technician == technician {
        forall a | a in before
          ensures Separate(a, busy[n].slot)
        {
          OwnedOrigin(technician, busy[..n], a);
          var i :| 0 <= i < n && busy[i] == Tagged(technician, a);
        }
      }
    }
  }

  lemma {:induction false} OncePerSlot(slots: seq<Slot>, a: Slot)
    requires AllSeparate(slots)
    ensures multiset(slots)[a] <= 1
  {
    if slots != [] {
      var n := |slots| - 1;
      assert slots == slots[..n] + [slots[n]];
      OncePerSlot(slots[..n], a);
      assert slots[n] in slots;
      forall i | 0 <= i < n
        ensures slots[i] != slots[n]
      {
        assert Separate(slots[i], slots[n]) && Proper(slots[n]);
      }
      assert slots[n] !in slots[..n];
    }
  }

  lemma TwiceCounts(slots: seq<Slot>, x: nat, y: nat)
    requires x < y < |slots| && slots[x] == slots[y]
    ensures multiset(slots)[slots[x]] >= 2
  {
    assert slots == slots[..y] + [slots[y]] + slots[y + 1..];
    assert slots[x] in slots[..y];
  }

  // Separate slots, put in any order that starts earlier ones first, follow each
  // other.
  lemma SortedFollow(owned: seq<Slot>, slots: seq<Slot>, x: nat, y: nat)
    requires AllSeparate(owned) && multiset(slots) == multiset(owned) && InOrder(slots) && x < y < |slots|
    ensures slots[x].endsAt <= slots[y].startsAt
  {
    var a, b := slots[x], slots[y];
    if a == b {
      TwiceCounts(slots, x, y);
      OncePerSlot(owned, a);
      assert false;
    } else {
      assert a in multiset(slots) && b in multiset(slots);
      assert a in multiset(owned) && b in multiset(owned);
      var i :| 0 <= i < |owned| && owned[i] == a;
      var j :| 0 <= j < |owned| && owned[j] == b;
      assert Separate(a, b) by {
        assert i < j ==> Separate(owned[i], owned[j]);
        assert j < i ==> Separate(owned[j], owned[i]);
      }
      assert Proper(a) && Proper(b) && !SlotBefore(b, a);
    }
  }

  lemma AppointmentsSeparate(s: Store, dealership: Id, date: int, technicians: seq<Listed>, rows: seq<AppointmentRow>)
    requires LedgerTheorems.Reachable(s) && FetchedAppointments(s, dealership, date, technicians, rows)
    ensures forall r | r in rows :: r.startsAt < r.endsAt
    ensures forall i, j | 0 <= i < j < |rows| && rows[i].technician == rows[j].technician ::
              Separate(ShownAppointment(rows[i]), ShownAppointment(rows[j]))
  {
    forall i | 0 <= i < |rows|
      ensures rows[i].startsAt < rows[i].endsAt
    {
      BookingsAreProper(s, rows[i].appointment);
    }
    forall i, j | 0 <= i < j < |rows| && rows[i].technician == rows[j].technician
      ensures Separate(ShownAppointment(rows[i]), ShownAppointment(rows[j]))
    {
      NoDoubleBooking(s, rows[i].appointment, rows[j].appointment);
    }
  }

  lemma BookingsAreProper(s: Store, id: Id)
    requires LedgerTheorems.Reachable(s) && id in s.bookings
    ensures s.bookings[id].row.startsAt < s.bookings[id].row.endsAt
    ensures id in s.bookings && s.bookings[id].technician in s.catalog.technicians
  {
    ReachableHolds(s);
    assert InCatalog(s.catalog, s.bookings[id]);
  }

  lemma TimeOffSeparate(s: Store, dealership: Id, date: int, technicians: seq<Listed>, ids: seq<Id>, rows: seq<TimeOffRow>)
    requires LedgerTheorems.Reachable(s) && FetchedTimeOff(s, dealership, date, technicians, ids, rows)
    ensures forall r | r in rows :: r.startsAt < r.endsAt
    ensures forall i, j | 0 <= i < j < |rows| && rows[i].technician == rows[j].technician ::
              Separate(ShownTimeOff(rows[i]), ShownTimeOff(rows[j]))
  {
    ReachableTimeOff(s);
    forall i, j | 0 <= i < j < |rows| && rows[i].technician == rows[j].technician
      ensures Separate(ShownTimeOff(rows[i]), ShownTimeOff(rows[j]))
    {
      assert LiveTimeOffOf(s.timeOff, ids[i], rows[i].technician) && LiveTimeOffOf(s.timeOff, ids[j], rows[j].technician);
    }
  }

  lemma MixedSeparate(s: Store, dealership: Id, date: int, ids: seq<Id>, f: Fetched, i: nat, j: nat)
    requires LedgerTheorems.Reachable(s) && IsFetched(s, dealership, date, ids, f)
    requires i < |f.appointments| && j < |f.timeOff| && f.appointments[i].technician == f.timeOff[j].technician
    ensures Separate(ShownAppointment(f.appointments[i]), ShownTimeOff(f.timeOff[j]))
  {
    TimeOffNeverClashes(s, f.appointments[i].appointment, ids[j]);
  }

  lemma BusyProper(s: Store, dealership: Id, date: int, ids: seq<Id>, f: Fetched, includes: Includes)
    requires LedgerTheorems.Reachable(s) && IsFetched(s, dealership, date, ids, f)
    ensures forall x | x in Busy(f, includes) :: Proper(x.slot)
  {
    AppointmentsSeparate(s, dealership, date, f.technicians, f.appointments);
    TimeOffSeparate(s, dealership, date, f.technicians, ids, f.timeOff);
    hide IsFetched;
    forall x | x in Busy(f, includes)
      ensures Proper(x.slot)
    {
      if x in TaggedAppointments(f.appointments) {
        var i :| 0 <= i < |f.appointments| && TaggedAppointments(f.appointments)[i] == x;
        assert f.appointments[i] in f.appointments;
      } else {
        var i :| 0 <= i < |f.timeOff| && TaggedTimeOff(f.timeOff)[i] == x;
        assert f.timeOff[i] in f.timeOff;
      }
    }
  }

  lemma BusyAt(f: Fetched, includes: Includes, i: nat)
    requires i < |Busy(f, includes)|
    ensures var n := if includes.appointments then |f.appointments| else 0;
            var busy := Busy(f, includes)[i];
            && (i < n ==> busy == Tagged(f.appointments[i].technician, ShownAppointment(f.appointments[i])))
            && (i >= n ==> i - n < |f.timeOff| && busy == Tagged(f.timeOff[i - n].technician, ShownTimeOff(f.timeOff[i - n])))
  {
  }

  lemma BusySeparate(s: Store, dealership: Id, date: int, ids: seq<Id>, f: Fetched, includes: Includes)
    requires LedgerTheorems.Reachable(s) && IsFetched(s, dealership, date, ids, f)
    ensures var busy := Busy(f, includes);
            forall i, j | 0 <= i < j < |busy| && busy[i].technician == busy[j].technician :: Separate(busy[i].slot, busy[j].slot)
  {
    AppointmentsSeparate(s, dealership, date, f.technicians, f.appointments);
    TimeOffSeparate(s, dealership, date, f.technicians, ids, f.timeOff);
    hide Busy, IsFetched, Separate, LedgerTheorems.Reachable, ShownAppointment, ShownTimeOff;
    var busy := Busy(f, includes);
    var n := if includes.appointments then |f.appointments| else 0;
    forall i, j | 0 <= i < j < |busy| && busy[i].technician == busy[j].technician
      ensures Separate(busy[i].slot, busy[j].slot)
    {
      BusyAt(f, includes, i);
      BusyAt(f, includes, j);
      if i < n <= j {
        MixedSeparate(s, dealership, date, ids, f, i, j - n);
      }
    }
  }

  // Read from a reachable database, each row's slots follow one another: no two of
  // them overlap, whatever their kinds.
  lemma SlotsFollow(
    s: Store, dealership: Id, date: int, ids: seq<Id>, f: Fetched, includes: Includes, rows: seq<PageRow>, offset: int,
    k: nat, x: nat, y: nat)
    requires LedgerTheorems.Reachable(s) && IsFetched(s, dealership, date, ids, f)
    requires IsPage(rows, f, includes, date, offset) && k < |rows| && x < y < |rows[k].slots|
    ensures rows[k].slots[x].endsAt <= rows[k].slots[y].startsAt
  {
    var busy := Busy(f, includes);
    BusyProper(s, dealership, date, ids, f, includes);
    BusySeparate(s, dealership, date, ids, f, includes);
    OwnedSeparate(f.technicians[k].technician, busy);
    RowShowsOwned(rows[k], f, includes, date, offset, k);
    SortedFollow(RowOwned(f.technicians, busy, k), rows[k].slots, x, y);
  }

  lemma {:induction false} OwnedMember(technician: Id, busy: seq<Tagged>, i: nat)
    requires i < |busy| && busy[i].technician == technician
    ensures busy[i].slot in OwnedBy(technician, busy)
    decreases busy
  {
    var n := |busy| - 1;
    if i < n {
      OwnedMember(technician, busy[..n], i);
    }
  }

  predicate ShowsBooking(row: PageRow, id: Id, b: Booking) {
    exists slot | slot in row.slots ::
      slot.AppointmentSlot? && slot.appointment == id && slot.startsAt == b.row.startsAt && slot.endsAt == b.row.endsAt
      && slot.status == b.row.status && slot.bay == b.bay && slot.referenceCode == b.referenceCode
  }

  lemma AppointmentOrigin(technician: Id, f: Fetched, includes: Includes, slot: Slot) returns (i: nat)
    requires slot.AppointmentSlot? && slot in OwnedBy(technician, Busy(f, includes))
    ensures i < |f.appointments| && f.appointments[i].technician == technician && ShownAppointment(f.appointments[i]) == slot
  {
    var busy := Busy(f, includes);
    OwnedOrigin(technician, busy, slot);
    i :| 0 <= i < |busy| && busy[i] == Tagged(technician, slot);
  }

  lemma RowMembers(f: Fetched, includes: Includes, row: PageRow, date: int, offset: int, k: nat, slot: Slot)
    requires k < |f.technicians| && IsRow(row, f, includes, date, offset, k) && IsLast(f.technicians, k)
    ensures slot in row.slots <==> slot in OwnedBy(row.technician, Busy(f, includes))
  {
    RowShowsOwned(row, f, includes, date, offset, k);
    hide IsRow, IsLast, Busy;
    assert slot in row.slots <==> slot in multiset(row.slots);
  }

  lemma AppointmentIsBusy(f: Fetched, includes: Includes, i: nat)
    requires includes.appointments && i < |f.appointments|
    ensures ShownAppointment(f.appointments[i]) in OwnedBy(f.appointments[i].technician, Busy(f, includes))
  {
    assert Busy(f, includes)[i] == Tagged(f.appointments[i].technician, ShownAppointment(f.appointments[i]));
    OwnedMember(f.appointments[i].technician, Busy(f, includes), i);
  }

  lemma ShownWhenDue(
    s: Store, dealership: Id, date: int, f: Fetched, includes: Includes, row: PageRow, offset: int, k: nat, id: Id)
    requires FetchedAppointments(s, dealership, date, f.technicians, f.appointments) && includes.appointments
    requires k < |f.technicians| && IsRow(row, f, includes, date, offset, k) && IsLast(f.technicians, k)
    requires id in s.bookings
    requires AppointmentOnPage(s, dealership, date, id) && s.bookings[id].technician == row.technician
    ensures ShowsBooking(row, id, s.bookings[id])
  {
    hide OnCalendarDay, IsLast, Busy;
    assert IsListed(f.technicians, row.technician);
    var i :| 0 <= i < |f.appointments| && f.appointments[i].appointment == id;
    assert AppointmentRowOf(f.appointments[i], s.bookings[id]);
    hide FetchedAppointments, AppointmentOnPage, IsListed;
    var slot := ShownAppointment(f.appointments[i]);
    AppointmentIsBusy(f, includes, i);
    RowMembers(f, includes, row, date, offset, k, slot);
    hide IsRow;
  }

  lemma DueWhenShown(
    s: Store, dealership: Id, date: int, f: Fetched, includes: Includes, row: PageRow, offset: int, k: nat, id: Id)
    requires FetchedAppointments(s, dealership, date, f.technicians, f.appointments)
    requires k < |f.technicians| && IsRow(row, f, includes, date, offset, k) && IsLast(f.technicians, k)
    requires id in s.bookings && ShowsBooking(row, id, s.bookings[id])
    ensures AppointmentOnPage(s, dealership, date, id) && s.bookings[id].technician == row.technician
  {
    var slot :| slot in row.slots && slot.AppointmentSlot? && slot.appointment == id;
    RowMembers(f, includes, row, date, offset, k, slot);
    var i := AppointmentOrigin(row.technician, f, includes, slot);
    hide IsRow, IsLast, ShowsBooking, Busy;
    assert AppointmentOnPage(s, dealership, date, f.appointments[i].appointment);
  }

  // The slot carries every column of a fetched row of the technician.
  predicate Carries(slot: Slot, r: AppointmentRow, technician: Id) {
    && r.technician == technician && slot.AppointmentSlot?
    && slot.appointment == r.appointment && slot.referenceCode == r.referenceCode
    && slot.startsAt == r.startsAt && slot.endsAt == r.endsAt && slot.status == r.status
    && slot.serviceTypeName == r.serviceTypeName && slot.bay == r.bay && slot.bayCode == r.bayCode
  }

  // The appointments in a technician's last row are the fetched ones of the
  // technician, with all their columns.
  lemma ShowsFetched(
    rows: seq<PageRow>, f: Fetched, includes: Includes, date: int, offset: int, k: nat, slot: Slot)
    requires IsPage(rows, f, includes, date, offset) && k < |rows| && IsLast(f.technicians, k)
    requires includes.appointments && slot.AppointmentSlot?
    ensures slot in rows[k].slots <==> exists i | 0 <= i < |f.appointments| :: Carries(slot, f.appointments[i], rows[k].technician)
  {
    var technician := rows[k].technician;
    assert IsRow(rows[k], f, includes, date, offset, k);
    hide IsPage, IsRow, IsLast;
    RowMembers(f, includes, rows[k], date, offset, k, slot);
    if slot in OwnedBy(technician, Busy(f, includes)) {
      var i := AppointmentOrigin(technician, f, includes, slot);
      assert Carries(slot, f.appointments[i], technician);
    }
    if i: nat :| i < |f.appointments| && Carries(slot, f.appointments[i], technician) {
      AppointmentIsBusy(f, includes, i);
    }
  }

  // A technician's row shows a booking, with its own columns, exactly
  // when the booking is active, the technician's, and on the page's day.
  lemma ShowsExactly(
    s: Store, dealership: Id, date: int, ids: seq<Id>, f: Fetched, includes: Includes, rows: seq<PageRow>, offset: int,
    k: nat, id: Id)
    requires IsFetched(s, dealership, date, ids, f) && includes.appointments
    requires IsPage(rows, f, includes, date, offset) && k < |rows| && id in s.bookings
    ensures ShowsBooking(rows[k], id, s.bookings[id])
            <==> AppointmentOnPage(s, dealership, date, id) && s.bookings[id].technician == rows[k].technician
  {
    assert IsRow(rows[k], f, includes, date, offset, k) && IsLast(f.technicians, k);
    hide IsRow, IsLast, IsPage, ShowsBooking, AppointmentOnPage, FetchedAppointments, FetchedTimeOff, FetchedShifts;
    if ShowsBooking(rows[k], id, s.bookings[id]) {
      DueWhenShown(s, dealership, date, f, includes, rows[k], offset, k, id);
    }
    if AppointmentOnPage(s, dealership, date, id) && s.bookings[id].technician == rows[k].technician {
      ShownWhenDue(s, dealership, date, f, includes, rows[k], offset, k, id);
    }
  }

  predicate Around(interval: Interval, startsAt: Instant, endsAt: Instant) {
    interval.startsAt <= startsAt * NANOS_PER_MICRO && endsAt * NANOS_PER_MICRO <= interval.endsAt
  }

  lemma {:induction false} ShiftMember(technician: Id, fetched: seq<ShiftRow>, n: nat, date: int, offset: int, i: nat)
    requires i < n <= |fetched| && fetched[i].technician == technician
    ensures ShownShift(fetched[i], date, offset) in ShiftsOf(technician, fetched, n, date, offset)
  {
    if i < n - 1 {
      ShiftMember(technician, fetched, n - 1, date, offset, i);
    }
  }

  // Every booking a row shows that has not ended lies inside a shift the row shows.
  lemma ShownInsideShift(
    s: Store, dealership: Id, date: int, ids: seq<Id>, f: Fetched, includes: Includes, rows: seq<PageRow>, k: nat, id: Id)
    requires LedgerTheorems.Reachable(s) && IsFetched(s, dealership, date, ids, f)
    requires includes.appointments && includes.shifts
    requires IsPage(rows, f, includes, date, Offset(s.catalog, dealership)) && k < |rows|
    requires id in s.bookings && ShowsBooking(rows[k], id, s.bookings[id]) && s.bookings[id].row.endsAt > s.clock
    ensures exists interval | interval in rows[k].shifts ::
              Around(interval, s.bookings[id].row.startsAt, s.bookings[id].row.endsAt)
  {
    var b, offset := s.bookings[id], Offset(s.catalog, dealership);
    ShowsExactly(s, dealership, date, ids, f, includes, rows, offset, k, id);
    OnOneCalendar(s, id, date);
    var shift := InExactlyOneShift(s, id);
    CalendarShiftBounds(s.shifts[shift].window, date, b.row.startsAt, b.row.endsAt, offset);
    assert IsRow(rows[k], f, includes, date, offset, k) && IsLast(f.technicians, k);
    assert IsListed(f.technicians, b.technician);
    var i :| 0 <= i < |f.shifts| && ShiftRowOf(f.shifts[i], s.shifts[shift]);
    ShiftMember(b.technician, f.shifts, |f.shifts|, date, offset, i);
    assert Around(ShownShift(f.shifts[i], date, offset), b.row.startsAt, b.row.endsAt);
  }

  lemma {:induction false} ShiftOrigin(technician: Id, fetched: seq<ShiftRow>, n: nat, date: int, offset: int, interval: Interval)
    returns (i: nat)
    requires n <= |fetched| && interval in ShiftsOf(technician, fetched, n, date, offset)
    ensures i < n && fetched[i].technician == technician && ShownShift(fetched[i], date, offset) == interval
  {
    if n > 0 && interval in ShiftsOf(technician, fetched, n - 1, date, offset) {
      i := ShiftOrigin(technician, fetched, n - 1, date, offset, interval);
    } else {
      i := n - 1;
    }
  }

  // The UTC interval of a stored shift on a date.
  function ShiftInterval(w: Window, date: int, offset: int): Interval {
    Interval(date * NANOS_PER_DAY + (w.startsAt - offset) * NANOS_PER_MICRO,
             date * NANOS_PER_DAY + (w.endsAt - offset) * NANOS_PER_MICRO)
  }

  lemma ShownShiftIs(r: ShiftRow, shift: Shift, date: int, offset: int)
    requires ShiftRowOf(r, shift)
    ensures ShownShift(r, date, offset) == ShiftInterval(shift.window, date, offset)
  {
    LocalTimeOnDateExact(date, r.startsAt, offset);
    LocalTimeOnDateExact(date, r.endsAt, offset);
  }

  predicate IsShiftInterval(s: Store, technician: Id, date: int, offset: int, v: Id, interval: Interval) {
    && v in s.shifts && s.shifts[v].technician == technician
    && ShiftOnPage(s, date, v)
    && interval == ShiftInterval(s.shifts[v].window, date, offset)
  }

  // The intervals a row shows are the live shifts of its technician on the page's
  // weekday, all of them and no others.
  lemma ShowsLiveShifts(
    s: Store, dealership: Id, date: int, ids: seq<Id>, f: Fetched, includes: Includes, rows: seq<PageRow>, offset: int,
    k: nat, interval: Interval)
    requires IsFetched(s, dealership, date, ids, f) && includes.shifts
    requires IsPage(rows, f, includes, date, offset) && k < |rows|
    ensures interval in rows[k].shifts <==> exists v :: IsShiftInterval(s, rows[k].technician, date, offset, v, interval)
  {
    var technician := f.technicians[k].technician;
    assert IsRow(rows[k], f, includes, date, offset, k) && IsLast(f.technicians, k);
    assert IsListed(f.technicians, technician);
    assert FetchedShifts(s, date, f.technicians, f.shifts);
    hide IsFetched, IsRow, IsPage, IsLast, IsListed;
    if interval in rows[k].shifts {
      var i := ShiftOrigin(technician, f.shifts, |f.shifts|, date, offset, interval);
      var v :| v in s.shifts && ShiftOnPage(s, date, v) && ShiftRowOf(f.shifts[i], s.shifts[v]);
      ShownShiftIs(f.shifts[i], s.shifts[v], date, offset);
      assert IsShiftInterval(s, technician, date, offset, v, interval);
    }
    if exists v :: IsShiftInterval(s, technician, date, offset, v, interval) {
      var v :| IsShiftInterval(s, technician, date, offset, v, interval);
      var i :| 0 <= i < |f.shifts| && ShiftRowOf(f.shifts[i], s.shifts[v]);
      ShownShiftIs(f.shifts[i], s.shifts[v], date, offset);
      ShiftMember(technician, f.shifts, |f.shifts|, date, offset, i);
    }
  }

  lemma TimeOffOrigin(technician: Id, f: Fetched, includes: Includes, slot: Slot) returns (i: nat)
    requires slot.TimeOffSlot? && slot in OwnedBy(technician, Busy(f, includes))
    ensures i < |f.timeOff| && f.timeOff[i].technician == technician && ShownTimeOff(f.timeOff[i]) == slot
  {
    var busy := Busy(f, includes);
    OwnedOrigin(technician, busy, slot);
    var k :| 0 <= k < |busy| && busy[k] == Tagged(technician, slot);
    BusyAt(f, includes, k);
    i := k - if includes.appointments then |f.appointments| else 0;
  }

  predicate IsTimeOffSlot(s: Store, dealership: Id, date: int, technician: Id, off: Id, slot: Slot) {
    && TimeOffOnPage(s, dealership, date, off) && s.timeOff[off].technician == technician
    && slot == TimeOffSlot(s.timeOff[off].startsAt, s.timeOff[off].endsAt)
  }

  lemma TimeOffIsBusy(f: Fetched, includes: Includes, i: nat)
    requires includes.timeOff && i < |f.timeOff|
    ensures ShownTimeOff(f.timeOff[i]) in OwnedBy(f.timeOff[i].technician, Busy(f, includes))
  {
    var n := if includes.appointments then |f.appointments| else 0;
    assert Busy(f, includes)[n + i] == Tagged(f.timeOff[i].technician, ShownTimeOff(f.timeOff[i]));
    OwnedMember(f.timeOff[i].technician, Busy(f, includes), n + i);
  }

  lemma TimeOffShownWhenDue(
    s: Store, dealership: Id, date: int, ids: seq<Id>, f: Fetched, includes: Includes, row: PageRow, offset: int, k: nat,
    off: Id, slot: Slot)
    requires FetchedTimeOff(s, dealership, date, f.technicians, ids, f.timeOff) && includes.timeOff
    requires k < |f.technicians| && IsRow(row, f, includes, date, offset, k) && IsLast(f.technicians, k)
    requires IsTimeOffSlot(s, dealership, date, row.technician, off, slot)
    ensures slot in row.slots
  {
    hide OnCalendarDay, IsLast, Busy;
    RowMembers(f, includes, row, date, offset, k, slot);
    assert IsListed(f.technicians, row.technician);
    hide IsRow, IsListed;
    var i :| 0 <= i < |f.timeOff| && ids[i] == off;
    assert TimeOffRowOf(f.timeOff[i], s.timeOff[off]);
    hide FetchedTimeOff;
    TimeOffIsBusy(f, includes, i);
  }

  // A row shows a time-off slot exactly when it is live time off of the technician
  // on that day.
  lemma ShowsLiveTimeOff(
    s: Store, dealership: Id, date: int, ids: seq<Id>, f: Fetched, includes: Includes, rows: seq<PageRow>, offset: int,
    k: nat, slot: Slot)
    requires IsFetched(s, dealership, date, ids, f) && includes.timeOff && slot.TimeOffSlot?
    requires IsPage(rows, f, includes, date, offset) && k < |rows|
    ensures slot in rows[k].slots <==> exists off :: IsTimeOffSlot(s, dealership, date, rows[k].technician, off, slot)
  {
    assert IsRow(rows[k], f, includes, date, offset, k) && IsLast(f.technicians, k);
    assert FetchedTimeOff(s, dealership, date, f.technicians, ids, f.timeOff);
    hide IsFetched, IsPage, IsRow, IsLast, TimeOffOnPage, Busy;
    if slot in rows[k].slots {
      RowMembers(f, includes, rows[k], date, offset, k, slot);
      var i := TimeOffOrigin(rows[k].technician, f, includes, slot);
      assert IsTimeOffSlot(s, dealership, date, rows[k].technician, ids[i], slot);
    }
    if exists off :: IsTimeOffSlot(s, dealership, date, rows[k].technician, off, slot) {
      var off :| IsTimeOffSlot(s, dealership, date, rows[k].technician, off, slot);
      TimeOffShownWhenDue(s, dealership, date, ids, f, includes, rows[k], offset, k, off, slot);
    }
  }
}
