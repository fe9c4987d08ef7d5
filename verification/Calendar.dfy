/**
 The technicians' calendar page. Result rows are appended to a slice that was
 allocated with room for all technicians; a map keeps a pointer to each row, and
 three passes append to the rows through those pointers.
 */
module Calendar {
  import opened Outcomes
  import opened LocalClock
  import opened Lifecycle

  // ----- values -----

  datatype Listed = Listed(technician: Id, user: Id, name: string)

  datatype ShiftRow = ShiftRow(technician: Id, startsAt: int, endsAt: int) // clock times in nanoseconds

  datatype AppointmentRow = AppointmentRow(
    technician: Id, appointment: Id, referenceCode: string, startsAt: Instant, endsAt: Instant, status: Status,
    serviceTypeName: string, bay: Id, bayCode: string)

  datatype TimeOffRow = TimeOffRow(technician: Id, startsAt: Instant, endsAt: Instant)

  datatype Interval = Interval(startsAt: int, endsAt: int) // UTC nanoseconds

  datatype Slot =
    | AppointmentSlot(startsAt: Instant, endsAt: Instant, appointment: Id, referenceCode: string, status: Status,
                      serviceTypeName: string, bay: Id, bayCode: string)
    | TimeOffSlot(startsAt: Instant, endsAt: Instant)

  datatype PageRow = PageRow(technician: Id, user: Id, name: string, shifts: seq<Interval>, slots: seq<Slot>)

  datatype Includes = Includes(appointments: bool, timeOff: bool, shifts: bool)

  datatype PageError = InvalidInclude | TechnicianNotFound

  // ----- what each technician should be shown -----

  function ShownShift(r: ShiftRow, date: int, offset: int): Interval {
    Interval(LocalTimeOnDate(date, r.startsAt, offset), LocalTimeOnDate(date, r.endsAt, offset))
  }

  function ShownAppointment(r: AppointmentRow): Slot {
    AppointmentSlot(r.startsAt, r.endsAt, r.appointment, r.referenceCode, r.status, r.serviceTypeName, r.bay, r.bayCode)
  }

  function ShownTimeOff(r: TimeOffRow): Slot {
    TimeOffSlot(r.startsAt, r.endsAt)
  }

  // Of the first n rows fetched, those of one technician, in fetch order.
  function ShiftsOf(technician: Id, fetched: seq<ShiftRow>, n: nat, date: int, offset: int): seq<Interval>
    requires n <= |fetched|
  {
    if n == 0 then [] else
      ShiftsOf(technician, fetched, n - 1, date, offset)
      + if fetched[n - 1].technician == technician then [ShownShift(fetched[n - 1], date, offset)] else []
  }

  function AppointmentsOf(technician: Id, fetched: seq<AppointmentRow>, n: nat): seq<Slot>
    requires n <= |fetched|
  {
    if n == 0 then [] else
      AppointmentsOf(technician, fetched, n - 1)
      + if fetched[n - 1].technician == technician then [ShownAppointment(fetched[n - 1])] else []
  }

  function TimeOffOf(technician: Id, fetched: seq<TimeOffRow>, n: nat): seq<Slot>
    requires n <= |fetched|
  {
    if n == 0 then [] else
      TimeOffOf(technician, fetched, n - 1)
      + if fetched[n - 1].technician == technician then [ShownTimeOff(fetched[n - 1])] else []
  }

  predicate SlotBefore(a: Slot, b: Slot) {
    a.startsAt < b.startsAt || (a.startsAt == b.startsAt && a.endsAt < b.endsAt)
  }

  predicate InOrder(slots: seq<Slot>) {
    forall i, j | 0 <= i < j < |slots| ::
      slots[i].startsAt < slots[j].startsAt || (slots[i].startsAt == slots[j].startsAt && slots[i].endsAt <= slots[j].endsAt)
  }

  // The map ends up pointing at the last row of each technician.
  predicate IsLast(technicians: seq<Listed>, k: nat)
    requires k < |technicians|
  {
    forall j | k < j < |technicians| :: technicians[j].technician != technicians[k].technician
  }

  function EmptyRow(t: Listed): PageRow {
    PageRow(t.technician, t.user, t.name, [], [])
  }

  // ----- slices and pointers -----

  // A Go slice header: a backing array and a length.
  datatype Slice = Slice(block: array<PageRow>, length: nat)

  datatype Pointer = Pointer(block: array<PageRow>, index: nat)

  type Pointers = map<Id, Pointer>

  ghost predicate ValidSlice(s: Slice) {
    s.length <= s.block.Length
  }

  ghost function Contents(s: Slice): seq<PageRow>
    requires ValidSlice(s)
    reads s.block
  {
    s.block[..s.length]
  }

  const BLANK := PageRow(0, 0, "", [], [])

  method Make(capacity: nat) returns (s: Slice)
    ensures ValidSlice(s) && fresh(s.block) && s.block.Length == capacity && Contents(s) == []
  {
    var block := new PageRow[capacity](_ => BLANK);
    s := Slice(block, 0);
  }

  // Go's append: in place while there is room, otherwise into a new block, which
  // leaves older pointers behind.
  method Append(s: Slice, row: PageRow) returns (t: Slice)
    requires ValidSlice(s)
    modifies s.block
    ensures ValidSlice(t) && Contents(t) == old(Contents(s)) + [row]
    ensures s.length < s.block.Length ==> t.block == s.block
    ensures s.length == s.block.Length ==> fresh(t.block) && s.block[..] == old(s.block[..])
  {
    if s.length < s.block.Length {
      s.block[s.length] := row;
      t := Slice(s.block, s.length + 1);
    } else {
      var bigger := new PageRow[2 * s.length + 1](_ => BLANK);
      for i := 0 to s.length
        invariant bigger[..i] == s.block[..i]
        invariant s.block[..] == old(s.block[..])
      {
        bigger[i] := s.block[i];
      }
      bigger[s.length] := row;
      t := Slice(bigger, s.length + 1);
    }
  }

  // Every stored pointer leads into the slice's own block, to a row of its technician.
  ghost predicate InBlock(pointers: Pointers, block: array<PageRow>, technicians: seq<Listed>) {
    && block.Length == |technicians|
    && forall id | id in pointers ::
          && pointers[id].block == block
          && pointers[id].index < |technicians|
          && technicians[pointers[id].index].technician == id
  }

  // The row that the pointer of its technician leads to.
  predicate Owns(pointers: Pointers, technicians: seq<Listed>, k: nat)
    requires k < |technicians|
  {
    technicians[k].technician in pointers && pointers[technicians[k].technician].index == k
  }

  method Build(technicians: seq<Listed>) returns (rows: Slice, pointers: Pointers)
    ensures fresh(rows.block) && rows.block.Length == rows.length
    ensures InBlock(pointers, rows.block, technicians)
    ensures forall k | 0 <= k < |technicians| :: rows.block[k] == EmptyRow(technicians[k])
    ensures forall k | 0 <= k < |technicians| :: Owns(pointers, technicians, k) <==> IsLast(technicians, k)
  {
    rows := Make(|technicians|);
    pointers := map[];
    var block := rows.block;
    for i := 0 to |technicians|
      invariant fresh(block) && rows == Slice(block, i) && block.Length == |technicians|
      invariant |Contents(rows)| == i && forall k | 0 <= k < i :: Contents(rows)[k] == EmptyRow(technicians[k])
      invariant InBlock(pointers, block, technicians)
      invariant forall id | id in pointers :: pointers[id].index < i
      invariant forall k | 0 <= k < i :: technicians[k].technician in pointers && k <= pointers[technicians[k].technician].index
    {
      rows := Append(rows, EmptyRow(technicians[i]));
      pointers := pointers[technicians[i].technician := Pointer(rows.block, rows.length - 1)];
    }
    assert forall k | 0 <= k < |technicians| :: Contents(rows)[k] == block[k];
  }

  // ----- the three passes -----

  method AddShift(block: array<PageRow>, pointers: Pointers, technicians: seq<Listed>, technician: Id, interval: Interval)
    requires InBlock(pointers, block, technicians)
    modifies block
    ensures forall k | 0 <= k < block.Length ::
              block[k] == old(block[k]).(shifts := old(block[k]).shifts +
                if Owns(pointers, technicians, k) && technicians[k].technician == technician then [interval] else [])
  {
    if technician in pointers {
      var p := pointers[technician];
      p.block[p.index] := p.block[p.index].(shifts := p.block[p.index].shifts + [interval]);
    }
  }

  method AddSlot(block: array<PageRow>, pointers: Pointers, technicians: seq<Listed>, technician: Id, slot: Slot)
    requires InBlock(pointers, block, technicians)
    modifies block
    ensures forall k | 0 <= k < block.Length ::
              block[k] == old(block[k]).(slots := old(block[k]).slots +
                if Owns(pointers, technicians, k) && technicians[k].technician == technician then [slot] else [])
  {
    if technician in pointers {
      var p := pointers[technician];
      p.block[p.index] := p.block[p.index].(slots := p.block[p.index].slots + [slot]);
    }
  }

  // What row k has gained after the first n fetched rows.
  function DueShifts(pointers: Pointers, technicians: seq<Listed>, k: nat, fetched: seq<ShiftRow>, n: nat, date: int, offset: int)
    : seq<Interval>
    requires k < |technicians| && n <= |fetched|
  {
    if Owns(pointers, technicians, k) then ShiftsOf(technicians[k].technician, fetched, n, date, offset) else []
  }

  method AppendShifts(block: array<PageRow>, pointers: Pointers, technicians: seq<Listed>,
                      fetched: seq<ShiftRow>, date: int, offset: int)
    requires InBlock(pointers, block, technicians)
    modifies block
    ensures forall k | 0 <= k < block.Length ::
              block[k] == old(block[k]).(shifts := old(block[k]).shifts
                + DueShifts(pointers, technicians, k, fetched, |fetched|, date, offset))
  {
    hide ShownShift, Owns;
    for i := 0 to |fetched|
      invariant forall k | 0 <= k < block.Length ::
                  block[k] == old(block[k]).(shifts := old(block[k]).shifts
                    + DueShifts(pointers, technicians, k, fetched, i, date, offset))
    {
      label next:
      var shown := ShownShift(fetched[i], date, offset);
      AddShift(block, pointers, technicians, fetched[i].technician, shown);
      forall k | 0 <= k < block.Length
        ensures block[k] == old(block[k]).(shifts := old(block[k]).shifts
                  + DueShifts(pointers, technicians, k, fetched, i + 1, date, offset))
      {
        var gains := Owns(pointers, technicians, k) && technicians[k].technician == fetched[i].technician;
        assert block[k].shifts == old@next(block[k]).shifts + if gains then [shown] else [];
      }
    }
  }

  // What row k has gained after the first n fetched rows.
  function DueAppointments(pointers: Pointers, technicians: seq<Listed>, k: nat, fetched: seq<AppointmentRow>, n: nat)
    : seq<Slot>
    requires k < |technicians| && n <= |fetched|
  {
    if Owns(pointers, technicians, k) then AppointmentsOf(technicians[k].technician, fetched, n) else []
  }

  method AppendAppointments(block: array<PageRow>, pointers: Pointers, technicians: seq<Listed>,
                      fetched: seq<AppointmentRow>)
    requires InBlock(pointers, block, technicians)
    modifies block
    ensures forall k | 0 <= k < block.Length ::
              block[k] == old(block[k]).(slots := old(block[k]).slots
                + DueAppointments(pointers, technicians, k, fetched, |fetched|))
  {
    hide ShownAppointment, Owns;
    for i := 0 to |fetched|
      invariant forall k | 0 <= k < block.Length ::
                  block[k] == old(block[k]).(slots := old(block[k]).slots
                    + DueAppointments(pointers, technicians, k, fetched, i))
    {
      label next:
      var shown := ShownAppointment(fetched[i]);
      AddSlot(block, pointers, technicians, fetched[i].technician, shown);
      forall k | 0 <= k < block.Length
        ensures block[k] == old(block[k]).(slots := old(block[k]).slots
                  + DueAppointments(pointers, technicians, k, fetched, i + 1))
      {
        var gains := Owns(pointers, technicians, k) && technicians[k].technician == fetched[i].technician;
        assert block[k].slots == old@next(block[k]).slots + if gains then [shown] else [];
      }
    }
  }

  // What row k has gained after the first n fetched rows.
  function DueTimeOff(pointers: Pointers, technicians: seq<Listed>, k: nat, fetched: seq<TimeOffRow>, n: nat)
    : seq<Slot>
    requires k < |technicians| && n <= |fetched|
  {
    if Owns(pointers, technicians, k) then TimeOffOf(technicians[k].technician, fetched, n) else []
  }

  method AppendTimeOff(block: array<PageRow>, pointers: Pointers, technicians: seq<Listed>,
                      fetched: seq<TimeOffRow>)
    requires InBlock(pointers, block, technicians)
    modifies block
    ensures forall k | 0 <= k < block.Length ::
              block[k] == old(block[k]).(slots := old(block[k]).slots
                + DueTimeOff(pointers, technicians, k, fetched, |fetched|))
  {
    hide ShownTimeOff, Owns;
    for i := 0 to |fetched|
      invariant forall k | 0 <= k < block.Length ::
                  block[k] == old(block[k]).(slots := old(block[k]).slots
                    + DueTimeOff(pointers, technicians, k, fetched, i))
    {
      label next:
      var shown := ShownTimeOff(fetched[i]);
      AddSlot(block, pointers, technicians, fetched[i].technician, shown);
      forall k | 0 <= k < block.Length
        ensures block[k] == old(block[k]).(slots := old(block[k]).slots
                  + DueTimeOff(pointers, technicians, k, fetched, i + 1))
      {
        var gains := Owns(pointers, technicians, k) && technicians[k].technician == fetched[i].technician;
        assert block[k].slots == old@next(block[k]).slots + if gains then [shown] else [];
      }
    }
  }

  // ----- sorting -----

  lemma InsertedInOrder(slots: seq<Slot>, i: nat, s: Slot)
    requires InOrder(slots) && i <= |slots|
    requires i > 0 ==> !SlotBefore(s, slots[i - 1])
    requires forall k | i <= k < |slots| :: SlotBefore(s, slots[k])
    ensures InOrder(slots[..i] + [s] + slots[i..])
  {
    assert forall k | 0 <= k < i :: !SlotBefore(s, slots[k]) by {
      forall k | 0 <= k < i
        ensures !SlotBefore(s, slots[k])
      {
        assert k == i - 1 || !SlotBefore(slots[i - 1], slots[k]);
      }
    }
    var r := slots[..i] + [s] + slots[i..];
    forall x, y | 0 <= x < y < |r|
      ensures !SlotBefore(r[y], r[x])
    {
      assert r[x] == if x < i then slots[x] else if x == i then s else slots[x - 1];
      assert r[y] == if y < i then slots[y] else if y == i then s else slots[y - 1];
    }
  }

  method Insert(slots: seq<Slot>, s: Slot) returns (r: seq<Slot>)
    requires InOrder(slots)
    ensures InOrder(r) && multiset(r) == multiset(slots) + multiset{s}
  {
    var i := |slots|;
    while i > 0 && SlotBefore(s, slots[i - 1])
      invariant 0 <= i <= |slots|
      invariant forall k | i <= k < |slots| :: SlotBefore(s, slots[k])
    {
      i := i - 1;
    }
    InsertedInOrder(slots, i, s);
    r := slots[..i] + [s] + slots[i..];
    assert slots == slots[..i] + slots[i..];
  }

  method SortSlots(slots: seq<Slot>) returns (r: seq<Slot>)
    ensures InOrder(r) && multiset(r) == multiset(slots)
  {
    r := [];
    for i := 0 to |slots|
      invariant InOrder(r) && multiset(r) == multiset(slots[..i])
    {
      assert slots[..i + 1] == slots[..i] + [slots[i]];
      r := Insert(r, slots[i]);
    }
    assert slots[..|slots|] == slots;
  }

  ghost predicate SortedCopy(now: PageRow, was: PageRow) {
    && now == was.(slots := now.slots)
    && InOrder(now.slots)
    && multiset(now.slots) == multiset(was.slots)
  }

  method SortRows(block: array<PageRow>)
    modifies block
    ensures forall k | 0 <= k < block.Length :: SortedCopy(block[k], old(block[k]))
  {
    for i := 0 to block.Length
      invariant forall k | 0 <= k < i :: SortedCopy(block[k], old(block[k]))
      invariant forall k | i <= k < block.Length :: block[k] == old(block[k])
    {
      var sorted := SortSlots(block[i].slots);
      block[i] := block[i].(slots := sorted);
    }
  }

  // ----- the page -----

  predicate KnownInclude(v: string) {
    v == "appointments" || v == "time_off" || v == "shifts"
  }

  method ParseIncludes(values: seq<string>) returns (r: Result<Includes, PageError>)
    ensures r.Ok? <==> forall v | v in values :: KnownInclude(v)
    ensures r.Err? ==> r.error == InvalidInclude
    ensures r.Ok? ==> r.value == if values == [] then Includes(true, true, true)
                                 else Includes("appointments" in values, "time_off" in values, "shifts" in values)
  {
    if values == [] {
      return Ok(Includes(true, true, true));
    }
    var includes := Includes(false, false, false);
    for i := 0 to |values|
      invariant forall v | v in values[..i] :: KnownInclude(v)
      invariant includes == Includes("appointments" in values[..i], "time_off" in values[..i], "shifts" in values[..i])
    {
      assert values[..i + 1] == values[..i] + [values[i]];
      if values[i] == "appointments" {
        includes := includes.(appointments := true);
      } else if values[i] == "time_off" {
        includes := includes.(timeOff := true);
      } else if values[i] == "shifts" {
        includes := includes.(shifts := true);
      } else {
        assert values[i] in values && !KnownInclude(values[i]);
        return Err(InvalidInclude);
      }
    }
    assert values[..|values|] == values;
    r := Ok(includes);
  }

  // What the repository returns for one page.
  datatype Fetched = Fetched(
    technicians: seq<Listed>, shifts: seq<ShiftRow>, appointments: seq<AppointmentRow>, timeOff: seq<TimeOffRow>)

  // What row k must show: everything fetched for its technician if the row is the
  // technician's last one, nothing otherwise.
  function RowShifts(f: Fetched, includes: Includes, date: int, offset: int, k: nat): seq<Interval>
    requires k < |f.technicians|
  {
    if includes.shifts && IsLast(f.technicians, k)
    then ShiftsOf(f.technicians[k].technician, f.shifts, |f.shifts|, date, offset)
    else []
  }

  function RowAppointments(f: Fetched, includes: Includes, k: nat): seq<Slot>
    requires k < |f.technicians|
  {
    if includes.appointments && IsLast(f.technicians, k)
    then AppointmentsOf(f.technicians[k].technician, f.appointments, |f.appointments|)
    else []
  }

  function RowTimeOff(f: Fetched, includes: Includes, k: nat): seq<Slot>
    requires k < |f.technicians|
  {
    if includes.timeOff && IsLast(f.technicians, k)
    then TimeOffOf(f.technicians[k].technician, f.timeOff, |f.timeOff|)
    else []
  }

  ghost predicate IsRow(row: PageRow, f: Fetched, includes: Includes, date: int, offset: int, k: nat)
    requires k < |f.technicians|
  {
    && row.technician == f.technicians[k].technician
    && row.user == f.technicians[k].user
    && row.name == f.technicians[k].name
    && row.shifts == RowShifts(f, includes, date, offset, k)
    && multiset(row.slots) == multiset(RowAppointments(f, includes, k)) + multiset(RowTimeOff(f, includes, k))
    && InOrder(row.slots)
  }

  ghost predicate IsPage(rows: seq<PageRow>, f: Fetched, includes: Includes, date: int, offset: int) {
    && |rows| == |f.technicians|
    && forall k | 0 <= k < |rows| :: IsRow(rows[k], f, includes, date, offset, k)
  }

  method Collect(f: Fetched, includes: Includes, date: int, offset: int) returns (rows: Slice)
    ensures fresh(rows.block) && rows.block.Length == rows.length == |f.technicians|
    ensures forall k | 0 <= k < rows.length ::
              rows.block[k] == EmptyRow(f.technicians[k]).(
                shifts := RowShifts(f, includes, date, offset, k),
                slots := RowAppointments(f, includes, k) + RowTimeOff(f, includes, k))
  {
    hide ShiftsOf, AppointmentsOf, TimeOffOf, Owns, IsLast;
    var pointers;
    rows, pointers := Build(f.technicians);
    var block := rows.block;
    if includes.shifts {
      AppendShifts(block, pointers, f.technicians, f.shifts, date, offset);
    }
    assert forall k | 0 <= k < block.Length ::
        block[k] == EmptyRow(f.technicians[k]).(shifts := RowShifts(f, includes, date, offset, k));
    if includes.appointments {
      AppendAppointments(block, pointers, f.technicians, f.appointments);
    }
    assert forall k | 0 <= k < block.Length ::
        block[k] == EmptyRow(f.technicians[k]).(
          shifts := RowShifts(f, includes, date, offset, k), slots := RowAppointments(f, includes, k));
    if includes.timeOff {
      AppendTimeOff(block, pointers, f.technicians, f.timeOff);
    }
  }

  method Fill(f: Fetched, includes: Includes, date: int, offset: int) returns (rows: seq<PageRow>)
    ensures IsPage(rows, f, includes, date, offset)
  {
    var collected := Collect(f, includes, date, offset);
    label filled:
    SortRows(collected.block);
    rows := collected.block[..collected.length];
    forall k | 0 <= k < |rows|
      ensures IsRow(rows[k], f, includes, date, offset, k)
    {
      assert SortedCopy(rows[k], old@filled(collected.block[k]));
    }
  }

  // List, past its access checks: `wanted` is the optional technician filter.
  method List(wanted: Option<Id>, parts: seq<string>, f: Fetched, date: int, offset: int)
    returns (r: Result<seq<PageRow>, PageError>)
    ensures (exists v :: v in parts && !KnownInclude(v)) <==> r == Err(InvalidInclude)
    ensures r == Err(TechnicianNotFound) <==>
            (forall v | v in parts :: KnownInclude(v)) && wanted.Some? && f.technicians == []
    ensures r.Ok? ==> IsPage(r.value, f,
              if parts == [] then Includes(true, true, true)
              else Includes("appointments" in parts, "time_off" in parts, "shifts" in parts),
              date, offset)
  {
    var includes := ParseIncludes(parts);
    if includes.Err? {
      return Err(InvalidInclude);
    }
    if wanted.Some? && |f.technicians| == 0 {
      return Err(TechnicianNotFound);
    }
    var rows := Fill(f, includes.value, date, offset);
    r := Ok(rows);
  }
}
