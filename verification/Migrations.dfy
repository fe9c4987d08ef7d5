/**
 The migration runner: files in string order, the version that a file name starts
 with, one transaction per file, one row that remembers the last version.
 */
module Migrations {
  import opened Integers
  import opened Outcomes
  import opened Text

  // ----- file names -----

  // The part before the first underscore.
  function CutPrefix(name: string): Option<string> {
    if name == "" then None
    else if name[0] == '_' then Some("")
    else
      match CutPrefix(name[1..])
      case None => None
      case Some(rest) => Some([name[0]] + rest)
  }

  predicate AllDigits(s: string) {
    forall k | 0 <= k < |s| :: IsDigit(s[k])
  }

  function Pow10(n: nat): (p: nat)
    ensures p > 0
  {
    if n == 0 then 1 else 10 * Pow10(n - 1)
  }

  function Value(s: string): int
    requires AllDigits(s)
  {
    if s == "" then 0 else (s[0] as int - '0' as int) * Pow10(|s| - 1) + Value(s[1..])
  }

  // strconv.ParseInt(s, 10, 64)
  function ParseInt64(s: string): Option<int> {
    var signed := s != "" && (s[0] == '+' || s[0] == '-');
    var digits := if signed then s[1..] else s;
    if digits == "" || !AllDigits(digits) then None
    else
      var v := if signed && s[0] == '-' then -Value(digits) else Value(digits);
      if -TWO_63 <= v < TWO_63 then Some(v) else None
  }

  function Version(name: string): Option<int> {
    match CutPrefix(name)
    case None => None
    case Some(prefix) => ParseInt64(prefix)
  }

  predicate IsVersionName(name: string, sign: string, digits: string, rest: string) {
    sign in ["", "+", "-"] && digits != "" && AllDigits(digits) && name == sign + digits + "_" + rest
  }

  lemma {:induction false} CutsAtFirst(name: string, prefix: string, rest: string)
    requires '_' !in prefix && name == prefix + "_" + rest
    ensures CutPrefix(name) == Some(prefix)
    decreases prefix
  {
    if prefix != "" {
      assert name[0] == prefix[0] && prefix[0] in prefix;
      assert name[1..] == prefix[1..] + "_" + rest;
      assert prefix == [prefix[0]] + prefix[1..];
      CutsAtFirst(name[1..], prefix[1..], rest);
    }
  }

  lemma {:induction false} CutIs(name: string)
    ensures CutPrefix(name).Some? ==>
              var prefix := CutPrefix(name).value;
              |prefix| < |name| && name == prefix + "_" + name[|prefix| + 1..]
  {
    if name != "" && name[0] != '_' && CutPrefix(name[1..]).Some? {
      CutIs(name[1..]);
    }
  }

  function Signed(sign: string, digits: string): int
    requires AllDigits(digits)
  {
    if sign == "-" then -Value(digits) else Value(digits)
  }

  lemma ParsesSigned(sign: string, digits: string)
    requires sign in ["", "+", "-"] && digits != "" && AllDigits(digits)
    ensures '_' !in sign + digits
    ensures ParseInt64(sign + digits) ==
            if -TWO_63 <= Signed(sign, digits) < TWO_63 then Some(Signed(sign, digits)) else None
  {
    hide Value;
    var s := sign + digits;
    assert forall k | 0 <= k < |digits| :: IsDigit(digits[k]);
    if sign == "" {
      assert s == digits && IsDigit(digits[0]);
    } else {
      assert s[0] == sign[0] && s[1..] == digits;
    }
  }

  lemma SplitSign(s: string) returns (sign: string, digits: string)
    requires ParseInt64(s).Some?
    ensures s == sign + digits && sign in ["", "+", "-"] && digits != "" && AllDigits(digits)
  {
    if s[0] == '+' || s[0] == '-' {
      sign, digits := s[..1], s[1..];
      assert s[..1] == [s[0]];
    } else {
      sign, digits := "", s;
    }
  }

  // The names with a version are an optional sign, digits and an underscore at the
  // beginning, as long as the number fits an int64.
  lemma VersionIs(name: string, v: int)
    ensures Version(name) == Some(v) <==>
            -TWO_63 <= v < TWO_63 &&
            exists sign, digits, rest :: IsVersionName(name, sign, digits, rest) && v == Signed(sign, digits)
  {
    hide CutPrefix, ParseInt64, Signed;
    if Version(name).Some? {
      CutIs(name);
      var prefix := CutPrefix(name).value;
      var sign, digits := SplitSign(prefix);
      ParsesSigned(sign, digits);
      assert IsVersionName(name, sign, digits, name[|prefix| + 1..]);
    }
    if sign, digits, rest :| IsVersionName(name, sign, digits, rest) && v == Signed(sign, digits) {
      ParsesSigned(sign, digits);
      CutsAtFirst(name, sign + digits, rest);
    }
  }

  // Digits are read in base ten.
  lemma {:induction false} ReadsDecimal(s: string, c: char)
    requires AllDigits(s) && IsDigit(c)
    ensures AllDigits(s + [c]) && Value(s + [c]) == 10 * Value(s) + (c as int - '0' as int)
  {
    var all := s + [c];
    if s == "" {
      assert all[1..] == "" && Pow10(0) == 1;
    } else {
      assert all[1..] == s[1..] + [c];
      ReadsDecimal(s[1..], c);
      assert Pow10(|s|) == 10 * Pow10(|s| - 1);
      TenTimes(s[0] as int - '0' as int, Pow10(|s| - 1));
    }
  }

  lemma TenTimes(d: int, unit: int)
    ensures d * (10 * unit) == 10 * (d * unit)
  {
  }

  // ----- string order -----

  predicate NotAfter(a: string, b: string) {
    a == "" || (b != "" && (a[0] < b[0] || (a[0] == b[0] && NotAfter(a[1..], b[1..]))))
  }

  lemma {:induction false} OrderIsTotal(a: string, b: string)
    ensures NotAfter(a, b) || NotAfter(b, a)
  {
    if a != "" && b != "" && a[0] == b[0] {
      OrderIsTotal(a[1..], b[1..]);
    }
  }

  lemma {:induction false} OrderIsTransitive(a: string, b: string, c: string)
    requires NotAfter(a, b) && NotAfter(b, c)
    ensures NotAfter(a, c)
  {
    if a != "" && a[0] == b[0] == c[0] {
      OrderIsTransitive(a[1..], b[1..], c[1..]);
    }
  }

  predicate InStringOrder(files: seq<string>) {
    forall i, j | 0 <= i < j < |files| :: NotAfter(files[i], files[j])
  }

  function InsertFile(files: seq<string>, file: string): (r: seq<string>)
    ensures multiset(r) == multiset(files) + multiset{file}
  {
    if files == [] || NotAfter(file, files[0]) then [file] + files
    else
      assert files == [files[0]] + files[1..];
      [files[0]] + InsertFile(files[1..], file)
  }

  // sort.Strings
  function SortFiles(files: seq<string>): (r: seq<string>)
    ensures multiset(r) == multiset(files)
  {
    if files == [] then []
    else
      assert files == [files[0]] + files[1..];
      InsertFile(SortFiles(files[1..]), files[0])
  }

  lemma SameFiles(files: seq<string>)
    ensures forall f :: f in SortFiles(files) <==> f in files
  {
    assert forall f :: f in SortFiles(files) <==> f in multiset(SortFiles(files));
    assert forall f :: f in files <==> f in multiset(files);
  }

  lemma {:induction false} InsertFileOrdered(files: seq<string>, file: string)
    requires InStringOrder(files)
    ensures InStringOrder(InsertFile(files, file))
  {
    var r := InsertFile(files, file);
    if files == [] {
    } else if NotAfter(file, files[0]) {
      forall j | 0 < j < |r|
        ensures NotAfter(r[0], r[j])
      {
        if j > 1 {
          OrderIsTransitive(file, files[0], files[j - 1]);
        }
      }
    } else {
      OrderIsTotal(file, files[0]);
      InsertFileOrdered(files[1..], file);
      forall j | 0 < j < |r|
        ensures NotAfter(r[0], r[j])
      {
        assert r[j] in multiset(r[1..]);
        assert r[j] in multiset(files[1..]) || r[j] == file;
        if r[j] != file {
          var k :| 0 <= k < |files[1..]| && files[1..][k] == r[j];
          assert NotAfter(files[0], files[k + 1]);
        }
      }
    }
  }

  lemma {:induction false} SortFilesOrdered(files: seq<string>)
    ensures InStringOrder(SortFiles(files))
  {
    if files != [] {
      SortFilesOrdered(files[1..]);
      InsertFileOrdered(SortFiles(files[1..]), files[0]);
    }
  }

  // ----- the specification -----

  // `rows` is schema_migrations, version -> dirty; `scripts` are the files whose
  // SQL has been committed, in commit order.
  datatype Db = Db(rows: map<int, bool>, scripts: seq<string>)

  // At most one row, and that one is clean.
  predicate Clean(db: Db) {
    db.rows == map[] || exists v | v in db.rows :: db.rows == map[v := false]
  }

  predicate At(db: Db, version: int) {
    db.rows == map[version := false] || (db.rows == map[] && version == 0)
  }

  function Apply(db: Db, version: int, file: string): Db {
    Db(map[version := false], db.scripts + [file])
  }

  lemma SomeRow(rows: map<int, bool>)
    ensures rows == map[] || exists v :: v in rows
  {
    assert (forall v :: v !in rows) ==> rows == map[];
  }

  // UPDATE ... SET dirty = FALSE WHERE version = v
  function MarkClean(rows: map<int, bool>, version: int): map<int, bool> {
    map v | v in rows :: if v == version then false else rows[v]
  }

  predicate NoneAbove(files: seq<string>, version: int) {
    forall f | f in files :: Version(f).Some? && Version(f).value <= version
  }

  datatype Report = Report(db: Db, completed: bool)

  // `healthy` holds the files that this run can read, execute and commit.
  function Migrate(db: Db, current: int, files: seq<string>, healthy: set<string>): Report
    decreases files
  {
    if files == [] then Report(db, true)
    else
      match Version(files[0])
      case None => Report(db, false)
      case Some(version) =>
        if version <= current then Migrate(db, current, files[1..], healthy)
        else if files[0] !in healthy then Report(db, false)
        else Migrate(Apply(db, version, files[0]), version, files[1..], healthy)
  }

  // ----- the runner -----

  datatype Failure = Dirty(version: int) | BadName(name: string) | NotApplied(file: string)

  class MigrationDatabase {
    var rows: map<int, bool>
    var scripts: seq<string>

    constructor ()
      ensures View() == Db(map[], [])
    {
      rows, scripts := map[], [];
    }

    function View(): Db
      reads this
    {
      Db(rows, scripts)
    }

    method MigrationVersion() returns (r: Result<int, Failure>)
      ensures rows == map[] ==> r == Ok(0)
      ensures r.Ok? && rows != map[] ==> r.value in rows && !rows[r.value]
      ensures r.Err? ==> r.error.Dirty? && r.error.version in rows && rows[r.error.version]
      ensures Clean(View()) ==> r.Ok? && At(View(), r.value)
    {
      if rows == map[] {
        return Ok(0);
      }
      SomeRow(rows);
      var version :| version in rows;
      if rows[version] {
        return Err(Dirty(version));
      }
      return Ok(version);
    }

    // One transaction: the old rows go, a dirty row comes, the script runs, the row
    // is cleaned. Any failure rolls all of it back.
    method ApplyMigration(version: int, file: string, works: bool) returns (applied: bool)
      modifies this
      ensures applied == works
      ensures View() == if works then Apply(old(View()), version, file) else old(View())
    {
      var beforeRows, beforeScripts := rows, scripts;
      rows := map[];
      rows := rows[version := true];
      if !works {
        rows, scripts := beforeRows, beforeScripts;
        return false;
      }
      scripts := scripts + [file];
      rows := MarkClean(rows, version);
      return true;
    }

    method MigrateUp(found: seq<string>, healthy: set<string>) returns (failure: Option<Failure>)
      modifies this
      ensures Clean(old(View())) ==>
                exists current :: At(old(View()), current) &&
                  var report := Migrate(old(View()), current, SortFiles(found), healthy);
                  View() == report.db && (failure.None? <==> report.completed)
      ensures failure.Some? && failure.value.Dirty? ==> View() == old(View())
      // success means that no file found is above the stored version; a failure names
      // what is wrong
      ensures Clean(old(View())) && failure.None? ==> exists v :: At(View(), v) && NoneAbove(found, v)
      ensures failure.Some? ==>
                match failure.value
                case Dirty(version) => version in rows && rows[version]
                case BadName(name) => name in found && Version(name).None?
                case NotApplied(file) => file in found && file !in healthy && Version(file).Some?
      ensures Clean(old(View())) ==> Clean(View())
    {
      var files := SortFiles(found);
      var version := MigrationVersion();
      if version.Err? {
        return Some(version.error);
      }
      var current := version.value;
      ghost var whole := Migrate(View(), current, files, healthy);
      ghost var wasClean := Clean(View());
      SameFiles(found);
      hide Version, SortFiles, Clean;
      for i := 0 to |files|
        invariant whole == Migrate(View(), current, files[i..], healthy)
        invariant wasClean ==> Clean(View()) && At(View(), current)
        invariant forall k | 0 <= k < i :: Version(files[k]).Some? && Version(files[k]).value <= current
      {
        assert files[i..][0] == files[i] && files[i..][1..] == files[i + 1..];
        var v := Version(files[i]);
        if v.None? {
          return Some(BadName(files[i]));
        }
        if v.value <= current {
          continue;
        }
        var applied := ApplyMigration(v.value, files[i], files[i] in healthy);
        if !applied {
          return Some(NotApplied(files[i]));
        }
        assert v.value in rows;
        current := v.value;
      }
      assert NoneAbove(found, current);
      return None;
    }
  }

  // ----- what a run applies -----

  predicate AllNamed(files: seq<string>) {
    forall k | 0 <= k < |files| :: Version(files[k]).Some?
  }

  // The files above a version, in order.
  function Above(files: seq<string>, current: int): seq<string>
    requires AllNamed(files)
  {
    if files == [] then []
    else (if Version(files[0]).value > current then [files[0]] else []) + Above(files[1..], current)
  }

  predicate Ascending(files: seq<string>)
    requires AllNamed(files)
  {
    forall i, j | 0 <= i < j < |files| :: Version(files[i]).value < Version(files[j]).value
  }

  lemma {:induction false} AboveNamed(files: seq<string>, current: int)
    requires AllNamed(files)
    ensures AllNamed(Above(files, current))
    ensures forall f | f in Above(files, current) :: f in files && Version(f).value > current
    ensures forall f | f in files && Version(f).value > current :: f in Above(files, current)
  {
    hide Version;
    if files != [] {
      AboveNamed(files[1..], current);
    }
  }

  predicate AllHealthy(files: seq<string>, healthy: set<string>) {
    forall k | 0 <= k < |files| :: files[k] in healthy
  }

  // A run never takes a file at or below one it has already applied.
  lemma {:induction false} RunAscends(db: Db, current: int, files: seq<string>, healthy: set<string>)
    requires AllNamed(files)
    ensures var t := Migrate(db, current, files, healthy).db;
            && db.scripts <= t.scripts
            && AllNamed(t.scripts[|db.scripts|..])
            && Ascending(t.scripts[|db.scripts|..])
            && forall f | f in t.scripts[|db.scripts|..] :: f in files && Version(f).value > current
    decreases files
  {
    hide Version;
    if files != [] {
      var v := Version(files[0]).value;
      if v <= current {
        RunAscends(db, current, files[1..], healthy);
      } else if files[0] in healthy {
        var next := Apply(db, v, files[0]);
        RunAscends(next, v, files[1..], healthy);
        var t := Migrate(next, v, files[1..], healthy).db;
        assert t.scripts[|db.scripts|..] == [files[0]] + t.scripts[|next.scripts|..];
      }
    }
  }

  // An uninterrupted run applies all files above the stored version exactly when
  // they come in ascending order of version; otherwise it silently skips one.
  lemma {:induction false} AppliesAllAboveIff(db: Db, current: int, files: seq<string>, healthy: set<string>)
    requires AllNamed(files) && AllHealthy(files, healthy)
    ensures AllNamed(Above(files, current))
    ensures Migrate(db, current, files, healthy).db.scripts == db.scripts + Above(files, current)
            <==> Ascending(Above(files, current))
  {
    AboveNamed(files, current);
    var t := Migrate(db, current, files, healthy).db;
    if t.scripts == db.scripts + Above(files, current) {
      RunAscends(db, current, files, healthy);
      assert t.scripts[|db.scripts|..] == Above(files, current);
    }
    if Ascending(Above(files, current)) {
      AppliesAscending(db, current, files, healthy);
    }
  }

  lemma HeadThenRest(files: seq<string>, current: int)
    requires AllNamed(files) && files != [] && Version(files[0]).value > current
    requires AllNamed(Above(files, current)) && Ascending(Above(files, current))
    ensures var rest := Above(files[1..], current);
            && Above(files, current) == [files[0]] + rest
            && AllNamed(rest) && Ascending(rest)
            && Above(files[1..], Version(files[0]).value) == rest
  {
    hide Version;
    var all, rest := Above(files, current), Above(files[1..], current);
    assert forall j | 0 <= j < |rest| :: rest[j] == all[j + 1];
    forall f | f in rest
      ensures Version(f).Some? && Version(f).value > Version(files[0]).value
    {
      var j :| 0 <= j < |rest| && rest[j] == f;
      assert Version(all[0]).value < Version(all[j + 1]).value;
    }
    RaisedFloor(files[1..], current, Version(files[0]).value);
  }

  lemma {:induction false} AppliesAscending(db: Db, current: int, files: seq<string>, healthy: set<string>)
    requires AllNamed(files) && AllHealthy(files, healthy)
    requires AllNamed(Above(files, current)) && Ascending(Above(files, current))
    ensures Migrate(db, current, files, healthy).db.scripts == db.scripts + Above(files, current)
    ensures Migrate(db, current, files, healthy).completed
    decreases files
  {
    hide Version, Ascending;
    if files != [] {
      var v := Version(files[0]).value;
      if v <= current {
        assert Above(files, current) == Above(files[1..], current);
        AppliesAscending(db, current, files[1..], healthy);
      } else {
        HeadThenRest(files, current);
        AppliesAscending(Apply(db, v, files[0]), v, files[1..], healthy);
        assert (db.scripts + [files[0]]) + Above(files[1..], v) == db.scripts + ([files[0]] + Above(files[1..], v));
      }
    }
  }

  lemma {:induction false} RaisedFloor(files: seq<string>, low: int, high: int)
    requires AllNamed(files) && low <= high
    requires forall f | f in Above(files, low) && Version(f).Some? :: Version(f).value > high
    ensures Above(files, high) == Above(files, low)
  {
    hide Version;
    if files != [] {
      var rest := Above(files[1..], low);
      assert forall f | f in rest :: f in Above(files, low);
      if Version(files[0]).value > low {
        assert files[0] in Above(files, low);
      }
      RaisedFloor(files[1..], low, high);
    }
  }

  // ----- equal-width numbering -----

  lemma DigitTimes(d: int, unit: nat)
    requires 0 <= d <= 9
    ensures 0 <= d * unit <= 9 * unit
  {
  }

  lemma {:induction false} ValueBelow(s: string)
    requires AllDigits(s)
    ensures 0 <= Value(s) < Pow10(|s|)
  {
    if s != "" {
      ValueBelow(s[1..]);
      assert IsDigit(s[0]);
      DigitTimes(s[0] as int - '0' as int, Pow10(|s| - 1));
    }
  }

  // The prefix is `width` digits followed by an underscore.
  predicate Numbered(name: string, width: nat) {
    0 < width < |name| && name[width] == '_' && AllDigits(name[..width])
  }

  lemma {:induction false} PrefixOf(name: string, width: nat)
    requires width < |name| && name[width] == '_' && AllDigits(name[..width])
    ensures CutPrefix(name) == Some(name[..width])
  {
    if width > 0 {
      assert IsDigit(name[..width][0]);
      assert name[1..][..width - 1] == name[..width][1..];
      PrefixOf(name[1..], width - 1);
      assert name[..width] == [name[0]] + name[1..][..width - 1];
    }
  }

  lemma LeadingDigit(d: int, e: int, unit: nat, low: int, high: int)
    requires d < e && 0 <= low < unit && 0 <= high
    ensures d * unit + low <= e * unit + high
  {
    assert (d + 1) * unit <= e * unit;
  }

  lemma {:induction false} DigitsOrder(a: string, b: string, width: nat)
    requires width <= |a| && width <= |b| && AllDigits(a[..width]) && AllDigits(b[..width])
    requires NotAfter(a, b)
    ensures Value(a[..width]) <= Value(b[..width])
  {
    if width > 0 {
      var p, q := a[..width], b[..width];
      assert p[1..] == a[1..][..width - 1] && q[1..] == b[1..][..width - 1];
      ValueBelow(p[1..]);
      ValueBelow(q[1..]);
      if a[0] == b[0] {
        DigitsOrder(a[1..], b[1..], width - 1);
      } else {
        LeadingDigit(p[0] as int - '0' as int, q[0] as int - '0' as int, Pow10(width - 1), Value(p[1..]), Value(q[1..]));
      }
    }
  }

  lemma NumberedVersion(name: string, width: nat)
    requires Numbered(name, width) && Version(name).Some?
    ensures Version(name).value == Value(name[..width])
  {
    PrefixOf(name, width);
    assert IsDigit(name[..width][0]);
  }

  // For distinct versions written with the same number of digits, a run applies
  // exactly the files above the stored version, once each, in ascending order, and
  // ends at the highest.
  lemma EqualWidthRun(db: Db, current: int, found: seq<string>, healthy: set<string>, width: nat)
    requires var files := SortFiles(found);
             && AllNamed(files) && AllHealthy(files, healthy)
             && (forall k | 0 <= k < |files| :: Numbered(files[k], width))
             && (forall i, j | 0 <= i < j < |files| :: Version(files[i]) != Version(files[j]))
    ensures var files := SortFiles(found);
            && Migrate(db, current, files, healthy).completed
            && Migrate(db, current, files, healthy).db.scripts == db.scripts + Above(files, current)
            && AllNamed(Above(files, current))
            && Ascending(Above(files, current))
  {
    hide Version, NotAfter, Value, SortFiles, Migrate;
    var files := SortFiles(found);
    SortFilesOrdered(found);
    forall i, j | 0 <= i < j < |files|
      ensures Version(files[i]).value < Version(files[j]).value
    {
      NumberedVersion(files[i], width);
      NumberedVersion(files[j], width);
      DigitsOrder(files[i], files[j], width);
    }
    AboveNamed(files, current);
    AboveAscends(files, current);
    AppliesAscending(db, current, files, healthy);
  }

  lemma {:induction false} AboveAscends(files: seq<string>, current: int)
    requires AllNamed(files) && Ascending(files)
    ensures AllNamed(Above(files, current)) && Ascending(Above(files, current))
  {
    hide Version;
    AboveNamed(files, current);
    if files != [] {
      var rest := Above(files[1..], current);
      AboveNamed(files[1..], current);
      AboveAscends(files[1..], current);
      forall i, j | 0 <= i < j < |Above(files, current)|
        ensures Version(Above(files, current)[i]).value < Version(Above(files, current)[j]).value
      {
        if Version(files[0]).value > current {
          assert Above(files, current) == [files[0]] + rest;
          assert rest[j - 1] in files[1..];
        }
      }
    }
  }

  lemma TwoVersions()
    ensures Version("9_b") == Some(9) && Version("10_a") == Some(10)
  {
    PrefixOf("9_b", 1);
    PrefixOf("10_a", 2);
    assert "9_b"[..1] == "9" && "10_a"[..2] == "10";
    assert "10"[1..] == "0" && "0"[1..] == "" && "9"[1..] == "";
    assert Pow10(1) == 10 && Pow10(0) == 1;
  }

  // Widths that differ break it: "10_" sorts before "9_", so the run reports
  // success and 9 is never applied.
  lemma UnequalWidthSkips()
    ensures SortFiles(["9_b", "10_a"]) == ["10_a", "9_b"]
    ensures Migrate(Db(map[], []), 0, ["10_a", "9_b"], {"9_b", "10_a"}) == Report(Db(map[10 := false], ["10_a"]), true)
  {
    TwoVersions();
    hide Version, Value;
    var nine, ten := "9_b", "10_a";
    assert NotAfter(ten, nine) && !NotAfter(nine, ten);
    assert [nine, ten][1..] == [ten] && [ten][1..] == [];
    assert SortFiles([ten]) == [ten];
    assert [ten, nine][1..] == [nine] && [nine][1..] == [];
  }

  // ----- interrupted runs -----

  ghost function Stored(db: Db): (version: int)
    requires Clean(db)
    ensures At(db, version)
  {
    if db.rows == map[] then 0 else
      var v :| v in db.rows && db.rows == map[v := false]; v
  }

  lemma StoredIs(db: Db, version: int)
    requires At(db, version)
    ensures Clean(db) && Stored(db) == version
  {
    if db.rows == map[version := false] {
      assert version in db.rows;
      assert forall v | v in db.rows :: v == version;
    }
  }

  // Files at or below the stored version are passed over.
  lemma {:induction false} PassesOver(db: Db, current: int, done: seq<string>, rest: seq<string>, healthy: set<string>)
    requires AllNamed(done) && forall k | 0 <= k < |done| :: Version(done[k]).value <= current
    ensures Migrate(db, current, done + rest, healthy) == Migrate(db, current, rest, healthy)
    decreases done
  {
    hide Version;
    if done == [] {
      assert done + rest == rest;
    } else {
      assert (done + rest)[1..] == done[1..] + rest;
      PassesOver(db, current, done[1..], rest, healthy);
    }
  }

  // A run that stops anywhere leaves a clean row from which the next run goes on
  // exactly where an uninterrupted run would have been.
  lemma {:induction false} StopAndGo(
    db: Db, current: int, done: seq<string>, rest: seq<string>, healthy: set<string>, whole: set<string>)
    requires At(db, current) && AllHealthy(rest, whole)
    requires AllNamed(done) && forall k | 0 <= k < |done| :: Version(done[k]).value <= current
    ensures var stopped := Migrate(db, current, rest, healthy).db;
            && Clean(stopped)
            && Migrate(stopped, Stored(stopped), done + rest, whole) == Migrate(db, current, rest, whole)
    decreases rest
  {
    hide Version;
    StoredIs(db, current);
    PassesOver(db, current, done, rest, whole);
    if rest != [] && Version(rest[0]).Some? {
      var v := Version(rest[0]).value;
      assert done + rest == (done + [rest[0]]) + rest[1..];
      if v <= current {
        StopAndGo(db, current, done + [rest[0]], rest[1..], healthy, whole);
      } else if rest[0] in healthy {
        StopAndGo(Apply(db, v, rest[0]), v, done + [rest[0]], rest[1..], healthy, whole);
      }
    }
  }

  // Any number of runs, each with its own failures.
  ghost function Runs(db: Db, files: seq<string>, runs: seq<set<string>>): (r: Db)
    requires Clean(db)
    ensures Clean(r)
    decreases |runs|
  {
    if runs == [] then db
    else
      var next := Migrate(db, Stored(db), files, runs[0]).db;
      RunLeavesClean(db, Stored(db), files, runs[0]);
      Runs(next, files, runs[1..])
  }

  lemma {:induction false} RunLeavesClean(db: Db, current: int, files: seq<string>, healthy: set<string>)
    requires Clean(db)
    ensures Clean(Migrate(db, current, files, healthy).db)
    decreases files
  {
    hide Version;
    if files != [] && Version(files[0]).Some? {
      var v := Version(files[0]).value;
      if v <= current {
        RunLeavesClean(db, current, files[1..], healthy);
      } else if files[0] in healthy {
        assert v in Apply(db, v, files[0]).rows;
        RunLeavesClean(Apply(db, v, files[0]), v, files[1..], healthy);
      }
    }
  }

  // However often the run is interrupted and wherever, one healthy run afterwards
  // ends in the state, and with the verdict, of a single uninterrupted run.
  lemma {:induction false} InterruptionsDoNotShow(db: Db, files: seq<string>, runs: seq<set<string>>, whole: set<string>)
    requires Clean(db) && AllHealthy(files, whole)
    ensures var r := Runs(db, files, runs);
            Migrate(r, Stored(r), files, whole) == Migrate(db, Stored(db), files, whole)
    decreases |runs|
  {
    if runs != [] {
      var next := Migrate(db, Stored(db), files, runs[0]).db;
      StopAndGo(db, Stored(db), [], files, runs[0], whole);
      assert [] + files == files;
      InterruptionsDoNotShow(next, files, runs[1..], whole);
    }
  }
}
