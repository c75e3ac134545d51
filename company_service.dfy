/** CompanyService (src/modules/company/company.service.ts): company creation
    with a unique public link and default working hours, the replacement of
    a company's weekly working hours, and its single address. */
module CompanyService {
  import opened Common
  import opened Tables
  import opened Digits
  import opened TimeHelper

  /** The fields of a new company; the slug of its name is passed apart. */
  datatype CompanyData = CompanyData(name: string, email: string, phone: string)

  /** DailyWorkingHoursDto: the day is a JavaScript number. */
  datatype DailyHours = DailyHours(dayOfWeek: real, startTime: string, endTime: string)

  // ---------------------------------------------------------------- links

  predicate LinkUsed(rows: seq<Company>, link: string) {
    exists c :: c in rows && c.link == link
  }

  /** isLinkExists: `findUnique({ where: { link } })`. */
  function LinkExists(rows: seq<Company>, link: string): (r: bool)
    ensures r <==> LinkUsed(rows, link)
  {
    var i := First(rows, (c: Company) => c.link == link);
    if i.Some? then assert rows[i.value] in rows; true else false
  }

  /** The link `${baseLink}${counter}`. */
  function Numbered(base: string, counter: nat): string {
    base + NatToString(counter)
  }

  /** `link` is `base` followed by a number of at least n. */
  predicate SuffixAtLeast(link: string, base: string, n: nat) {
    && |base| < |link| && link[..|base|] == base
    && IsDigits(link[|base|..]) && DigitsValue(link[|base|..]) >= n
  }

  /** The rows whose link is `base` followed by a number of at least n: what
      is left for the counter to run into. */
  function NumberedRows(rows: seq<Company>, base: string, n: nat): set<int> {
    set i | 0 <= i < |rows| && SuffixAtLeast(rows[i].link, base, n)
  }

  lemma DisjointSize(a: set<int>, b: set<int>)
    requires a <= b
    ensures |b| == |a| + |b - a|
  {
    assert b == a + (b - a);
    assert a * (b - a) == {};
  }

  /** Each step of the counter past a used link leaves fewer rows ahead. */
  lemma NumberedRowsShrink(rows: seq<Company>, base: string, n: nat)
    ensures |NumberedRows(rows, base, n + 1)| <= |NumberedRows(rows, base, n)|
    ensures LinkUsed(rows, Numbered(base, n)) ==>
              |NumberedRows(rows, base, n + 1)| < |NumberedRows(rows, base, n)|
  {
    var a, b := NumberedRows(rows, base, n + 1), NumberedRows(rows, base, n);
    DisjointSize(a, b);
    if LinkUsed(rows, Numbered(base, n)) {
      var c :| c in rows && c.link == Numbered(base, n);
      var i :| 0 <= i < |rows| && rows[i] == c;
      var link := Numbered(base, n);
      assert link[..|base|] == base && link[|base|..] == NatToString(n);
      assert i in b - a;
    }
  }

  // ---------------------------------------------------------------- working hours

  /** createInitialCompanyWorkingHours: Monday (1) to Friday (5), 08:00 to
      17:00. */
  function InitialHours(companyId: int): (r: seq<WorkingHour>)
    ensures |r| == 5
    ensures forall k :: 0 <= k < 5 ==> r[k] == WorkingHour(companyId, k + 1, "08:00", "17:00")
  {
    seq(5, k => WorkingHour(companyId, k + 1, "08:00", "17:00"))
  }

  /** The default hours are a well-formed range, one row per weekday. */
  lemma InitialHoursWellFormed(companyId: int)
    ensures ValidateTimeRange("08:00", "17:00").Ok?
    ensures forall k :: 0 <= k < 5 ==> ValidateDayOfWeek(InitialHours(companyId)[k].dayOfWeek as real).Ok?
    ensures forall i, j :: 0 <= i < j < 5 ==> InitialHours(companyId)[i].dayOfWeek != InitialHours(companyId)[j].dayOfWeek
  {
    assert MatchesHHmm("08:00") && MatchesHHmm("17:00");
    assert ParseTimeToMinutes(Some("08:00")) == Ok(480);
    assert ParseTimeToMinutes(Some("17:00")) == Ok(1020);
  }

  /** The company already has a row for one of the default days, so the
      `createMany` of the defaults meets the (companyId, dayOfWeek) key. */
  predicate InitialClash(rows: seq<WorkingHour>, companyId: int) {
    exists h :: h in rows && h.companyId == companyId && 1 <= h.dayOfWeek <= 5
  }

  /** The default hours of a company with no row for days 1 to 5 keep the
      key unique. */
  lemma AppendInitialKeepsKeys(rows: seq<WorkingHour>, companyId: int)
    requires KeysUnique(rows)
    requires !InitialClash(rows, companyId)
    ensures KeysUnique(rows + InitialHours(companyId))
  {
    var r := rows + InitialHours(companyId);
    forall i, j | 0 <= i < j < |r| ensures !(r[i].companyId == r[j].companyId && r[i].dayOfWeek == r[j].dayOfWeek) {
      if j >= |rows| && i < |rows| {
        assert r[i] in rows;
        assert r[j] == InitialHours(companyId)[j - |rows|];
      }
    }
  }

  /** updateServiceInterval: the interval is written only when it is truthy
      and not negative. */
  function WithInterval(rows: seq<Company>, i: nat, serviceInterval: Option<int>): (r: seq<Company>)
    requires i < |rows|
    ensures |r| == |rows| && forall k :: 0 <= k < |rows| && k != i ==> r[k] == rows[k]
    ensures serviceInterval.Some? && serviceInterval.value > 0 ==>
              r[i] == rows[i].(intervalBetweenAppointments := serviceInterval)
    ensures serviceInterval.None? || serviceInterval.value <= 0 ==> r == rows
  {
    if serviceInterval.Some? && serviceInterval.value != 0 && serviceInterval.value >= 0 then
      rows[i := rows[i].(intervalBetweenAppointments := Some(serviceInterval.value))]
    else
      rows
  }

  /** The days of the incoming entries. */
  function Days(entries: seq<DailyHours>): set<real> {
    set k | 0 <= k < |entries| :: entries[k].dayOfWeek
  }

  /** removeOldWorkingHours: the company's rows whose day is not incoming go. */
  function RemoveOld(rows: seq<WorkingHour>, companyId: int, entries: seq<DailyHours>): (r: seq<WorkingHour>)
    ensures forall h :: h in r <==> h in rows && (h.companyId != companyId || h.dayOfWeek as real in Days(entries))
    ensures KeysUnique(rows) ==> KeysUnique(r)
  {
    var keep := (h: WorkingHour) => h.companyId != companyId || h.dayOfWeek as real in Days(entries);
    FilterKeepsUnique(rows, keep);
    Filter(rows, keep)
  }

  /** (companyId, dayOfWeek) is a key. */
  predicate KeysUnique(rows: seq<WorkingHour>) {
    forall i, j :: 0 <= i < j < |rows| ==>
      !(rows[i].companyId == rows[j].companyId && rows[i].dayOfWeek == rows[j].dayOfWeek)
  }

  predicate HasDay(rows: seq<WorkingHour>, companyId: int, day: int) {
    exists h :: h in rows && h.companyId == companyId && h.dayOfWeek == day
  }

  /** `companyWorkingHour.upsert` on the key (companyId, day). */
  function UpsertHour(rows: seq<WorkingHour>, companyId: int, day: int, startTime: string, endTime: string)
    : (r: seq<WorkingHour>)
    ensures WorkingHour(companyId, day, startTime, endTime) in r
    ensures forall h :: h in rows && !(h.companyId == companyId && h.dayOfWeek == day) ==> h in r
    ensures |r| == |rows| || |r| == |rows| + 1
  {
    var key := (h: WorkingHour) => h.companyId == companyId && h.dayOfWeek == day;
    match First(rows, key)
    case Some(i) =>
      var r := rows[i := rows[i].(startTime := startTime, endTime := endTime)];
      assert key(rows[i]) && r[i] == WorkingHour(companyId, day, startTime, endTime);
      assert forall k :: 0 <= k < |rows| && !key(rows[k]) ==> r[k] == rows[k];
      r
    case None => rows + [WorkingHour(companyId, day, startTime, endTime)]
  }

  /** What the upsert does to the table: the keyed row now holds the new
      times, rows of other keys stay, and the key stays unique. */
  lemma UpsertHourFacts(rows: seq<WorkingHour>, companyId: int, day: int, startTime: string, endTime: string)
    requires KeysUnique(rows)
    ensures var r := UpsertHour(rows, companyId, day, startTime, endTime);
            && KeysUnique(r)
            && WorkingHour(companyId, day, startTime, endTime) in r
            && (forall h: WorkingHour :: !(h.companyId == companyId && h.dayOfWeek == day) ==> (h in r <==> h in rows))
            && (forall h :: h in r && h.companyId == companyId && h.dayOfWeek == day ==>
                              h == WorkingHour(companyId, day, startTime, endTime))
  {
    var r := UpsertHour(rows, companyId, day, startTime, endTime);
    var w := WorkingHour(companyId, day, startTime, endTime);
    match First(rows, (h: WorkingHour) => h.companyId == companyId && h.dayOfWeek == day)
    case Some(i) =>
      assert r[i] == w;
      forall h: WorkingHour | !(h.companyId == companyId && h.dayOfWeek == day) ensures h in r <==> h in rows {
        if h in r {
          var k :| 0 <= k < |r| && r[k] == h;
          assert rows[k] == h;
        }
        if h in rows {
          var k :| 0 <= k < |rows| && rows[k] == h;
          assert r[k] == h;
        }
      }
      forall h | h in r && h.companyId == companyId && h.dayOfWeek == day ensures h == w {
        var k :| 0 <= k < |r| && r[k] == h;
        assert k == i;
      }
    case None =>
      assert r[|rows|] == w;
  }

  /** validateDayOfWeek then validateTimeRange, as the loop does for each
      entry before its upsert. */
  function CheckEntry(e: DailyHours): (r: Result<()>)
    ensures r.Ok? <==> ValidateDayOfWeek(e.dayOfWeek).Ok? && ValidateTimeRange(e.startTime, e.endTime).Ok?
  {
    match ValidateDayOfWeek(e.dayOfWeek)
    case Fail(err) => Fail(err)
    case Ok(_) => ValidateTimeRange(e.startTime, e.endTime)
  }

  /** upsertCompanyWorkingHours: the entries checked and upserted in order;
      the first invalid one stops the loop, and what was written before it
      stays. */
  function ApplyEntries(rows: seq<WorkingHour>, companyId: int, entries: seq<DailyHours>)
    : (r: (seq<WorkingHour>, Result<()>))
    ensures r.1.Ok? <==> forall k :: 0 <= k < |entries| ==> CheckEntry(entries[k]).Ok?
    decreases |entries|
  {
    if entries == [] then (rows, Ok(()))
    else
      var e := entries[0];
      match CheckEntry(e)
      case Fail(err) => (rows, Fail(err))
      case Ok(_) =>
        var r := ApplyEntries(UpsertHour(rows, companyId, e.dayOfWeek.Floor, e.startTime, e.endTime),
                              companyId, entries[1..]);
        assert forall k :: 1 <= k < |entries| ==> entries[k] == entries[1..][k - 1];
        r
  }

  /** No later entry has the same day as entry k. */
  predicate LastForDay(entries: seq<DailyHours>, k: nat)
    requires k < |entries|
  {
    forall j :: k < j < |entries| ==> entries[j].dayOfWeek != entries[k].dayOfWeek
  }

  /** Days that pass validateDayOfWeek are whole numbers. */
  lemma ValidDayIsWhole(d: real)
    requires ValidateDayOfWeek(d).Ok?
    ensures d.Floor as real == d && 0 <= d.Floor <= 6
  {
  }

  /** The upserts keep the key unique, whatever the outcome. */
  lemma {:induction false} ApplyKeepsKeysUnique(rows: seq<WorkingHour>, companyId: int, entries: seq<DailyHours>)
    requires KeysUnique(rows)
    ensures KeysUnique(ApplyEntries(rows, companyId, entries).0)
    decreases |entries|
  {
    if entries != [] && CheckEntry(entries[0]).Ok? {
      var e := entries[0];
      UpsertHourFacts(rows, companyId, e.dayOfWeek.Floor, e.startTime, e.endTime);
      ApplyKeepsKeysUnique(UpsertHour(rows, companyId, e.dayOfWeek.Floor, e.startTime, e.endTime),
                           companyId, entries[1..]);
    }
  }

  lemma DaysCons(entries: seq<DailyHours>)
    requires entries != []
    ensures Days(entries) == {entries[0].dayOfWeek} + Days(entries[1..])
  {
    var rest := entries[1..];
    forall x ensures x in Days(entries) <==> x == entries[0].dayOfWeek || x in Days(rest) {
      if x in Days(entries) {
        var k :| 0 <= k < |entries| && entries[k].dayOfWeek == x;
        if k > 0 {
          assert rest[k - 1] == entries[k];
        }
      }
      if x in Days(rest) {
        var k :| 0 <= k < |rest| && rest[k].dayOfWeek == x;
        assert entries[k + 1] == rest[k];
      }
    }
  }

  /** When every entry is valid, the rows whose key no entry names are
      untouched: all rows of other companies, and the company's rows for
      days that are not incoming. */
  lemma {:induction false} ApplyLeavesOthers(rows: seq<WorkingHour>, companyId: int, entries: seq<DailyHours>)
    requires KeysUnique(rows)
    requires ApplyEntries(rows, companyId, entries).1.Ok?
    ensures forall h: WorkingHour :: !(h.companyId == companyId && h.dayOfWeek as real in Days(entries)) ==>
                                       (h in ApplyEntries(rows, companyId, entries).0 <==> h in rows)
    decreases |entries|
  {
    if entries != [] {
      var e := entries[0];
      ValidDayIsWhole(e.dayOfWeek);
      var rows1 := UpsertHour(rows, companyId, e.dayOfWeek.Floor, e.startTime, e.endTime);
      UpsertHourFacts(rows, companyId, e.dayOfWeek.Floor, e.startTime, e.endTime);
      ApplyLeavesOthers(rows1, companyId, entries[1..]);
      DaysCons(entries);
    }
  }

  /** When every entry is valid, the company has a row for a day exactly
      when it had one before or the day is incoming. */
  lemma {:induction false} ApplyDays(rows: seq<WorkingHour>, companyId: int, entries: seq<DailyHours>)
    requires KeysUnique(rows)
    requires ApplyEntries(rows, companyId, entries).1.Ok?
    ensures forall d: int :: HasDay(ApplyEntries(rows, companyId, entries).0, companyId, d) <==>
                             HasDay(rows, companyId, d) || d as real in Days(entries)
    decreases |entries|
  {
    if entries != [] {
      var e := entries[0];
      var day := e.dayOfWeek.Floor;
      ValidDayIsWhole(e.dayOfWeek);
      var rows1 := UpsertHour(rows, companyId, day, e.startTime, e.endTime);
      UpsertHourFacts(rows, companyId, day, e.startTime, e.endTime);
      ApplyDays(rows1, companyId, entries[1..]);
      DaysCons(entries);
      forall d: int ensures HasDay(rows1, companyId, d) <==> HasDay(rows, companyId, d) || d == day {
        if d == day {
          assert WorkingHour(companyId, day, e.startTime, e.endTime) in rows1;
        } else {
          if HasDay(rows1, companyId, d) {
            var h :| h in rows1 && h.companyId == companyId && h.dayOfWeek == d;
            assert h in rows;
          }
          if HasDay(rows, companyId, d) {
            var h :| h in rows && h.companyId == companyId && h.dayOfWeek == d;
            assert h in rows1;
          }
        }
      }
    }
  }

  /** Dropping the first entry keeps a later entry last for its day. */
  lemma LastForDayTail(entries: seq<DailyHours>, k: nat)
    requires 0 < k < |entries| && LastForDay(entries, k)
    ensures entries[1..][k - 1] == entries[k] && LastForDay(entries[1..], k - 1)
  {
    forall j | k - 1 < j < |entries[1..]| ensures entries[1..][j].dayOfWeek != entries[k].dayOfWeek {
      assert entries[1..][j] == entries[j + 1];
    }
  }

  /** When every entry is valid, the last entry for a day gives that day's
      times. */
  lemma {:induction false} ApplyLastWins(rows: seq<WorkingHour>, companyId: int, entries: seq<DailyHours>, k: nat)
    requires KeysUnique(rows)
    requires ApplyEntries(rows, companyId, entries).1.Ok?
    requires k < |entries| && LastForDay(entries, k)
    ensures WorkingHour(companyId, entries[k].dayOfWeek.Floor, entries[k].startTime, entries[k].endTime)
              in ApplyEntries(rows, companyId, entries).0
    decreases |entries|
  {
    var e, rest := entries[0], entries[1..];
    ValidDayIsWhole(e.dayOfWeek);
    var rows1 := UpsertHour(rows, companyId, e.dayOfWeek.Floor, e.startTime, e.endTime);
    UpsertHourFacts(rows, companyId, e.dayOfWeek.Floor, e.startTime, e.endTime);
    assert CheckEntry(e).Ok?;
    assert ApplyEntries(rows, companyId, entries) == ApplyEntries(rows1, companyId, rest);
    if k == 0 {
      ApplyLeavesOthers(rows1, companyId, rest);
      assert e.dayOfWeek !in Days(rest);
    } else {
      LastForDayTail(entries, k);
      ApplyLastWins(rows1, companyId, rest, k - 1);
    }
  }

  /** The link generateUniqueLink picks for `base`: unused; the base itself
      when no company uses it; otherwise the base followed by the smallest
      counter from 1 up that no company uses. */
  ghost predicate ChosenLink(rows: seq<Company>, base: string, link: string) {
    && !LinkUsed(rows, link)
    && (!LinkUsed(rows, base) ==> link == base)
    && (LinkUsed(rows, base) ==>
          exists k: nat :: 1 <= k && link == Numbered(base, k)
                           && forall j: nat :: 1 <= j < k ==> LinkUsed(rows, Numbered(base, j)))
  }

  class CompanyService {
    const db: Database

    constructor(db: Database)
      ensures this.db == db
    {
      this.db := db;
    }

    /** generateUniqueLink: the base when no company uses it, otherwise the
        base followed by the smallest counter from 1 up that no company
        uses. */
    method GenerateUniqueLink(base: string) returns (link: string)
      ensures ChosenLink(db.companies.rows, base, link)
    {
      var rows := db.companies.rows;
      if !LinkExists(rows, base) {
        return base;
      }
      link := base;
      var counter: nat := 1;
      while LinkExists(rows, link)
        invariant counter >= 1
        invariant counter == 1 ==> link == base
        invariant counter > 1 ==> link == Numbered(base, counter - 1)
        invariant forall j: nat :: 1 <= j < counter - 1 ==> LinkUsed(rows, Numbered(base, j))
        decreases |NumberedRows(rows, base, counter - 1)| + (if counter == 1 then 1 else 0)
      {
        NumberedRowsShrink(rows, base, counter - 1);
        link := Numbered(base, counter);
        counter := counter + 1;
      }
      assert counter > 1;
    }

    /** createCompany: a link is generated first (an empty one fails), then
        an email already used by a company is rejected; the company is
        inserted and gets the default working hours. */
    method CreateCompany(data: CompanyData, slugBase: string) returns (r: Result<Company>)
      requires db.companies.Valid() && db.hours.Valid()
      modifies db.companies, db.hours
      ensures db.companies.Valid() && db.hours.Valid()
      ensures r == Fail(LinkGenerationFailed) <==> slugBase == "" && !LinkUsed(old(db.companies.rows), "")
      ensures r == Fail(CompanyEmailTaken) <==>
                !(slugBase == "" && !LinkUsed(old(db.companies.rows), ""))
                && exists c :: c in old(db.companies.rows) && c.email == data.email
      ensures r == Fail(LinkGenerationFailed) || r == Fail(CompanyEmailTaken) ==> unchanged(db.companies, db.hours)
      ensures r.Ok? || r == Fail(UniqueViolation) ==>
                && |db.companies.rows| == |old(db.companies.rows)| + 1
                && var c := db.companies.rows[|old(db.companies.rows)|];
                && db.companies.rows == old(db.companies.rows) + [c]
                && c.id == old(db.companies.nextId) && db.companies.nextId == c.id + 1
                && c.name == data.name && c.email == data.email && c.phone == data.phone
                && c.intervalBetweenAppointments.None?
                && ChosenLink(old(db.companies.rows), slugBase, c.link)
                && (r.Ok? ==> r.value == c && db.hours.rows == old(db.hours.rows) + InitialHours(c.id))
                && (r.Fail? ==> unchanged(db.hours))
      ensures r == Fail(UniqueViolation) <==>
                && !(slugBase == "" && !LinkUsed(old(db.companies.rows), ""))
                && !(exists c :: c in old(db.companies.rows) && c.email == data.email)
                && InitialClash(old(db.hours.rows), old(db.companies.nextId))
      ensures r.Ok? || r.error in {LinkGenerationFailed, CompanyEmailTaken, UniqueViolation}
    {
      var link := GenerateUniqueLink(slugBase);
      if link == "" {
        return Fail(LinkGenerationFailed);
      }
      var existing := First(db.companies.rows, (c: Company) => c.email == data.email);
      if existing.Some? {
        assert db.companies.rows[existing.value] in db.companies.rows;
        return Fail(CompanyEmailTaken);
      }
      var company := InsertCompany(data, link);
      var hours := CreateInitialCompanyWorkingHours(company.id);
      if hours.Fail? {
        return Fail(hours.error);
      }
      return Ok(company);
    }

    /** `prisma.company.create` with an unused link: the row goes in under
        the next id, with no service interval. */
    method InsertCompany(data: CompanyData, link: string) returns (company: Company)
      requires db.companies.Valid() && !LinkUsed(db.companies.rows, link)
      modifies db.companies
      ensures db.companies.Valid()
      ensures company == Company(old(db.companies.nextId), data.name, data.email, data.phone, link, None)
      ensures db.companies.rows == old(db.companies.rows) + [company]
      ensures db.companies.nextId == old(db.companies.nextId) + 1
    {
      ghost var before := db.companies.rows;
      company := Company(db.companies.nextId, data.name, data.email, data.phone, link, None);
      db.companies.rows := db.companies.rows + [company];
      db.companies.nextId := db.companies.nextId + 1;
      assert forall i :: 0 <= i < |before| ==> before[i].link != link by {
        forall i | 0 <= i < |before| ensures before[i].link != link {
          assert before[i] in before;
        }
      }
    }

    /** createInitialCompanyWorkingHours: `createMany` without
        `skipDuplicates`, so an existing row of the company breaks the
        (companyId, dayOfWeek) key and nothing is written; otherwise the
        five default rows are added. */
    method CreateInitialCompanyWorkingHours(companyId: int) returns (r: Result<()>)
      requires db.hours.Valid()
      modifies db.hours
      ensures db.hours.Valid()
      ensures r.Fail? <==> InitialClash(old(db.hours.rows), companyId)
      ensures r.Fail? ==> r.error == UniqueViolation && unchanged(db.hours)
      ensures r.Ok? ==> db.hours.rows == old(db.hours.rows) + InitialHours(companyId)
    {
      var clash := First(db.hours.rows, (h: WorkingHour) => h.companyId == companyId && 1 <= h.dayOfWeek <= 5);
      if clash.Some? {
        assert db.hours.rows[clash.value] in db.hours.rows;
        return Fail(UniqueViolation);
      }
      AppendInitialKeepsKeys(db.hours.rows, companyId);
      db.hours.rows := db.hours.rows + InitialHours(companyId);
      return Ok(());
    }

    /** updateCompanyWorkingHours: a missing company fails before any write.
        Then the interval, the removal of the days not sent and the checked
        upserts run in order; a failing entry leaves the earlier writes in
        place. */
    method UpdateCompanyWorkingHours(companyId: int, serviceInterval: Option<int>, workingHours: seq<DailyHours>)
      returns (r: Result<()>)
      requires db.companies.Valid() && db.hours.Valid()
      modifies db.companies, db.hours
      ensures db.companies.Valid() && db.hours.Valid()
      ensures old(db.companies.Find(companyId)).None? ==> r == Fail(CompanyNotFound) && unchanged(db.companies, db.hours)
      ensures old(db.companies.Find(companyId)).Some? ==>
                && db.companies.rows == WithInterval(old(db.companies.rows), old(db.companies.Find(companyId)).value, serviceInterval)
                && db.companies.nextId == old(db.companies.nextId)
                && (db.hours.rows, r) == ApplyEntries(RemoveOld(old(db.hours.rows), companyId, workingHours), companyId, workingHours)
    {
      var found := db.companies.Find(companyId);
      if found.None? {
        return Fail(CompanyNotFound);
      }
      db.companies.rows := WithInterval(db.companies.rows, found.value, serviceInterval);
      db.hours.rows := RemoveOld(db.hours.rows, companyId, workingHours);
      r := UpsertCompanyWorkingHours(companyId, workingHours);
    }

    /** upsertCompanyWorkingHours: each entry is checked (day, then time
        range) and upserted on its key, in order; the first invalid entry
        stops the loop with the upserts before it in place. */
    method UpsertCompanyWorkingHours(companyId: int, workingHours: seq<DailyHours>) returns (r: Result<()>)
      requires db.hours.Valid()
      modifies db.hours
      ensures db.hours.Valid()
      ensures (db.hours.rows, r) == ApplyEntries(old(db.hours.rows), companyId, workingHours)
    {
      ghost var start := db.hours.rows;
      var k := 0;
      while k < |workingHours|
        invariant 0 <= k <= |workingHours|
        invariant db.hours.Valid()
        invariant ApplyEntries(db.hours.rows, companyId, workingHours[k..]) == ApplyEntries(start, companyId, workingHours)
      {
        var hour := workingHours[k];
        ghost var rest := workingHours[k..];
        assert rest[0] == hour && rest[1..] == workingHours[k + 1..];
        var dayCheck := ValidateDayOfWeek(hour.dayOfWeek);
        if dayCheck.Fail? {
          assert CheckEntry(hour) == Fail(dayCheck.error);
          return Fail(dayCheck.error);
        }
        var rangeCheck := ValidateTimeRange(hour.startTime, hour.endTime);
        if rangeCheck.Fail? {
          assert CheckEntry(hour) == Fail(rangeCheck.error);
          return Fail(rangeCheck.error);
        }
        assert CheckEntry(hour).Ok?;
        UpsertHourFacts(db.hours.rows, companyId, hour.dayOfWeek.Floor, hour.startTime, hour.endTime);
        db.hours.rows := UpsertHour(db.hours.rows, companyId, hour.dayOfWeek.Floor, hour.startTime, hour.endTime);
        k := k + 1;
      }
      return Ok(());
    }

    /** createOrUpdateCompanyAddress: the company must exist; its address is
        updated when it has one and created otherwise, so it never has
        two. */
    method CreateOrUpdateCompanyAddress(companyId: int, data: AddressData) returns (r: Result<Address>)
      requires db.addresses.Valid()
      modifies db.addresses
      ensures db.addresses.Valid()
      ensures old(db.companies.Find(companyId)).None? <==> r == Fail(CompanyNotFound)
      ensures r.Fail? ==> r.error == CompanyNotFound
      ensures r.Fail? ==> unchanged(db.addresses)
      ensures r.Ok? ==>
                && r.value == Address(companyId, data)
                && r.value in db.addresses.rows
                && (forall a :: a in db.addresses.rows && a.companyId == companyId ==> a == r.value)
                && (forall a: Address :: a.companyId != companyId ==> (a in db.addresses.rows <==> a in old(db.addresses.rows)))
                && |db.addresses.rows| <= |old(db.addresses.rows)| + 1
    {
      if db.companies.Find(companyId).None? {
        return Fail(CompanyNotFound);
      }
      var existing := First(db.addresses.rows, (a: Address) => a.companyId == companyId);
      var address := Address(companyId, data);
      ghost var before := db.addresses.rows;
      match existing {
      case Some(i) =>
        db.addresses.rows := db.addresses.rows[i := address];
        assert db.addresses.rows[i] == address;
        forall a | a in db.addresses.rows && a.companyId == companyId ensures a == address {
          var k :| 0 <= k < |db.addresses.rows| && db.addresses.rows[k] == a;
          assert k == i;
        }
        forall a: Address | a.companyId != companyId ensures a in db.addresses.rows <==> a in before {
          if a in before {
            var k :| 0 <= k < |before| && before[k] == a;
            assert db.addresses.rows[k] == a;
          }
        }
      case None =>
        db.addresses.rows := db.addresses.rows + [address];
        assert db.addresses.rows[|before|] == address;
      }
      return Ok(address);
    }
  }

  /** Filtering rows keeps the key unique. */
  lemma {:induction false} FilterKeepsUnique(rows: seq<WorkingHour>, p: WorkingHour -> bool)
    ensures KeysUnique(rows) ==> KeysUnique(Filter(rows, p))
  {
    if rows != [] && KeysUnique(rows) {
      var t := rows[1..];
      assert KeysUnique(t) by {
        forall i, j | 0 <= i < j < |t| ensures !(t[i].companyId == t[j].companyId && t[i].dayOfWeek == t[j].dayOfWeek) {
          assert t[i] == rows[i + 1] && t[j] == rows[j + 1];
        }
      }
      FilterKeepsUnique(t, p);
      if p(rows[0]) {
        var f := Filter(rows, p);
        var rest := Filter(t, p);
        assert f == [rows[0]] + rest;
        forall i, j | 0 <= i < j < |f| ensures !(f[i].companyId == f[j].companyId && f[i].dayOfWeek == f[j].dayOfWeek) {
          assert f[j] == rest[j - 1];
          if i == 0 {
            assert rest[j - 1] in t;
            var m :| 0 <= m < |t| && t[m] == rest[j - 1];
            assert rows[m + 1] == f[j];
          } else {
            assert f[i] == rest[i - 1];
          }
        }
      }
    }
  }

  /** On success the company's days are exactly the incoming days, every
      incoming day names a weekday, other companies' rows are untouched, and
      the last entry for a day wins. */
  lemma UpdatedDaysAreIncoming(rows: seq<WorkingHour>, companyId: int, entries: seq<DailyHours>)
    requires KeysUnique(rows)
    requires ApplyEntries(RemoveOld(rows, companyId, entries), companyId, entries).1.Ok?
    ensures var r := ApplyEntries(RemoveOld(rows, companyId, entries), companyId, entries).0;
            && (forall d: int :: HasDay(r, companyId, d) <==> d as real in Days(entries))
            && (forall x :: x in Days(entries) ==> x.Floor as real == x && 0 <= x.Floor <= 6)
            && (forall h: WorkingHour :: h.companyId != companyId ==> (h in r <==> h in rows))
            && (forall k :: 0 <= k < |entries| && LastForDay(entries, k) ==>
                              WorkingHour(companyId, entries[k].dayOfWeek.Floor, entries[k].startTime, entries[k].endTime) in r)
  {
    var removed := RemoveOld(rows, companyId, entries);
    ApplyLeavesOthers(removed, companyId, entries);
    ApplyDays(removed, companyId, entries);
    forall k | 0 <= k < |entries| && LastForDay(entries, k)
      ensures WorkingHour(companyId, entries[k].dayOfWeek.Floor, entries[k].startTime, entries[k].endTime)
                in ApplyEntries(removed, companyId, entries).0
    {
      ApplyLastWins(removed, companyId, entries, k);
    }
    forall d: int | HasDay(removed, companyId, d) ensures d as real in Days(entries) {
      var h :| h in removed && h.companyId == companyId && h.dayOfWeek == d;
    }
    forall x | x in Days(entries) ensures x.Floor as real == x && 0 <= x.Floor <= 6 {
      var k :| 0 <= k < |entries| && entries[k].dayOfWeek == x;
      assert CheckEntry(entries[k]).Ok?;
      ValidDayIsWhole(x);
    }
  }
}
