/** The pure part of AppointmentService
    (src/modules/appointments/appointment.service.ts): pricing and discount
    rules, the block conflict test, status transitions and the listing
    filters. */
module AppointmentRules {
  import opened Common
  import opened JsValues
  import opened SumTotal
  import opened Tables

  /** The name of the sentinel client that owns every block. */
  const BlockClientName := "Bloqueio"
  /** The name of the sentinel service created beside it. */
  const BlockServiceName := "__BLOCK__"
  const MillisPerMinute := 60000

  // ---------------------------------------------------------------- requests

  /** The two booking DTOs. The request type (`client` or `admin`) is the
      variant, so a DTO of the wrong kind cannot be passed. */
  datatype BookingRequest =
    | ClientBooking(clientName: string, clientPhone: string, clientEmail: Option<string>,
                    companyId: int, date: int, serviceIds: seq<int>)
    | AdminBooking(clientId: int, date: int, serviceIds: seq<int>, discount: Option<real>)

  /** The appointment data prepareAppointmentData returns. */
  datatype Prepared = Prepared(
    date: int, clientId: int, companyId: int,
    subTotalPrice: real, discount: real, totalPrice: real,
    duration: int, status: Status, notes: Notes)

  // ---------------------------------------------------------------- pricing

  predicate Distinct(ids: seq<int>) {
    forall i, j :: 0 <= i < j < |ids| ==> ids[i] != ids[j]
  }

  predicate UniqueServiceIds(services: seq<Service>) {
    forall i, j :: 0 <= i < j < |services| ==> services[i].id != services[j].id
  }

  /** An id that names an active service of the company. */
  predicate Bookable(services: seq<Service>, id: int, companyId: int) {
    exists s :: s in services && s.id == id && s.companyId == companyId && s.isActive
  }

  predicate Selected(s: Service, serviceIds: seq<int>, companyId: int) {
    s.id in serviceIds && s.companyId == companyId && s.isActive
  }

  /** `service.findMany({ where: { id: { in: serviceIds }, companyId, isActive: true } })`. */
  function SelectServices(services: seq<Service>, serviceIds: seq<int>, companyId: int): seq<Service> {
    Filter(services, (s: Service) => Selected(s, serviceIds, companyId))
  }

  /** A service row as the plain object sumByProp reads. */
  function ServiceRecord(s: Service): seq<Entry> {
    [Entry("id", Num(s.id as real)), Entry("name", Str(s.name)), Entry("duration", Num(s.duration as real)),
     Entry("price", Num(s.price)), Entry("companyId", Num(s.companyId as real)), Entry("isActive", Bool(s.isActive))]
  }

  function Records(ss: seq<Service>): (r: seq<seq<Entry>>)
    ensures |r| == |ss|
  {
    if ss == [] then [] else Records(ss[..|ss| - 1]) + [ServiceRecord(ss[|ss| - 1])]
  }

  function DurationSum(ss: seq<Service>): int {
    if ss == [] then 0 else DurationSum(ss[..|ss| - 1]) + ss[|ss| - 1].duration
  }

  function PriceSum(ss: seq<Service>): real {
    if ss == [] then 0.0 else PriceSum(ss[..|ss| - 1]) + ss[|ss| - 1].price
  }

  lemma {:induction false} RecordAt(ss: seq<Service>, i: nat)
    requires i < |ss|
    ensures Records(ss)[i] == ServiceRecord(ss[i])
  {
    if i < |ss| - 1 {
      RecordAt(ss[..|ss| - 1], i);
    }
  }

  lemma RecordFields(s: Service)
    ensures Get(ServiceRecord(s), "duration") == Num(s.duration as real)
    ensures Get(ServiceRecord(s), "price") == Num(s.price)
  {
    var r := ServiceRecord(s);
    assert r[0].key != "duration" && r[0].key != "price" by {
      assert |r[0].key| == 2;
    }
    assert r[1].key != "duration" && r[1].key != "price" by {
      assert r[1].key[0] == 'n';
    }
    assert r[2].key != "price" by {
      assert |r[2].key| == 8;
    }
    assert r[1..][0] == r[1] && r[1..][1..] == r[2..];
    assert r[2..][0] == r[2] && r[2..][1..] == r[3..];
    assert r[3..][0] == r[3];
    assert Get(r, "duration") == Get(r[1..], "duration") == Get(r[2..], "duration");
    assert Get(r, "price") == Get(r[1..], "price") == Get(r[2..], "price") == Get(r[3..], "price");
  }

  /** Service rows always have numeric durations and prices. */
  lemma RecordsAreNumbers(ss: seq<Service>)
    ensures AllNumbers(Records(ss), "duration") && AllNumbers(Records(ss), "price")
  {
    forall i | 0 <= i < |ss|
      ensures Get(Records(ss)[i], "duration").Num? && Get(Records(ss)[i], "price").Num?
    {
      RecordAt(ss, i);
      RecordFields(ss[i]);
    }
  }

  /** sumByProp over the rows adds up the durations exactly. */
  lemma {:induction false} DurationTotal(ss: seq<Service>)
    ensures AllNumbers(Records(ss), "duration")
    ensures Total(Records(ss), "duration") == DurationSum(ss) as real
  {
    RecordsAreNumbers(ss);
    if ss != [] {
      var init := ss[..|ss| - 1];
      var rs := Records(ss);
      DurationTotal(init);
      assert rs[..|rs| - 1] == Records(init);
      RecordFields(ss[|ss| - 1]);
    }
  }

  /** sumByProp over the rows adds up the prices exactly. */
  lemma {:induction false} PriceTotal(ss: seq<Service>)
    ensures AllNumbers(Records(ss), "price")
    ensures Total(Records(ss), "price") == PriceSum(ss)
  {
    RecordsAreNumbers(ss);
    if ss != [] {
      var init := ss[..|ss| - 1];
      var rs := Records(ss);
      PriceTotal(init);
      assert rs[..|rs| - 1] == Records(init);
      RecordFields(ss[|ss| - 1]);
    }
  }

  /** The discount of the request counts only for the admin route with a role
      that is present, non-empty and not CLIENT. */
  predicate DiscountApplies(req: BookingRequest, role: Option<string>) {
    req.AdminBooking? && role.Some? && role.value != "" && role.value != "CLIENT"
  }

  function RequestedDiscount(req: BookingRequest, role: Option<string>): real {
    if DiscountApplies(req, role) then req.discount.GetOr(0.0) else 0.0
  }

  /** prepareAppointmentData: every requested id must select a distinct
      active service of the company; duration and subtotal are the sums over
      the selected services; the discount must lie in [0, subtotal]. */
  function Prepare(services: seq<Service>, req: BookingRequest, clientId: int, companyId: int,
                   role: Option<string>): (r: Result<Prepared>)
    ensures var found := SelectServices(services, req.serviceIds, companyId);
            && (|found| == 0 <==> r == Fail(NoValidService))
            && (|found| != 0 && |found| != |req.serviceIds| <==> r == Fail(SomeServicesInvalid))
            && (|found| != 0 && |found| == |req.serviceIds| && RequestedDiscount(req, role) > PriceSum(found)
                <==> r == Fail(DiscountTooLarge))
            && (|found| != 0 && |found| == |req.serviceIds| && RequestedDiscount(req, role) <= PriceSum(found)
                && RequestedDiscount(req, role) < 0.0
                <==> r == Fail(NegativeDiscount))
            && (|found| != 0 && |found| == |req.serviceIds| && 0.0 <= RequestedDiscount(req, role) <= PriceSum(found)
                <==> r.Ok?)
            && (r.Ok? ==> |found| == |req.serviceIds|
                          && r.value.duration == DurationSum(found)
                          && r.value.subTotalPrice == PriceSum(found))
    ensures r.Fail? ==> r.error in {NoValidService, SomeServicesInvalid, DiscountTooLarge, NegativeDiscount}
    ensures r.Ok? ==>
              && r.value.date == req.date && r.value.clientId == clientId && r.value.companyId == companyId
              && r.value.discount == RequestedDiscount(req, role)
              && 0.0 <= r.value.discount <= r.value.subTotalPrice
              && r.value.totalPrice == r.value.subTotalPrice - r.value.discount
              && r.value.status == Pending
              && (r.value.notes != NoNotes <==> r.value.discount > 0.0)
              && (r.value.discount > 0.0 ==> r.value.notes == DiscountNote(r.value.subTotalPrice, r.value.discount))
  {
    var found := SelectServices(services, req.serviceIds, companyId);
    if |found| == 0 then Fail(NoValidService)
    else if |found| != |req.serviceIds| then Fail(SomeServicesInvalid)
    else
      DurationTotal(found);
      PriceTotal(found);
      var totalDuration := SumByProp(Records(found), "duration").value;
      var subTotalPrice := SumByProp(Records(found), "price").value;
      var discount := RequestedDiscount(req, role);
      if discount > subTotalPrice then Fail(DiscountTooLarge)
      else if discount < 0.0 then Fail(NegativeDiscount)
      else
        Ok(Prepared(req.date, clientId, companyId, subTotalPrice, discount, subTotalPrice - discount,
                    totalDuration.Floor, Pending,
                    if discount > 0.0 then DiscountNote(subTotalPrice, discount) else NoNotes))
  }

  /** Client bookings never get a discount, whatever role is passed. */
  lemma ClientBookingNoDiscount(services: seq<Service>, req: BookingRequest, clientId: int, companyId: int,
                                role: Option<string>)
    requires req.ClientBooking?
    requires Prepare(services, req, clientId, companyId, role).Ok?
    ensures Prepare(services, req, clientId, companyId, role).value.discount == 0.0
    ensures Prepare(services, req, clientId, companyId, role).value.notes == NoNotes
    ensures Prepare(services, req, clientId, companyId, role).value.totalPrice ==
            Prepare(services, req, clientId, companyId, role).value.subTotalPrice
  {
  }

  // ---------------------------------------------------------------- selection size

  function IdsOf(ss: seq<Service>): (r: seq<int>)
    ensures |r| == |ss| && forall i :: 0 <= i < |ss| ==> r[i] == ss[i].id
  {
    if ss == [] then [] else [ss[0].id] + IdsOf(ss[1..])
  }

  function ToSet(xs: seq<int>): set<int> {
    set x | x in xs
  }

  /** A sequence has at least as many entries as distinct values, and
      exactly as many when its entries are distinct. */
  lemma {:induction false} ToSetSize(xs: seq<int>)
    ensures |ToSet(xs)| <= |xs|
    ensures |ToSet(xs)| == |xs| <==> Distinct(xs)
  {
    if xs != [] {
      var t := xs[1..];
      ToSetSize(t);
      assert ToSet(xs) == ToSet(t) + {xs[0]};
      if xs[0] in t {
        assert ToSet(xs) == ToSet(t);
        var j :| 0 <= j < |t| && t[j] == xs[0];
        assert xs[0] == xs[j + 1];
      } else {
        assert |ToSet(xs)| == |ToSet(t)| + 1;
        if Distinct(t) {
          forall i, j | 0 <= i < j < |xs| ensures xs[i] != xs[j] {
            if i > 0 {
              assert xs[i] == t[i - 1] && xs[j] == t[j - 1];
            } else {
              assert xs[j] == t[j - 1];
            }
          }
        }
        if Distinct(xs) {
          forall i, j | 0 <= i < j < |t| ensures t[i] != t[j] {
            assert t[i] == xs[i + 1] && t[j] == xs[j + 1];
          }
        }
      }
    }
  }

  /** A subset is no larger, and a subset of the same size is the whole set. */
  lemma SubsetSize(a: set<int>, b: set<int>)
    requires a <= b
    ensures |a| <= |b|
    ensures |a| == |b| ==> a == b
  {
    var rest := b - a;
    assert b == a + rest;
    assert a * rest == {};
    if |a| == |b| {
      assert |rest| == 0;
    }
  }

  /** Filtering rows with distinct ids keeps them distinct. */
  lemma {:induction false} FilterKeepsIdsDistinct(services: seq<Service>, p: Service -> bool)
    requires UniqueServiceIds(services)
    ensures Distinct(IdsOf(Filter(services, p)))
  {
    if services != [] {
      var t := services[1..];
      assert UniqueServiceIds(t) by {
        forall i, j | 0 <= i < j < |t| ensures t[i].id != t[j].id {
          assert t[i] == services[i + 1] && t[j] == services[j + 1];
        }
      }
      FilterKeepsIdsDistinct(t, p);
      if p(services[0]) {
        var rest := IdsOf(Filter(t, p));
        var ids := IdsOf(Filter(services, p));
        assert ids == [services[0].id] + rest;
        forall k | 0 <= k < |rest| ensures rest[k] != services[0].id {
          var s := Filter(t, p)[k];
          assert s in t;
          var m :| 0 <= m < |t| && t[m] == s;
          assert services[m + 1] == s;
        }
        forall i, j | 0 <= i < j < |ids| ensures ids[i] != ids[j] {
          if i > 0 {
            assert ids[i] == rest[i - 1];
          }
          assert ids[j] == rest[j - 1];
        }
      }
    }
  }

  /** Pricing finds as many services as ids were requested exactly when the
      ids are non-empty, pairwise distinct, and each names an active service
      of the company. So duplicate, inactive, foreign and unknown ids all
      fail. */
  lemma SelectionMatchesRequest(services: seq<Service>, serviceIds: seq<int>, companyId: int)
    requires UniqueServiceIds(services)
    ensures var found := SelectServices(services, serviceIds, companyId);
            (|found| != 0 && |found| == |serviceIds|) <==>
            (serviceIds != [] && Distinct(serviceIds)
             && forall k :: 0 <= k < |serviceIds| ==> Bookable(services, serviceIds[k], companyId))
  {
    var found := SelectServices(services, serviceIds, companyId);
    var foundIds := IdsOf(found);
    FilterKeepsIdsDistinct(services, (s: Service) => Selected(s, serviceIds, companyId));
    ToSetSize(foundIds);
    ToSetSize(serviceIds);
    var bookable := set id | id in serviceIds && Bookable(services, id, companyId);
    assert ToSet(foundIds) == bookable by {
      forall id ensures id in ToSet(foundIds) <==> id in bookable {
        if id in ToSet(foundIds) {
          var k :| 0 <= k < |foundIds| && foundIds[k] == id;
          assert found[k] in found;
        }
        if id in bookable {
          var s :| s in services && s.id == id && s.companyId == companyId && s.isActive;
          assert s in found;
          var k :| 0 <= k < |found| && found[k] == s;
          assert foundIds[k] == id;
        }
      }
    }
    assert bookable <= ToSet(serviceIds);
    if |found| != 0 && |found| == |serviceIds| {
      SubsetSize(bookable, ToSet(serviceIds));
      assert |ToSet(serviceIds)| <= |serviceIds| == |bookable|;
      forall k | 0 <= k < |serviceIds| ensures Bookable(services, serviceIds[k], companyId) {
        assert serviceIds[k] in ToSet(serviceIds);
      }
    }
    if serviceIds != [] && Distinct(serviceIds)
       && forall k :: 0 <= k < |serviceIds| ==> Bookable(services, serviceIds[k], companyId) {
      assert bookable == ToSet(serviceIds);
      assert serviceIds[0] in bookable;
    }
  }

  // ---------------------------------------------------------------- blocks

  /** `client: { name: 'Bloqueio' }`: the row's client is the sentinel. */
  predicate IsBlock(clients: seq<Client>, a: Appointment)
    ensures IsBlock(clients, a) ==> exists c :: c in clients && c.id == a.clientId && c.name == BlockClientName
  {
    var i := First(clients, (c: Client) => c.id == a.clientId);
    i.Some? && clients[i.value].name == BlockClientName
  }

  /** `client: { name: { not: 'Bloqueio' } }`: the row has a client and it is
      not the sentinel. */
  predicate IsRegular(clients: seq<Client>, a: Appointment)
    ensures IsRegular(clients, a) <==> (exists c :: c in clients && c.id == a.clientId) && !IsBlock(clients, a)
  {
    var i := First(clients, (c: Client) => c.id == a.clientId);
    if i.Some? then assert clients[i.value] in clients; clients[i.value].name != BlockClientName
    else false
  }

  /** The where clause of checkForBlockConflicts: a PENDING or CONFIRMED row
      of the company starting inside the range, or before it. */
  predicate ConflictCandidate(a: Appointment, companyId: int, start: int, end: int) {
    && a.companyId == companyId
    && (a.status == Pending || a.status == Confirmed)
    && ((start <= a.date && a.date < end) || a.date < start)
  }

  function EndOf(a: Appointment): int {
    a.date + a.duration * MillisPerMinute
  }

  /** checkForBlockConflicts: only the first candidate row is looked at, and
      the block is refused iff that row ends after the block starts. */
  function BlockConflict(rows: seq<Appointment>, companyId: int, start: int, end: int): (r: bool)
    ensures r ==> exists a :: a in rows && Active(a, companyId) && EndOf(a) > start
  {
    var i := First(rows, (a: Appointment) => ConflictCandidate(a, companyId, start, end));
    if i.Some? then assert rows[i.value] in rows; EndOf(rows[i.value]) > start
    else false
  }

  /** The half-open intervals [a.date, end of a) and [start, end) meet. */
  predicate Overlaps(a: Appointment, start: int, end: int) {
    a.date < end && EndOf(a) > start
  }

  predicate Active(a: Appointment, companyId: int) {
    a.companyId == companyId && (a.status == Pending || a.status == Confirmed)
  }

  /** A refusal always points at a real overlap with an active row of the
      company; so a range that overlaps nothing, including one that only
      touches other rows at its endpoints, is never refused. */
  lemma ConflictMeansOverlap(rows: seq<Appointment>, companyId: int, start: int, end: int)
    requires start < end
    ensures BlockConflict(rows, companyId, start, end) ==>
              exists a :: a in rows && Active(a, companyId) && Overlaps(a, start, end)
    ensures (forall a :: a in rows && Active(a, companyId) ==> a.date >= end || EndOf(a) <= start) ==>
              !BlockConflict(rows, companyId, start, end)
  {
    var i := First(rows, (a: Appointment) => ConflictCandidate(a, companyId, start, end));
    if i.Some? {
      assert rows[i.value] in rows;
    }
  }

  /** Only the first candidate is inspected: an earlier row that ended before
      the block hides a later row that overlaps it. */
  lemma LaterOverlapMissed()
    ensures var early := Appointment(1, 0, 10, 1, 0.0, 0.0, 0.0, 10, Pending, NoNotes);
            var late := Appointment(2, 1000000, 10, 1, 0.0, 0.0, 0.0, 60, Confirmed, NoNotes);
            && Active(late, 1) && Overlaps(late, 900000, 2000000)
            && !BlockConflict([early, late], 1, 900000, 2000000)
  {
    var early := Appointment(1, 0, 10, 1, 0.0, 0.0, 0.0, 10, Pending, NoNotes);
    var late := Appointment(2, 1000000, 10, 1, 0.0, 0.0, 0.0, 60, Confirmed, NoNotes);
    assert ConflictCandidate(early, 1, 900000, 2000000);
    assert First([early, late], (a: Appointment) => ConflictCandidate(a, 1, 900000, 2000000)) == Some(0);
  }

  /** differenceInMinutes(end, start): whole minutes, truncated toward zero. */
  function DifferenceInMinutes(end: int, start: int): (m: int)
    ensures end >= start ==> m * MillisPerMinute <= end - start < (m + 1) * MillisPerMinute
    ensures end < start ==> (m - 1) * MillisPerMinute < end - start <= m * MillisPerMinute
  {
    if end >= start then (end - start) / MillisPerMinute else -((start - end) / MillisPerMinute)
  }

  /** The truncated minute count is positive iff the range spans at least a
      whole minute. */
  lemma PositiveDuration(start: int, end: int)
    ensures DifferenceInMinutes(end, start) > 0 <==> end - start >= MillisPerMinute
  {
  }

  // ---------------------------------------------------------------- status

  /** The guard of markAsCompleted / markAsCanceled on the row they found:
      company mismatch first, then a status other than PENDING. */
  function Transition(a: Appointment, companyId: int, target: Status): (r: Result<Appointment>)
    ensures a.companyId != companyId <==> r == Fail(Unauthorized)
    ensures a.companyId == companyId && a.status != Pending <==> r == Fail(NotPending)
    ensures r.Ok? <==> a.companyId == companyId && a.status == Pending
    ensures r.Ok? ==> r.value == a.(status := target)
  {
    if a.companyId != companyId then Fail(Unauthorized)
    else if a.status != Pending then Fail(NotPending)
    else Ok(a.(status := target))
  }

  /** Blocks are stored CONFIRMED, so they can be neither completed nor
      cancelled; a completed or cancelled row cannot change again. */
  lemma OnlyPendingMoves(a: Appointment, companyId: int, target: Status)
    requires a.status != Pending
    ensures Transition(a, companyId, target) == Fail(if a.companyId == companyId then NotPending else Unauthorized)
  {
  }

  // ---------------------------------------------------------------- listings

  /** listPendingAppointments: PENDING rows that are not blocks. */
  function ListPending(rows: seq<Appointment>, clients: seq<Client>): (r: seq<Appointment>)
    ensures forall a :: a in r <==> a in rows && a.status == Pending && IsRegular(clients, a)
    ensures forall a :: multiset(r)[a] == if a.status == Pending && IsRegular(clients, a) then multiset(rows)[a] else 0
  {
    var pending := (a: Appointment) => a.status == Pending && IsRegular(clients, a);
    FilterCounts(rows, pending);
    Filter(rows, pending)
  }

  /** findAllByCompany: the company's rows that are not blocks. */
  function FindAllByCompany(rows: seq<Appointment>, clients: seq<Client>, companyId: int): (r: seq<Appointment>)
    ensures forall a :: a in r <==> a in rows && a.companyId == companyId && IsRegular(clients, a)
    ensures forall a :: multiset(r)[a] == if a.companyId == companyId && IsRegular(clients, a) then multiset(rows)[a] else 0
  {
    var regular := (a: Appointment) => a.companyId == companyId && IsRegular(clients, a);
    FilterCounts(rows, regular);
    Filter(rows, regular)
  }

  /** findBlocksByCompany: the company's blocks, newest first. */
  function FindBlocksByCompany(rows: seq<Appointment>, clients: seq<Client>, companyId: int): (r: seq<Appointment>)
    ensures forall a :: a in r <==> a in rows && a.companyId == companyId && IsBlock(clients, a)
    ensures forall i :: 0 < i < |r| ==> r[i - 1].date >= r[i].date
    ensures forall a :: multiset(r)[a] == if a.companyId == companyId && IsBlock(clients, a) then multiset(rows)[a] else 0
  {
    var blocks := Filter(rows, (a: Appointment) => a.companyId == companyId && IsBlock(clients, a));
    FilterCounts(rows, (a: Appointment) => a.companyId == companyId && IsBlock(clients, a));
    var le := (x: Appointment, y: Appointment) => x.date >= y.date;
    var r := SortBy(blocks, le);
    assert forall a :: a in r <==> a in blocks by {
      forall a ensures a in r <==> a in blocks {
        assert a in r <==> a in multiset(r);
        assert a in blocks <==> a in multiset(blocks);
      }
    }
    r
  }

  /** Newest first holds between any two rows, not only neighbours. */
  lemma {:induction false} BlocksNewestFirst(rows: seq<Appointment>, clients: seq<Client>, companyId: int, i: nat, j: nat)
    requires i <= j < |FindBlocksByCompany(rows, clients, companyId)|
    ensures FindBlocksByCompany(rows, clients, companyId)[i].date >= FindBlocksByCompany(rows, clients, companyId)[j].date
    decreases j - i
  {
    if i < j {
      BlocksNewestFirst(rows, clients, companyId, i, j - 1);
    }
  }

  /** A company row with a client is either listed by findAllByCompany or by
      findBlocksByCompany, never by both; blocks are never pending-listed. */
  lemma ListingsPartition(rows: seq<Appointment>, clients: seq<Client>, companyId: int, a: Appointment)
    requires a in rows && a.companyId == companyId
    requires exists c :: c in clients && c.id == a.clientId
    ensures a in FindAllByCompany(rows, clients, companyId) <==> a !in FindBlocksByCompany(rows, clients, companyId)
    ensures a in FindBlocksByCompany(rows, clients, companyId) ==> a !in ListPending(rows, clients)
  {
    var c :| c in clients && c.id == a.clientId;
    var k :| 0 <= k < |clients| && clients[k] == c;
    assert First(clients, (c: Client) => c.id == a.clientId).Some?;
  }

  /** findAllByClient: the client must exist in the company; then its rows in
      that company. */
  function FindAllByClient(rows: seq<Appointment>, clients: seq<Client>, clientId: int, companyId: int)
    : (r: Result<seq<Appointment>>)
    ensures r.Fail? <==> !exists c :: c in clients && c.id == clientId && c.companyId == companyId
    ensures r.Fail? ==> r.error == ClientNotFound
    ensures r.Ok? ==> forall a :: a in r.value <==> a in rows && a.clientId == clientId && a.companyId == companyId
    ensures r.Ok? ==> forall a :: multiset(r.value)[a] ==
                                   if a.clientId == clientId && a.companyId == companyId then multiset(rows)[a] else 0
  {
    var i := First(clients, (c: Client) => c.id == clientId && c.companyId == companyId);
    if i.None? then
      Fail(ClientNotFound)
    else
      assert clients[i.value] in clients;
      var mine := (a: Appointment) => a.clientId == clientId && a.companyId == companyId;
      FilterCounts(rows, mine);
      Ok(Filter(rows, mine))
  }
}
