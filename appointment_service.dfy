/** AppointmentService (src/modules/appointments/appointment.service.ts): the
    state-changing half of the appointment engine. Bookings (by a client or
    an admin), reschedules, blocks of the agenda, deletions and status
    changes, each as a method on the tables it writes. */
module AppointmentService {
  import opened Common
  import opened Tables
  import opened AppointmentRules
  import ClientsService

  // ---------------------------------------------------------------- join rows

  /** The appointmentService rows `createMany` writes: one per requested id,
      in request order. */
  function LinksFor(appointmentId: int, serviceIds: seq<int>): (r: seq<Link>)
    ensures |r| == |serviceIds|
    ensures forall k :: 0 <= k < |r| ==> r[k] == Link(appointmentId, serviceIds[k])
  {
    seq(|serviceIds|, k requires 0 <= k < |serviceIds| => Link(appointmentId, serviceIds[k]))
  }

  /** The services linked to an appointment, in join-table order. */
  function LinkedServices(links: seq<Link>, appointmentId: int): (r: seq<int>)
    ensures |r| <= |links|
    ensures forall s :: s in r <==> Link(appointmentId, s) in links
  {
    if links == [] then []
    else
      var rest := LinkedServices(links[1..], appointmentId);
      assert forall l :: l in links <==> l == links[0] || l in links[1..];
      if links[0].appointmentId == appointmentId then [links[0].serviceId] + rest else rest
  }

  /** `appointmentService.deleteMany({ where: { appointmentId } })`. */
  function DropLinks(links: seq<Link>, appointmentId: int): (r: seq<Link>)
    ensures forall l :: l in r <==> l in links && l.appointmentId != appointmentId
  {
    Filter(links, (l: Link) => l.appointmentId != appointmentId)
  }

  /** Every join row points below the next appointment id. */
  predicate LinksBelow(links: seq<Link>, nextId: int) {
    forall l :: l in links ==> l.appointmentId < nextId
  }

  lemma {:induction false} LinkedServicesAppend(a: seq<Link>, b: seq<Link>, appointmentId: int)
    ensures LinkedServices(a + b, appointmentId) == LinkedServices(a, appointmentId) + LinkedServices(b, appointmentId)
  {
    if a != [] {
      assert (a + b)[0] == a[0] && (a + b)[1..] == a[1..] + b;
      LinkedServicesAppend(a[1..], b, appointmentId);
      var head := if a[0].appointmentId == appointmentId then [a[0].serviceId] else [];
      assert LinkedServices(a + b, appointmentId) == head + LinkedServices(a[1..] + b, appointmentId);
      assert LinkedServices(a, appointmentId) == head + LinkedServices(a[1..], appointmentId);
    } else {
      assert a + b == b;
    }
  }

  /** The rows written for an appointment link exactly the requested ids to
      it and nothing to any other appointment. */
  lemma {:induction false} LinkedServicesFor(appointmentId: int, serviceIds: seq<int>, other: int)
    ensures LinkedServices(LinksFor(appointmentId, serviceIds), appointmentId) == serviceIds
    ensures other != appointmentId ==> LinkedServices(LinksFor(appointmentId, serviceIds), other) == []
  {
    if serviceIds != [] {
      var links := LinksFor(appointmentId, serviceIds);
      assert links[1..] == LinksFor(appointmentId, serviceIds[1..]);
      LinkedServicesFor(appointmentId, serviceIds[1..], other);
      assert serviceIds == [serviceIds[0]] + serviceIds[1..];
    }
  }

  /** Dropping an appointment's rows unlinks all its services and no other
      appointment's. */
  lemma {:induction false} LinkedServicesDrop(links: seq<Link>, appointmentId: int, other: int)
    ensures LinkedServices(DropLinks(links, appointmentId), appointmentId) == []
    ensures other != appointmentId ==>
              LinkedServices(DropLinks(links, appointmentId), other) == LinkedServices(links, other)
  {
    if links != [] {
      LinkedServicesDrop(links[1..], appointmentId, other);
      var rest := DropLinks(links[1..], appointmentId);
      if links[0].appointmentId != appointmentId {
        assert DropLinks(links, appointmentId) == [links[0]] + rest;
        LinkedServicesAppend([links[0]], rest, appointmentId);
        LinkedServicesAppend([links[0]], rest, other);
      } else {
        assert DropLinks(links, appointmentId) == rest;
      }
    }
  }

  /** No join row points at an id not yet handed out. */
  lemma LinksBelowUnlinked(links: seq<Link>, nextId: int)
    requires LinksBelow(links, nextId)
    ensures LinkedServices(links, nextId) == []
  {
  }

  /** Join rows written for the next id keep every join row below the
      advanced counter. */
  lemma LinksBelowAfterInsert(links: seq<Link>, nextId: int, serviceIds: seq<int>)
    requires LinksBelow(links, nextId)
    ensures LinksBelow(links + LinksFor(nextId, serviceIds), nextId + 1)
  {
  }

  // ---------------------------------------------------------------- bookings

  /** The row `appointment.create` inserts from prepared data. */
  function NewAppointment(id: int, p: Prepared): (a: Appointment)
    ensures a.id == id && a.date == p.date && a.clientId == p.clientId && a.companyId == p.companyId
    ensures a.subTotalPrice == p.subTotalPrice && a.discount == p.discount && a.totalPrice == p.totalPrice
    ensures a.duration == p.duration && a.status == p.status && a.notes == p.notes
  {
    Appointment(id, p.date, p.clientId, p.companyId, p.subTotalPrice, p.discount, p.totalPrice,
                p.duration, p.status, p.notes)
  }

  /** The prices of a row agree: the discount lies in [0, subtotal] and the
      total is the subtotal less the discount. */
  predicate PricesConsistent(a: Appointment) {
    0.0 <= a.discount <= a.subTotalPrice && a.totalPrice == a.subTotalPrice - a.discount
  }

  /** The writes of a booking once the client and the company are known:
      prepareAppointmentData, then the appointment under the next id and one
      join row per requested service; nothing is written when preparing
      fails. Returns the outcome, the new appointment rows, the next id and
      the new join rows. */
  function Book(appointments: seq<Appointment>, nextId: int, links: seq<Link>, services: seq<Service>,
                req: BookingRequest, clientId: int, companyId: int, role: Option<string>)
    : (r: (Result<Appointment>, seq<Appointment>, int, seq<Link>))
    ensures r.0.Ok? <==> Prepare(services, req, clientId, companyId, role).Ok?
    ensures r.0.Fail? ==> Prepare(services, req, clientId, companyId, role).Fail?
                          && r.0 == Fail(Prepare(services, req, clientId, companyId, role).error)
                          && r.1 == appointments && r.2 == nextId && r.3 == links
    ensures r.0.Ok? ==>
              && r.1 == appointments + [r.0.value] && r.2 == nextId + 1
              && r.0.value.id == nextId && r.0.value.status == Pending
              && r.0.value.clientId == clientId && r.0.value.companyId == companyId && r.0.value.date == req.date
              && PricesConsistent(r.0.value)
              && (r.0.value.notes != NoNotes <==> r.0.value.discount > 0.0)
              && r.3 == links + LinksFor(nextId, req.serviceIds)
    ensures r.0.Ok? ==>
              && Prepare(services, req, clientId, companyId, role).Ok?
              && r.0.value == NewAppointment(nextId, Prepare(services, req, clientId, companyId, role).value)
              && var found := SelectServices(services, req.serviceIds, companyId);
                 && r.0.value.duration == DurationSum(found) && r.0.value.subTotalPrice == PriceSum(found)
                 && r.0.value.discount == RequestedDiscount(req, role)
                 && r.0.value.totalPrice == PriceSum(found) - RequestedDiscount(req, role)
  {
    match Prepare(services, req, clientId, companyId, role)
    case Fail(e) => (Fail(e), appointments, nextId, links)
    case Ok(p) =>
      var a := NewAppointment(nextId, p);
      (Ok(a), appointments + [a], nextId + 1, links + LinksFor(nextId, req.serviceIds))
  }

  /** A successful booking links the new appointment to exactly the
      requested services, each a distinct active service of the company, and
      leaves every other appointment's services as they were. */
  lemma BookLinksRequestedServices(appointments: seq<Appointment>, nextId: int, links: seq<Link>,
                                   services: seq<Service>, req: BookingRequest, clientId: int, companyId: int,
                                   role: Option<string>, other: int)
    requires UniqueServiceIds(services) && LinksBelow(links, nextId)
    requires Book(appointments, nextId, links, services, req, clientId, companyId, role).0.Ok?
    ensures var newLinks := Book(appointments, nextId, links, services, req, clientId, companyId, role).3;
            && LinkedServices(newLinks, nextId) == req.serviceIds
            && Distinct(req.serviceIds)
            && (forall k :: 0 <= k < |req.serviceIds| ==> Bookable(services, req.serviceIds[k], companyId))
            && (other != nextId ==> LinkedServices(newLinks, other) == LinkedServices(links, other))
            && LinksBelow(newLinks, nextId + 1)
  {
    var written := LinksFor(nextId, req.serviceIds);
    LinkedServicesAppend(links, written, nextId);
    LinkedServicesAppend(links, written, other);
    LinkedServicesFor(nextId, req.serviceIds, other);
    LinksBelowUnlinked(links, nextId);
    SelectionMatchesRequest(services, req.serviceIds, companyId);
    assert forall l :: l in written ==> l.appointmentId == nextId;
  }

  /** Booking checks no schedule: whether it succeeds does not depend on the
      appointments already stored, so an overlapping booking is accepted. */
  lemma BookingIgnoresSchedule(appointments: seq<Appointment>, overlapping: Appointment, nextId: int,
                               links: seq<Link>, services: seq<Service>, req: BookingRequest, clientId: int,
                               companyId: int, role: Option<string>)
    ensures Book(appointments + [overlapping], nextId, links, services, req, clientId, companyId, role).0.Ok?
            <==> Book(appointments, nextId, links, services, req, clientId, companyId, role).0.Ok?
  {
  }

  /** What updateAppointment writes on the found row: date, duration and the
      three prices, with the client it already had. */
  function Rescheduled(a: Appointment, p: Prepared): (r: Appointment)
    requires p.clientId == a.clientId
    ensures r.id == a.id && r.clientId == a.clientId && r.companyId == a.companyId
    ensures r.status == a.status && r.notes == a.notes
    ensures r.date == p.date && r.duration == p.duration
    ensures r.subTotalPrice == p.subTotalPrice && r.discount == p.discount && r.totalPrice == p.totalPrice
  {
    a.(date := p.date, duration := p.duration, subTotalPrice := p.subTotalPrice, discount := p.discount,
       totalPrice := p.totalPrice, clientId := p.clientId)
  }

  /** A reschedule relinks the appointment to exactly the new services and
      leaves the other appointments' services alone. */
  lemma RelinkReplacesServices(links: seq<Link>, appointmentId: int, serviceIds: seq<int>, other: int)
    ensures LinkedServices(DropLinks(links, appointmentId) + LinksFor(appointmentId, serviceIds), appointmentId)
            == serviceIds
    ensures other != appointmentId ==>
              LinkedServices(DropLinks(links, appointmentId) + LinksFor(appointmentId, serviceIds), other)
              == LinkedServices(links, other)
  {
    var kept := DropLinks(links, appointmentId);
    var written := LinksFor(appointmentId, serviceIds);
    LinkedServicesAppend(kept, written, appointmentId);
    LinkedServicesAppend(kept, written, other);
    LinkedServicesDrop(links, appointmentId, other);
    LinkedServicesFor(appointmentId, serviceIds, other);
  }

  // ---------------------------------------------------------------- blocks

  /** The sentinel client "Bloqueio" createBlock makes for a company. */
  function BlockClient(id: int, companyId: int): (c: Client)
    ensures c.id == id && c.companyId == companyId && c.name == BlockClientName && c.isBlocked
  {
    Client(id, BlockClientName, "0000000000", Some("bloqueio@sistema.com"), companyId, true)
  }

  /** The sentinel service "__BLOCK__": free, zero minutes, hidden. */
  function BlockService(id: int, companyId: int): (s: Service)
    ensures s.id == id && s.companyId == companyId && s.name == BlockServiceName
    ensures !s.isActive && s.deletedAt.None? && s.price == 0.0 && s.duration == 0
  {
    Service(id, BlockServiceName, Some("Serviço reservado para bloqueio de horários"), 0, 0.0, companyId, false, None)
  }

  /** The client table after the find-or-create of the sentinel client, with
      the sentinel: the first client of the company named "Bloqueio", or a
      new one. */
  function WithBlockClient(rows: seq<Client>, nextId: int, companyId: int): (r: (seq<Client>, int, Client))
    ensures r.2 in r.0 && r.2.name == BlockClientName && r.2.companyId == companyId
    ensures (exists c :: c in rows && c.name == BlockClientName && c.companyId == companyId) ==>
              r.0 == rows && r.1 == nextId
    ensures (forall c :: c in rows ==> !(c.name == BlockClientName && c.companyId == companyId)) ==>
              r.0 == rows + [r.2] && r.1 == nextId + 1 && r.2 == BlockClient(nextId, companyId)
  {
    match First(rows, (c: Client) => c.name == BlockClientName && c.companyId == companyId)
    case Some(i) => (rows, nextId, rows[i])
    case None =>
      var c := BlockClient(nextId, companyId);
      (rows + [c], nextId + 1, c)
  }

  /** The service table after the find-or-create of the sentinel service. */
  function WithBlockService(rows: seq<Service>, nextId: int, companyId: int): (r: (seq<Service>, int, Service))
    ensures r.2 in r.0 && r.2.name == BlockServiceName && r.2.companyId == companyId
    ensures (exists s :: s in rows && s.name == BlockServiceName && s.companyId == companyId) ==>
              r.0 == rows && r.1 == nextId
    ensures (forall s :: s in rows ==> !(s.name == BlockServiceName && s.companyId == companyId)) ==>
              r.0 == rows + [r.2] && r.1 == nextId + 1 && r.2 == BlockService(nextId, companyId)
  {
    match First(rows, (s: Service) => s.name == BlockServiceName && s.companyId == companyId)
    case Some(i) => (rows, nextId, rows[i])
    case None =>
      var s := BlockService(nextId, companyId);
      (rows + [s], nextId + 1, s)
  }

  /** A second block finds the sentinels the first one made: the
      find-or-create creates at most once per company. */
  lemma {:induction false} SentinelsCreatedOnce(clients: seq<Client>, clientNext: int, services: seq<Service>,
                                                serviceNext: int, companyId: int)
    ensures var (c1, n1, s1) := WithBlockClient(clients, clientNext, companyId);
            WithBlockClient(c1, n1, companyId) == (c1, n1, s1)
    ensures var (c1, n1, s1) := WithBlockService(services, serviceNext, companyId);
            WithBlockService(c1, n1, companyId) == (c1, n1, s1)
  {
    var (c1, n1, x1) := WithBlockClient(clients, clientNext, companyId);
    match First(clients, (c: Client) => c.name == BlockClientName && c.companyId == companyId)
    case Some(i) =>
    case None =>
      assert c1[|clients|] == x1;
      assert forall k :: 0 <= k < |clients| ==> c1[k] == clients[k];
      assert First(c1, (c: Client) => c.name == BlockClientName && c.companyId == companyId) == Some(|clients|);
    var (s1, m1, y1) := WithBlockService(services, serviceNext, companyId);
    match First(services, (s: Service) => s.name == BlockServiceName && s.companyId == companyId)
    case Some(i) =>
    case None =>
      assert s1[|services|] == y1;
      assert forall k :: 0 <= k < |services| ==> s1[k] == services[k];
      assert First(s1, (s: Service) => s.name == BlockServiceName && s.companyId == companyId) == Some(|services|);
  }

  /** The row createBlock inserts: owned by the sentinel, CONFIRMED, free,
      lasting the whole minutes of the range. */
  function BlockRow(id: int, clientId: int, companyId: int, start: int, duration: int): (a: Appointment)
    ensures a.id == id && a.clientId == clientId && a.companyId == companyId && a.date == start
    ensures a.duration == duration && a.status == Confirmed && PricesConsistent(a) && a.totalPrice == 0.0
  {
    Appointment(id, start, clientId, companyId, 0.0, 0.0, 0.0, duration, Confirmed, Text("Bloqueio de agenda"))
  }

  /** With client ids unique, a row is a block exactly when the client it
      names is called "Bloqueio". */
  lemma BlockOwner(clients: seq<Client>, a: Appointment, owner: Client)
    requires forall i, j :: 0 <= i < j < |clients| ==> clients[i].id != clients[j].id
    requires owner in clients && owner.id == a.clientId
    ensures IsBlock(clients, a) <==> owner.name == BlockClientName
    ensures IsRegular(clients, a) <==> owner.name != BlockClientName
  {
    var i := First(clients, (c: Client) => c.id == a.clientId);
    var k :| 0 <= k < |clients| && clients[k] == owner;
    assert i.Some?;
    assert i.value == k;
  }

  /** A block that fits covers its whole range: it overlaps every range that
      meets [start, start + duration minutes). */
  lemma BlockCoversRange(id: int, clientId: int, companyId: int, start: int, end: int)
    requires DifferenceInMinutes(end, start) > 0
    ensures var b := BlockRow(id, clientId, companyId, start, DifferenceInMinutes(end, start));
            && Active(b, companyId) && start < EndOf(b) <= end
            && forall s, e :: s < e && s < EndOf(b) && start < e ==> Overlaps(b, s, e)
  {
    PositiveDuration(start, end);
  }

  class AppointmentService {
    const db: Database
    const clientsService: ClientsService.ClientsService

    constructor(db: Database, clientsService: ClientsService.ClientsService)
      requires clientsService.db == db
      ensures this.db == db && this.clientsService == clientsService
    {
      this.db := db;
      this.clientsService := clientsService;
    }

    /** The tables this service relies on hold their keys, and every join row
        points at an id already handed out. */
    ghost predicate Valid()
      reads this, db, clientsService, db.clients, db.appointments, db.links, db.services
    {
      && clientsService.db == db
      && db.clients.Valid() && db.appointments.Valid() && db.services.Valid()
      && LinksBelow(db.links.rows, db.appointments.nextId)
    }

    /** createAppointment. An admin books for an existing client, whose
        company is used; a client books with its details, which are upserted
        by phone first (that write stays even when pricing then fails,
        because it does not run in the booking's transaction). Then the
        appointment is priced and stored with its join rows. */
    method CreateAppointment(req: BookingRequest, role: Option<string>) returns (r: Result<Appointment>)
      requires Valid()
      modifies db.clients, db.appointments, db.links
      ensures Valid()
      ensures req.AdminBooking? ==> unchanged(db.clients)
      ensures req.AdminBooking? && old(db.clients.Find(req.clientId)).None? ==>
                r == Fail(ClientNotFound) && unchanged(db.appointments, db.links)
      ensures req.AdminBooking? && old(db.clients.Find(req.clientId)).Some? ==>
                var owner := old(db.clients.rows)[old(db.clients.Find(req.clientId)).value];
                (r, db.appointments.rows, db.appointments.nextId, db.links.rows)
                == Book(old(db.appointments.rows), old(db.appointments.nextId), old(db.links.rows), db.services.rows,
                        req, req.clientId, owner.companyId, role)
      ensures req.ClientBooking? && old(db.companies.Find(req.companyId)).None? ==>
                r == Fail(CompanyNotFound) && unchanged(db.clients, db.appointments, db.links)
      ensures req.ClientBooking? && old(db.companies.Find(req.companyId)).Some? ==>
                var (rows, next, client) := ClientsService.Upsert(old(db.clients.rows), old(db.clients.nextId),
                  ClientsService.ClientData(req.clientName, req.clientPhone, req.clientEmail, req.companyId));
                && db.clients.rows == rows && db.clients.nextId == next
                && (r, db.appointments.rows, db.appointments.nextId, db.links.rows)
                   == Book(old(db.appointments.rows), old(db.appointments.nextId), old(db.links.rows), db.services.rows,
                           req, client.id, req.companyId, role)
    {
      var clientId: int;
      var companyId: int;
      match req {
        case AdminBooking(id, _, _, _) =>
          var found := db.clients.Find(id);
          if found.None? {
            return Fail(ClientNotFound);
          }
          clientId := id;
          companyId := db.clients.rows[found.value].companyId;
        case ClientBooking(name, phone, email, company, _, _) =>
          var client := clientsService.Create(ClientsService.ClientData(name, phone, email, company));
          if client.Fail? {
            return Fail(client.error);
          }
          clientId := client.value.id;
          companyId := company;
      }
      r := Store(req, clientId, companyId, role);
    }

    /** The transaction's writes once the client and company are known:
        prepareAppointmentData, the appointment row and its join rows. */
    method Store(req: BookingRequest, clientId: int, companyId: int, role: Option<string>) returns (r: Result<Appointment>)
      requires db.appointments.Valid() && LinksBelow(db.links.rows, db.appointments.nextId)
      modifies db.appointments, db.links
      ensures db.appointments.Valid() && LinksBelow(db.links.rows, db.appointments.nextId)
      ensures (r, db.appointments.rows, db.appointments.nextId, db.links.rows)
              == Book(old(db.appointments.rows), old(db.appointments.nextId), old(db.links.rows), db.services.rows,
                      req, clientId, companyId, role)
    {
      ghost var booked := Book(db.appointments.rows, db.appointments.nextId, db.links.rows, db.services.rows,
                               req, clientId, companyId, role);
      var prepared := Prepare(db.services.rows, req, clientId, companyId, role);
      if prepared.Fail? {
        assert booked == (Fail(prepared.error), db.appointments.rows, db.appointments.nextId, db.links.rows);
        return Fail(prepared.error);
      }
      var a := NewAppointment(db.appointments.nextId, prepared.value);
      assert booked.0 == Ok(a);
      LinksBelowAfterInsert(db.links.rows, a.id, req.serviceIds);
      db.appointments.Insert(a);
      db.links.rows := db.links.rows + LinksFor(a.id, req.serviceIds);
      return Ok(a);
    }

    /** updateAppointment: the row must exist; it is repriced for its own
        client and company, its date, duration and prices are replaced, and
        its join rows are replaced by the requested services. Status and
        notes stay. */
    method UpdateAppointment(id: int, req: BookingRequest, role: string) returns (r: Result<Appointment>)
      requires req.AdminBooking?
      requires Valid()
      modifies db.appointments, db.links
      ensures Valid() && db.appointments.nextId == old(db.appointments.nextId)
      ensures r.Fail? ==> unchanged(db.appointments, db.links)
      ensures old(db.appointments.Find(id)).None? <==> r == Fail(AppointmentNotFound)
      ensures old(db.appointments.Find(id)).Some? ==>
                var i := old(db.appointments.Find(id)).value;
                var a := old(db.appointments.rows)[i];
                var p := Prepare(db.services.rows, req, a.clientId, a.companyId, Some(role));
                && (p.Fail? ==> r == Fail(p.error))
                && (p.Ok? ==> && r == Ok(Rescheduled(a, p.value))
                              && db.appointments.rows == old(db.appointments.rows)[i := r.value]
                              && db.links.rows == DropLinks(old(db.links.rows), id) + LinksFor(id, req.serviceIds))
    {
      var found := db.appointments.Find(id);
      if found.None? {
        return Fail(AppointmentNotFound);
      }
      var i := found.value;
      var a := db.appointments.rows[i];
      var prepared := Prepare(db.services.rows, req, a.clientId, a.companyId, Some(role));
      if prepared.Fail? {
        return Fail(prepared.error);
      }
      var updated := Rescheduled(a, prepared.value);
      db.appointments.rows := db.appointments.rows[i := updated];
      db.links.rows := DropLinks(db.links.rows, id) + LinksFor(id, req.serviceIds);
      assert id < db.appointments.nextId;
      return Ok(updated);
    }

    /** createBlock: the company must exist; the sentinel client and service
        are found or created (and stay, whatever follows); a range shorter
        than a minute and a conflict are refused; otherwise the block row is
        stored, with no join rows. */
    method CreateBlock(companyId: int, start: int, end: int) returns (r: Result<Appointment>)
      requires Valid()
      modifies db.clients, db.services, db.appointments
      ensures Valid()
      ensures old(db.companies.Find(companyId)).None? ==>
                r == Fail(CompanyNotFound) && unchanged(db.clients, db.services, db.appointments)
      ensures old(db.companies.Find(companyId)).Some? ==>
                var (clientRows, clientNext, owner) := WithBlockClient(old(db.clients.rows), old(db.clients.nextId), companyId);
                var (serviceRows, serviceNext, _) := WithBlockService(old(db.services.rows), old(db.services.nextId), companyId);
                var duration := DifferenceInMinutes(end, start);
                && db.clients.rows == clientRows && db.clients.nextId == clientNext
                && db.services.rows == serviceRows && db.services.nextId == serviceNext
                && (duration <= 0 <==> r == Fail(InvalidBlockRange))
                && (duration > 0 && BlockConflict(old(db.appointments.rows), companyId, start, end)
                    <==> r == Fail(ScheduleConflict))
                && (r.Fail? ==> r.error in {InvalidBlockRange, ScheduleConflict})
                && (r.Fail? ==> unchanged(db.appointments))
                && (r.Ok? ==> && r.value == BlockRow(old(db.appointments.nextId), owner.id, companyId, start, duration)
                              && db.appointments.rows == old(db.appointments.rows) + [r.value]
                              && db.appointments.nextId == old(db.appointments.nextId) + 1
                              && IsBlock(db.clients.rows, r.value)
                              && r.value in FindBlocksByCompany(db.appointments.rows, db.clients.rows, companyId))
    {
      if db.companies.Find(companyId).None? {
        return Fail(CompanyNotFound);
      }
      var owner := EnsureBlockClient(companyId);
      var _ := EnsureBlockService(companyId);
      r := InsertBlock(companyId, owner.id, start, end);
      if r.Ok? {
        BlockOwner(db.clients.rows, r.value, owner);
      }
    }

    /** The range check, the conflict check and the insert of createBlock. */
    method InsertBlock(companyId: int, ownerId: int, start: int, end: int) returns (r: Result<Appointment>)
      requires db.appointments.Valid()
      modifies db.appointments
      ensures db.appointments.Valid()
      ensures var duration := DifferenceInMinutes(end, start);
              && (duration <= 0 <==> r == Fail(InvalidBlockRange))
              && (duration > 0 && BlockConflict(old(db.appointments.rows), companyId, start, end)
                  <==> r == Fail(ScheduleConflict))
              && (r.Fail? ==> r.error in {InvalidBlockRange, ScheduleConflict})
              && (r.Fail? ==> unchanged(db.appointments))
              && (r.Ok? ==> && r.value == BlockRow(old(db.appointments.nextId), ownerId, companyId, start, duration)
                            && db.appointments.rows == old(db.appointments.rows) + [r.value]
                            && db.appointments.nextId == old(db.appointments.nextId) + 1)
    {
      var duration := DifferenceInMinutes(end, start);
      if duration <= 0 {
        return Fail(InvalidBlockRange);
      }
      if BlockConflict(db.appointments.rows, companyId, start, end) {
        return Fail(ScheduleConflict);
      }
      var block := BlockRow(db.appointments.nextId, ownerId, companyId, start, duration);
      db.appointments.rows := db.appointments.rows + [block];
      db.appointments.nextId := db.appointments.nextId + 1;
      return Ok(block);
    }

    /** The sentinel client of the company: found by name, else created. */
    method EnsureBlockClient(companyId: int) returns (owner: Client)
      requires db.clients.Valid()
      modifies db.clients
      ensures db.clients.Valid()
      ensures (db.clients.rows, db.clients.nextId, owner) == WithBlockClient(old(db.clients.rows), old(db.clients.nextId), companyId)
    {
      var found := First(db.clients.rows, (c: Client) => c.name == BlockClientName && c.companyId == companyId);
      if found.Some? {
        return db.clients.rows[found.value];
      }
      owner := BlockClient(db.clients.nextId, companyId);
      db.clients.rows := db.clients.rows + [owner];
      db.clients.nextId := db.clients.nextId + 1;
    }

    /** The sentinel service of the company: found by name, else created. */
    method EnsureBlockService(companyId: int) returns (sentinel: Service)
      requires db.services.Valid()
      modifies db.services
      ensures db.services.Valid()
      ensures (db.services.rows, db.services.nextId, sentinel) == WithBlockService(old(db.services.rows), old(db.services.nextId), companyId)
    {
      var found := First(db.services.rows, (s: Service) => s.name == BlockServiceName && s.companyId == companyId);
      if found.Some? {
        return db.services.rows[found.value];
      }
      sentinel := BlockService(db.services.nextId, companyId);
      db.services.rows := db.services.rows + [sentinel];
      db.services.nextId := db.services.nextId + 1;
    }

    /** deleteBlock: a missing row, a row that is not a block and another
        company's block are refused in that order; otherwise the row goes. */
    method DeleteBlock(id: int, companyId: int) returns (r: Result<Appointment>)
      requires Valid()
      modifies db.appointments
      ensures Valid() && db.appointments.nextId == old(db.appointments.nextId)
      ensures r.Fail? ==> r.error in {BlockNotFound, NotABlock, Unauthorized}
      ensures r.Fail? ==> unchanged(db.appointments)
      ensures old(db.appointments.Find(id)).None? <==> r == Fail(BlockNotFound)
      ensures old(db.appointments.Find(id)).Some? ==>
                var i := old(db.appointments.Find(id)).value;
                var a := old(db.appointments.rows)[i];
                && (!IsBlock(db.clients.rows, a) <==> r == Fail(NotABlock))
                && (IsBlock(db.clients.rows, a) && a.companyId != companyId <==> r == Fail(Unauthorized))
                && (r.Ok? ==> r.value == a && db.appointments.rows == RemoveAt(old(db.appointments.rows), i))
    {
      var found := db.appointments.Find(id);
      if found.None? {
        return Fail(BlockNotFound);
      }
      var i := found.value;
      var a := db.appointments.rows[i];
      if !IsBlock(db.clients.rows, a) {
        return Fail(NotABlock);
      }
      if a.companyId != companyId {
        return Fail(Unauthorized);
      }
      RemoveAtKeepsIds(db.appointments.rows, i, db.appointments.nextId);
      db.appointments.rows := RemoveAt(db.appointments.rows, i);
      return Ok(a);
    }

    /** deleteAppointment: the row with that id goes (P2025 when there is
        none); its join rows are not touched here. */
    method DeleteAppointment(id: int) returns (r: Result<Appointment>)
      requires Valid()
      modifies db.appointments
      ensures Valid() && db.appointments.nextId == old(db.appointments.nextId)
      ensures old(db.appointments.Find(id)).None? <==> r == Fail(RecordNotFound)
      ensures r.Fail? ==> unchanged(db.appointments)
      ensures old(db.appointments.Find(id)).Some? ==>
                var i := old(db.appointments.Find(id)).value;
                r == Ok(old(db.appointments.rows)[i]) && db.appointments.rows == RemoveAt(old(db.appointments.rows), i)
    {
      var found := db.appointments.Find(id);
      if found.None? {
        return Fail(RecordNotFound);
      }
      var i := found.value;
      r := Ok(db.appointments.rows[i]);
      RemoveAtKeepsIds(db.appointments.rows, i, db.appointments.nextId);
      db.appointments.rows := RemoveAt(db.appointments.rows, i);
    }

    /** markAsCompleted / markAsCanceled: the row must exist, belong to the
        company and be PENDING; then only its status changes to target. */
    method MarkAs(id: int, companyId: int, target: Status) returns (r: Result<Appointment>)
      requires Valid()
      modifies db.appointments
      ensures Valid() && db.appointments.nextId == old(db.appointments.nextId)
      ensures r.Fail? ==> unchanged(db.appointments)
      ensures old(db.appointments.Find(id)).None? <==> r == Fail(AppointmentNotFound)
      ensures old(db.appointments.Find(id)).Some? ==>
                var i := old(db.appointments.Find(id)).value;
                var a := old(db.appointments.rows)[i];
                && r == Transition(a, companyId, target)
                && (r.Ok? ==> db.appointments.rows == old(db.appointments.rows)[i := r.value])
    {
      var found := db.appointments.Find(id);
      if found.None? {
        return Fail(AppointmentNotFound);
      }
      var i := found.value;
      r := Transition(db.appointments.rows[i], companyId, target);
      if r.Ok? {
        db.appointments.rows := db.appointments.rows[i := r.value];
      }
    }

    /** markAsCompleted: PENDING to COMPLETED, through the checks of MarkAs. */
    method MarkAsCompleted(id: int, companyId: int) returns (r: Result<Appointment>)
      requires Valid()
      modifies db.appointments
      ensures Valid() && db.appointments.nextId == old(db.appointments.nextId)
      ensures r.Fail? ==> unchanged(db.appointments)
      ensures old(db.appointments.Find(id)).None? <==> r == Fail(AppointmentNotFound)
      ensures old(db.appointments.Find(id)).Some? ==>
                var i := old(db.appointments.Find(id)).value;
                var a := old(db.appointments.rows)[i];
                && r == Transition(a, companyId, Completed)
                && (r.Ok? ==> db.appointments.rows == old(db.appointments.rows)[i := r.value])
    {
      r := MarkAs(id, companyId, Completed);
    }

    /** markAsCanceled: PENDING to CANCELLED, through the checks of MarkAs. */
    method MarkAsCanceled(id: int, companyId: int) returns (r: Result<Appointment>)
      requires Valid()
      modifies db.appointments
      ensures Valid() && db.appointments.nextId == old(db.appointments.nextId)
      ensures r.Fail? ==> unchanged(db.appointments)
      ensures old(db.appointments.Find(id)).None? <==> r == Fail(AppointmentNotFound)
      ensures old(db.appointments.Find(id)).Some? ==>
                var i := old(db.appointments.Find(id)).value;
                var a := old(db.appointments.rows)[i];
                && r == Transition(a, companyId, Cancelled)
                && (r.Ok? ==> db.appointments.rows == old(db.appointments.rows)[i := r.value])
    {
      r := MarkAs(id, companyId, Cancelled);
    }

    /** updateAppointmentStatus: any status can be written on an existing
        row, with no company or status check. */
    method UpdateAppointmentStatus(id: int, status: Status) returns (r: Result<Appointment>)
      requires Valid()
      modifies db.appointments
      ensures Valid() && db.appointments.nextId == old(db.appointments.nextId)
      ensures r.Fail? ==> unchanged(db.appointments)
      ensures old(db.appointments.Find(id)).None? <==> r == Fail(AppointmentNotFound)
      ensures old(db.appointments.Find(id)).Some? ==>
                var i := old(db.appointments.Find(id)).value;
                r == Ok(old(db.appointments.rows)[i].(status := status))
                && db.appointments.rows == old(db.appointments.rows)[i := r.value]
    {
      var found := db.appointments.Find(id);
      if found.None? {
        return Fail(AppointmentNotFound);
      }
      var i := found.value;
      var a := db.appointments.rows[i].(status := status);
      db.appointments.rows := db.appointments.rows[i := a];
      return Ok(a);
    }

    /** findAppointmentById: the row with that id, or `null`. */
    method FindAppointmentById(id: int) returns (r: Option<Appointment>)
      ensures r.Some? ==> r.value in db.appointments.rows && r.value.id == id
      ensures r.None? <==> forall a :: a in db.appointments.rows ==> a.id != id
    {
      var found := db.appointments.Find(id);
      if found.None? {
        return None;
      }
      return Some(db.appointments.rows[found.value]);
    }
  }

  /** Taking a row out keeps ids unique and below the next id. */
  lemma RemoveAtKeepsIds(rows: seq<Appointment>, i: nat, nextId: int)
    requires i < |rows|
    requires forall j, k :: 0 <= j < k < |rows| ==> rows[j].id != rows[k].id
    requires forall j :: 0 <= j < |rows| ==> rows[j].id < nextId
    ensures var r := RemoveAt(rows, i);
            && (forall j, k :: 0 <= j < k < |r| ==> r[j].id != r[k].id)
            && (forall j :: 0 <= j < |r| ==> r[j].id < nextId)
  {
    var r := RemoveAt(rows, i);
    forall j, k | 0 <= j < k < |r| ensures r[j].id != r[k].id {
      var j' := if j < i then j else j + 1;
      var k' := if k < i then k else k + 1;
      assert r[j] == rows[j'] && r[k] == rows[k'];
    }
  }
}
