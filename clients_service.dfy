/** ClientsService (src/modules/clients/clients.service.ts): clients are
    upserted by (phone, company), keep their phone unique within the company
    on update, cannot be removed while they have appointments, and can be
    blocked or unblocked. */
module ClientsService {
  import opened Common
  import opened Tables

  /** CreateClientDto. */
  datatype ClientData = ClientData(name: string, phone: string, email: Option<string>, companyId: int)

  /** No two clients of one company share a phone. */
  predicate PhonesUnique(rows: seq<Client>) {
    forall i, j :: 0 <= i < j < |rows| && rows[i].companyId == rows[j].companyId ==> rows[i].phone != rows[j].phone
  }

  function FindByPhone(rows: seq<Client>, phone: string, companyId: int): Option<nat> {
    First(rows, (c: Client) => c.phone == phone && c.companyId == companyId)
  }

  /** A Prisma update writes a field only when it is given: an absent
      (`undefined`) email leaves the stored one in place. */
  function KeepOrSet(stored: Option<string>, sent: Option<string>): (r: Option<string>)
    ensures sent.Some? ==> r == sent
    ensures stored.Some? ==> r.Some?
    ensures r == sent || r == stored
  {
    if sent.Some? then sent else stored
  }

  /** The client table after create's upsert, with the returned client: the
      first client with the same phone in the company gets the new name and,
      when one is sent, the new email; otherwise a new client (not blocked)
      takes the next id. */
  function Upsert(rows: seq<Client>, nextId: int, dto: ClientData): (r: (seq<Client>, int, Client))
    ensures r.2.phone == dto.phone && r.2.companyId == dto.companyId
    ensures r.2.name == dto.name && (dto.email.Some? ==> r.2.email == dto.email)
    ensures (exists k :: 0 <= k < |rows| && rows[k].phone == dto.phone && rows[k].companyId == dto.companyId) ==>
              && r.1 == nextId && |r.0| == |rows|
              && exists k :: 0 <= k < |rows| && rows[k].phone == dto.phone && rows[k].companyId == dto.companyId
                             && r.2 == rows[k].(name := dto.name, email := KeepOrSet(rows[k].email, dto.email))
                             && r.0 == rows[k := r.2]
    ensures (forall k :: 0 <= k < |rows| ==> !(rows[k].phone == dto.phone && rows[k].companyId == dto.companyId)) ==>
              r.0 == rows + [r.2] && r.1 == nextId + 1 && r.2.id == nextId && !r.2.isBlocked && r.2.email == dto.email
  {
    match FindByPhone(rows, dto.phone, dto.companyId)
    case Some(i) =>
      var c := rows[i].(name := dto.name, email := KeepOrSet(rows[i].email, dto.email));
      (rows[i := c], nextId, c)
    case None =>
      var c := Client(nextId, dto.name, dto.phone, dto.email, dto.companyId, false);
      (rows + [c], nextId + 1, c)
  }

  /** The upsert never breaks phone uniqueness within a company. */
  lemma UpsertKeepsPhonesUnique(rows: seq<Client>, nextId: int, dto: ClientData)
    requires PhonesUnique(rows)
    ensures PhonesUnique(Upsert(rows, nextId, dto).0)
  {
    var r := Upsert(rows, nextId, dto).0;
    match FindByPhone(rows, dto.phone, dto.companyId)
    case Some(i) =>
      assert forall k :: 0 <= k < |r| ==> r[k].phone == rows[k].phone && r[k].companyId == rows[k].companyId;
    case None =>
      assert forall k :: 0 <= k < |rows| ==> r[k] == rows[k];
  }

  /** Booking twice with the same phone creates one client: a second upsert
      with the same data changes nothing. */
  lemma {:induction false} UpsertIdempotent(rows: seq<Client>, nextId: int, dto: ClientData)
    ensures var (rows1, next1, c1) := Upsert(rows, nextId, dto);
            Upsert(rows1, next1, dto) == (rows1, next1, c1)
  {
    var (rows1, next1, c1) := Upsert(rows, nextId, dto);
    match FindByPhone(rows, dto.phone, dto.companyId)
    case Some(i) =>
      var j := FindByPhone(rows1, dto.phone, dto.companyId);
      assert rows1[i] == c1;
      assert j.Some? && j.value <= i;
      assert forall k :: 0 <= k < i ==> rows1[k] == rows[k];
      assert j.value == i;
      assert c1.(name := dto.name, email := KeepOrSet(c1.email, dto.email)) == c1;
      assert rows1[i := c1] == rows1;
    case None =>
      var j := FindByPhone(rows1, dto.phone, dto.companyId);
      assert rows1[|rows|] == c1;
      assert forall k :: 0 <= k < |rows| ==> rows1[k] == rows[k];
      assert j == Some(|rows|);
      assert c1.(name := dto.name, email := KeepOrSet(c1.email, dto.email)) == c1;
      assert rows1[|rows| := c1] == rows1;
  }

  /** A returning client who books without an email keeps the stored one:
      the upsert rewrites the row with that phone and no other. */
  lemma UpsertKeepsStoredEmail(rows: seq<Client>, nextId: int, dto: ClientData, k: nat)
    requires PhonesUnique(rows)
    requires k < |rows| && rows[k].phone == dto.phone && rows[k].companyId == dto.companyId
    requires dto.email.None?
    ensures var (rows1, next1, c) := Upsert(rows, nextId, dto);
            && c.id == rows[k].id && c.email == rows[k].email && c.name == dto.name
            && rows1 == rows[k := c] && next1 == nextId
  {
    var i := FindByPhone(rows, dto.phone, dto.companyId);
    assert i.Some? && i.value == k;
  }

  /** The clients of a company for findAll, sorted by name. */
  function CompanyClientsByName(rows: seq<Client>, companyId: int): (r: seq<Client>)
    ensures forall c :: c in r <==> c in rows && c.companyId == companyId
    ensures forall i :: 0 < i < |r| ==> LexLe(r[i - 1].name, r[i].name)
    ensures forall c :: multiset(r)[c] == if c.companyId == companyId then multiset(rows)[c] else 0
  {
    var le := (a: Client, b: Client) => LexLe(a.name, b.name);
    assert TotalOrder(le) by {
      forall a: Client, b: Client ensures le(a, b) || le(b, a) {
        LexTotal(a.name, b.name);
      }
    }
    var mine := Filter(rows, (c: Client) => c.companyId == companyId);
    FilterCounts(rows, (c: Client) => c.companyId == companyId);
    var r := SortBy(mine, le);
    assert forall c :: c in r <==> c in mine by {
      forall c ensures c in r <==> c in mine {
        assert c in r <==> c in multiset(r);
        assert c in mine <==> c in multiset(mine);
      }
    }
    r
  }

  class ClientsService {
    const db: Database

    constructor(db: Database)
      ensures this.db == db
    {
      this.db := db;
    }

    /** create: CompanyNotFound without any write when the company does not
        exist; otherwise the upsert by (phone, company). */
    method Create(dto: ClientData) returns (r: Result<Client>)
      requires db.clients.Valid()
      modifies db.clients
      ensures db.clients.Valid()
      ensures old(db.companies.Find(dto.companyId)).None? ==> r == Fail(CompanyNotFound) && unchanged(db.clients)
      ensures old(db.companies.Find(dto.companyId)).Some? ==>
                r.Ok? && (db.clients.rows, db.clients.nextId, r.value) == Upsert(old(db.clients.rows), old(db.clients.nextId), dto)
    {
      if db.companies.Find(dto.companyId).None? {
        return Fail(CompanyNotFound);
      }
      var existing := FindByPhone(db.clients.rows, dto.phone, dto.companyId);
      if existing.Some? {
        var i := existing.value;
        var c := db.clients.rows[i].(name := dto.name, email := KeepOrSet(db.clients.rows[i].email, dto.email));
        db.clients.rows := db.clients.rows[i := c];
        return Ok(c);
      }
      var c := Client(db.clients.nextId, dto.name, dto.phone, dto.email, dto.companyId, false);
      db.clients.rows := db.clients.rows + [c];
      db.clients.nextId := db.clients.nextId + 1;
      return Ok(c);
    }

    /** findAll: the company's clients ordered by name. */
    method FindAll(companyId: int) returns (r: seq<Client>)
      ensures forall c :: c in r <==> c in db.clients.rows && c.companyId == companyId
      ensures forall i :: 0 < i < |r| ==> LexLe(r[i - 1].name, r[i].name)
      ensures forall c :: multiset(r)[c] == if c.companyId == companyId then multiset(db.clients.rows)[c] else 0
    {
      r := CompanyClientsByName(db.clients.rows, companyId);
    }

    /** findOne: the client with that id in that company, or ClientNotFound. */
    method FindOne(id: int, companyId: int) returns (r: Result<Client>)
      ensures r.Ok? ==> r.value in db.clients.rows && r.value.id == id && r.value.companyId == companyId
      ensures r.Fail? <==> forall c :: c in db.clients.rows ==> !(c.id == id && c.companyId == companyId)
      ensures r.Fail? ==> r.error == ClientNotFound
    {
      var i := db.clients.FindInCompany(id, companyId);
      if i.None? {
        return Fail(ClientNotFound);
      }
      return Ok(db.clients.rows[i.value]);
    }

    /** update: the client must exist in the company named by the data; a
        changed phone must not be held by another client of that company;
        then name and phone are replaced, the email too when one is sent,
        and nothing else changes. */
    method Update(id: int, dto: ClientData) returns (r: Result<Client>)
      requires db.clients.Valid()
      modifies db.clients
      ensures db.clients.Valid() && db.clients.nextId == old(db.clients.nextId)
      ensures r.Fail? ==> unchanged(db.clients)
      ensures old(db.clients.FindInCompany(id, dto.companyId)).None? <==> r == Fail(ClientNotFound)
      ensures old(db.clients.FindInCompany(id, dto.companyId)).Some? ==>
                var i := old(db.clients.FindInCompany(id, dto.companyId)).value;
                var before := old(db.clients.rows);
                var taken := dto.phone != before[i].phone &&
                             exists k :: 0 <= k < |before| && before[k].phone == dto.phone
                                         && before[k].companyId == dto.companyId && before[k].id != id;
                && (taken <==> r == Fail(PhoneTaken))
                && (!taken ==> r == Ok(before[i].(name := dto.name, phone := dto.phone,
                                                    email := KeepOrSet(before[i].email, dto.email)))
                               && db.clients.rows == before[i := r.value])
    {
      var found := db.clients.FindInCompany(id, dto.companyId);
      if found.None? {
        return Fail(ClientNotFound);
      }
      var i := found.value;
      var client := db.clients.rows[i];
      if dto.phone != client.phone {
        var existing := First(db.clients.rows, (c: Client) => c.phone == dto.phone && c.companyId == dto.companyId && c.id != id);
        if existing.Some? {
          return Fail(PhoneTaken);
        }
      }
      var c := client.(name := dto.name, phone := dto.phone, email := KeepOrSet(client.email, dto.email));
      db.clients.rows := db.clients.rows[i := c];
      return Ok(c);
    }

    /** remove: the client must exist in the company; any appointment that
        references it (by clientId alone) blocks the removal; otherwise
        exactly that row is deleted. */
    method Remove(id: int, companyId: int) returns (r: Result<Client>)
      requires db.clients.Valid()
      modifies db.clients
      ensures db.clients.Valid() && db.clients.nextId == old(db.clients.nextId)
      ensures r.Fail? ==> unchanged(db.clients)
      ensures old(db.clients.FindInCompany(id, companyId)).None? <==> r == Fail(ClientNotFound)
      ensures old(db.clients.FindInCompany(id, companyId)).Some? ==>
                var i := old(db.clients.FindInCompany(id, companyId)).value;
                var used := exists a :: a in db.appointments.rows && a.clientId == id;
                && (used <==> r == Fail(ClientHasAppointments))
                && (!used ==> r == Ok(old(db.clients.rows)[i]) && db.clients.rows == RemoveAt(old(db.clients.rows), i))
    {
      var found := db.clients.FindInCompany(id, companyId);
      if found.None? {
        return Fail(ClientNotFound);
      }
      var i := found.value;
      var hasAppointments := First(db.appointments.rows, (a: Appointment) => a.clientId == id);
      if hasAppointments.Some? {
        assert db.appointments.rows[hasAppointments.value] in db.appointments.rows;
        return Fail(ClientHasAppointments);
      }
      r := Ok(db.clients.rows[i]);
      db.clients.rows := RemoveAt(db.clients.rows, i);
    }

    /** blockClient: the client must exist in the company; its isBlocked flag
        is flipped, so blocking twice restores it. */
    method BlockClient(id: int, companyId: int) returns (r: Result<Client>)
      requires db.clients.Valid()
      modifies db.clients
      ensures db.clients.Valid() && db.clients.nextId == old(db.clients.nextId)
      ensures old(db.clients.FindInCompany(id, companyId)).None? <==> r == Fail(ClientNotFound)
      ensures r.Fail? ==> unchanged(db.clients)
      ensures old(db.clients.FindInCompany(id, companyId)).Some? ==>
                var i := old(db.clients.FindInCompany(id, companyId)).value;
                var before := old(db.clients.rows);
                r == Ok(before[i].(isBlocked := !before[i].isBlocked)) && db.clients.rows == before[i := r.value]
    {
      var found := db.clients.FindInCompany(id, companyId);
      if found.None? {
        return Fail(ClientNotFound);
      }
      var i := found.value;
      var c := db.clients.rows[i].(isBlocked := !db.clients.rows[i].isBlocked);
      db.clients.rows := db.clients.rows[i := c];
      return Ok(c);
    }
  }
}
