/** ServiceService (src/modules/service/service.service.ts): a company's
    catalog of services, with per-company name uniqueness on create, a price
    floor, soft deletion and active-only listings. */
module ServiceCatalog {
  import opened Common
  import opened Tables

  /** CreateServiceDTO / UpdateServiceDTO: the details and the pricing. On
      update a `None` description is not written. */
  datatype ServiceData = ServiceData(name: string, description: Option<string>, duration: int, price: real)

  /** Some service of the company, active or not, has that name. */
  predicate NameUsed(rows: seq<Service>, name: string, companyId: int) {
    exists s :: s in rows && s.name == name && s.companyId == companyId
  }

  /** No two services of one company share a name. */
  predicate NamesUnique(rows: seq<Service>) {
    forall i, j :: 0 <= i < j < |rows| && rows[i].companyId == rows[j].companyId ==> rows[i].name != rows[j].name
  }

  /** The row `prisma.service.create` inserts: active, not deleted. */
  function NewService(id: int, data: ServiceData, companyId: int): (s: Service)
    ensures s.isActive && s.deletedAt.None? && s.id == id && s.companyId == companyId
  {
    Service(id, data.name, data.description, data.duration, data.price, companyId, true, None)
  }

  /** The row after update: details and price replaced; id, company, active
      flag and deletion time kept. */
  function Edited(s: Service, data: ServiceData): (r: Service)
    ensures r.id == s.id && r.companyId == s.companyId && r.isActive == s.isActive && r.deletedAt == s.deletedAt
    ensures r.name == data.name && r.duration == data.duration && r.price == data.price
  {
    s.(name := data.name, description := if data.description.Some? then data.description else s.description,
       duration := data.duration, price := data.price)
  }

  /** The row after the soft delete at time `now`. */
  function SoftDeleted(s: Service, now: int): (r: Service)
    ensures !r.isActive && r.deletedAt == Some(now) && r.id == s.id && r.companyId == s.companyId
  {
    s.(deletedAt := Some(now), isActive := false)
  }

  /** listByCompanyId: the company's active services, in table order. */
  function ActiveServices(rows: seq<Service>, companyId: int): (r: seq<Service>)
    ensures forall s :: s in r <==> s in rows && s.companyId == companyId && s.isActive
    ensures forall s :: multiset(r)[s] == if s.companyId == companyId && s.isActive then multiset(rows)[s] else 0
  {
    var listed := (s: Service) => s.companyId == companyId && s.isActive;
    FilterCounts(rows, listed);
    Filter(rows, listed)
  }

  /** Creating with a fresh name keeps names unique. */
  lemma CreateKeepsNamesUnique(rows: seq<Service>, id: int, data: ServiceData, companyId: int)
    requires NamesUnique(rows) && !NameUsed(rows, data.name, companyId)
    ensures NamesUnique(rows + [NewService(id, data, companyId)])
  {
    var r := rows + [NewService(id, data, companyId)];
    forall i, j | 0 <= i < j < |r| && r[i].companyId == r[j].companyId ensures r[i].name != r[j].name {
      if j == |rows| {
        assert r[i] in rows;
      }
    }
  }

  /** Update checks no name, so it can give two services of a company the
      same name. */
  lemma UpdateMayDuplicateNames()
    ensures var a := Service(1, "Corte", None, 30, 50.0, 7, true, None);
            var b := Service(2, "Barba", None, 20, 30.0, 7, true, None);
            && NamesUnique([a, b])
            && !NamesUnique([a, Edited(b, ServiceData("Corte", None, 20, 30.0))])
  {
    var a := Service(1, "Corte", None, 30, 50.0, 7, true, None);
    var b := Service(2, "Barba", None, 20, 30.0, 7, true, None);
    assert a.name[0] != b.name[0];
    var edited := [a, Edited(b, ServiceData("Corte", None, 20, 30.0))];
    assert edited[0].companyId == edited[1].companyId && edited[0].name == edited[1].name;
  }

  /** A soft-deleted service stays in the table but leaves the listing of
      its company, and every other listed service is still listed. */
  lemma {:induction false} SoftDeleteHides(rows: seq<Service>, i: nat, now: int, companyId: int)
    requires i < |rows|
    requires forall j, k :: 0 <= j < k < |rows| ==> rows[j].id != rows[k].id
    ensures |rows[i := SoftDeleted(rows[i], now)]| == |rows|
    ensures forall s :: s in ActiveServices(rows[i := SoftDeleted(rows[i], now)], companyId) ==> s.id != rows[i].id
    ensures forall s :: s in ActiveServices(rows, companyId) && s.id != rows[i].id ==>
                        s in ActiveServices(rows[i := SoftDeleted(rows[i], now)], companyId)
  {
    var after := rows[i := SoftDeleted(rows[i], now)];
    forall s | s in ActiveServices(after, companyId) ensures s.id != rows[i].id {
      var k :| 0 <= k < |after| && after[k] == s;
      if k != i {
        assert after[k] == rows[k];
      }
    }
    forall s | s in ActiveServices(rows, companyId) && s.id != rows[i].id
      ensures s in ActiveServices(after, companyId)
    {
      var k :| 0 <= k < |rows| && rows[k] == s;
      assert k != i;
      assert after[k] == s;
    }
  }

  class ServiceService {
    const db: Database

    constructor(db: Database)
      ensures this.db == db
    {
      this.db := db;
    }

    /** create: a name used by any service of the company (inactive ones
        included) is rejected first, then a price of at most 1; otherwise
        one active service is appended. */
    method Create(data: ServiceData, companyId: int) returns (r: Result<Service>)
      requires db.services.Valid()
      modifies db.services
      ensures db.services.Valid()
      ensures NameUsed(old(db.services.rows), data.name, companyId) <==> r == Fail(ServiceNameTaken)
      ensures !NameUsed(old(db.services.rows), data.name, companyId) && data.price <= 1.0 <==> r == Fail(PriceTooLow)
      ensures r.Fail? ==> r.error in {ServiceNameTaken, PriceTooLow}
      ensures r.Fail? ==> unchanged(db.services)
      ensures r.Ok? ==>
                && r.value == NewService(old(db.services.nextId), data, companyId)
                && db.services.rows == old(db.services.rows) + [r.value]
                && db.services.nextId == old(db.services.nextId) + 1
    {
      var existing := First(db.services.rows, (s: Service) => s.name == data.name && s.companyId == companyId);
      if existing.Some? {
        assert db.services.rows[existing.value] in db.services.rows;
        return Fail(ServiceNameTaken);
      }
      if data.price <= 1.0 {
        return Fail(PriceTooLow);
      }
      var s := NewService(db.services.nextId, data, companyId);
      db.services.rows := db.services.rows + [s];
      db.services.nextId := db.services.nextId + 1;
      return Ok(s);
    }

    /** update: a missing id, another company's service and a price of at
        most 1 are rejected in that order; otherwise the details and price
        are replaced and the company never changes. */
    method Update(id: int, data: ServiceData, companyId: int) returns (r: Result<Service>)
      requires db.services.Valid()
      modifies db.services
      ensures db.services.Valid() && db.services.nextId == old(db.services.nextId)
      ensures r.Fail? ==> unchanged(db.services)
      ensures old(db.services.Find(id)).None? <==> r == Fail(ServiceNotFound)
      ensures r.Fail? ==> r.error in {ServiceNotFound, ForeignService, PriceTooLow}
      ensures old(db.services.Find(id)).Some? ==>
                var i := old(db.services.Find(id)).value;
                var before := old(db.services.rows);
                && (before[i].companyId != companyId <==> r == Fail(ForeignService))
                && (before[i].companyId == companyId && data.price <= 1.0 <==> r == Fail(PriceTooLow))
                && (r.Ok? ==> r.value == Edited(before[i], data) && db.services.rows == before[i := r.value])
    {
      var found := db.services.Find(id);
      if found.None? {
        return Fail(ServiceNotFound);
      }
      var i := found.value;
      if db.services.rows[i].companyId != companyId {
        return Fail(ForeignService);
      }
      if data.price <= 1.0 {
        return Fail(PriceTooLow);
      }
      var s := Edited(db.services.rows[i], data);
      db.services.rows := db.services.rows[i := s];
      return Ok(s);
    }

    /** delete: soft. The row stays, inactive and stamped with `now` (the
        clock is a parameter); no company is checked. */
    method Delete(id: int, now: int) returns (r: Result<Service>)
      requires db.services.Valid()
      modifies db.services
      ensures db.services.Valid() && db.services.nextId == old(db.services.nextId)
      ensures old(db.services.Find(id)).None? <==> r == Fail(ServiceNotFound)
      ensures r.Fail? ==> unchanged(db.services)
      ensures old(db.services.Find(id)).Some? ==>
                var i := old(db.services.Find(id)).value;
                r == Ok(SoftDeleted(old(db.services.rows)[i], now))
                && db.services.rows == old(db.services.rows)[i := r.value]
    {
      var found := db.services.Find(id);
      if found.None? {
        return Fail(ServiceNotFound);
      }
      var i := found.value;
      var s := SoftDeleted(db.services.rows[i], now);
      db.services.rows := db.services.rows[i := s];
      return Ok(s);
    }

    /** listByCompanyId: exactly the company's active services. */
    method ListByCompanyId(companyId: int) returns (r: seq<Service>)
      ensures forall s :: s in r <==> s in db.services.rows && s.companyId == companyId && s.isActive
      ensures forall s :: multiset(r)[s] == if s.companyId == companyId && s.isActive then multiset(db.services.rows)[s] else 0
    {
      r := ActiveServices(db.services.rows, companyId);
    }

    /** getById: only an active service is found (`findUniqueOrThrow`). */
    method GetById(id: int) returns (r: Result<Service>)
      requires db.services.Valid()
      ensures r.Ok? ==> r.value in db.services.rows && r.value.id == id && r.value.isActive
      ensures r.Fail? <==> forall s :: s in db.services.rows && s.id == id ==> !s.isActive
      ensures r.Fail? ==> r.error == RecordNotFound
    {
      var i := First(db.services.rows, (s: Service) => s.id == id && s.isActive);
      if i.None? {
        return Fail(RecordNotFound);
      }
      assert db.services.rows[i.value] in db.services.rows;
      return Ok(db.services.rows[i.value]);
    }

    /** getByIds: active services whose id is listed, from any company. */
    method GetByIds(ids: seq<int>) returns (r: seq<Service>)
      ensures forall s :: s in r <==> s in db.services.rows && s.id in ids && s.isActive
      ensures forall s :: multiset(r)[s] == if s.id in ids && s.isActive then multiset(db.services.rows)[s] else 0
    {
      var requested := (s: Service) => s.id in ids && s.isActive;
      FilterCounts(db.services.rows, requested);
      r := Filter(db.services.rows, requested);
    }
  }
}
