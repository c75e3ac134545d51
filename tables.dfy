/** The database the services work on, held in memory: one class per table,
    each with its rows in insertion order (the order `findFirst` and
    `findMany` see when no `orderBy` is given) and the next autoincrement id. */
module Tables {
  import opened Common

  // ---------------------------------------------------------------- rows

  /** AppointmentStatus (src/modules/appointments/constants/appointment.constants.ts). */
  datatype Status = Pending | Confirmed | Cancelled | Completed

  datatype Company = Company(
    id: int,
    name: string,
    email: string,
    phone: string,
    link: string,
    intervalBetweenAppointments: Option<int>)   // None: never set

  datatype Client = Client(
    id: int,
    name: string,
    phone: string,
    email: Option<string>,
    companyId: int,
    isBlocked: bool)

  datatype Service = Service(
    id: int,
    name: string,
    description: Option<string>,
    duration: int,         // minutes
    price: real,
    companyId: int,
    isActive: bool,
    deletedAt: Option<int>)

  /** The `notes` column: absent, the discount note prepareAppointmentData
      writes (`Subtotal: …, Desconto: …`), or a fixed text. */
  datatype Notes = NoNotes | DiscountNote(subTotal: real, discount: real) | Text(text: string)

  datatype Appointment = Appointment(
    id: int,
    date: int,             // milliseconds since the epoch
    clientId: int,
    companyId: int,
    subTotalPrice: real,
    discount: real,
    totalPrice: real,
    duration: int,         // minutes
    status: Status,
    notes: Notes)

  /** A row of the appointmentService join table. */
  datatype Link = Link(appointmentId: int, serviceId: int)

  /** A companyWorkingHour row, unique on (companyId, dayOfWeek). */
  datatype WorkingHour = WorkingHour(companyId: int, dayOfWeek: int, startTime: string, endTime: string)

  datatype AddressData = AddressData(
    zipCode: string, street: string, number: string, neighborhood: string,
    city: string, state: string, country: string)

  /** A companyAddress row, unique on companyId. */
  datatype Address = Address(companyId: int, data: AddressData)

  datatype User = User(id: int, email: string, password: string, role: string, companyId: Option<int>)

  // ---------------------------------------------------------------- queries

  /** The index of the first row satisfying p from index i on: what
      `findFirst` returns when no `orderBy` is given. */
  function FirstFrom<T>(rows: seq<T>, p: T -> bool, i: nat): (r: Option<nat>)
    requires i <= |rows|
    ensures r.Some? ==> i <= r.value < |rows| && p(rows[r.value])
                        && forall k :: i <= k < r.value ==> !p(rows[k])
    ensures r.None? ==> forall k :: i <= k < |rows| ==> !p(rows[k])
    decreases |rows| - i
  {
    if i == |rows| then None
    else if p(rows[i]) then Some(i)
    else FirstFrom(rows, p, i + 1)
  }

  function First<T>(rows: seq<T>, p: T -> bool): Option<nat> {
    FirstFrom(rows, p, 0)
  }

  /** The rows satisfying p, in table order: what `findMany` returns. */
  function Filter<T(!new)>(rows: seq<T>, p: T -> bool): (r: seq<T>)
    ensures forall x :: x in r <==> x in rows && p(x)
    ensures |r| <= |rows|
  {
    if rows == [] then []
    else if p(rows[0]) then [rows[0]] + Filter(rows[1..], p)
    else Filter(rows[1..], p)
  }

  /** Filtering keeps every row satisfying p as often as it occurs, and no
      other row. */
  lemma {:induction false} FilterCounts<T(!new)>(rows: seq<T>, p: T -> bool)
    ensures forall x :: multiset(Filter(rows, p))[x] == if p(x) then multiset(rows)[x] else 0
  {
    if rows != [] {
      FilterCounts(rows[1..], p);
      assert rows == [rows[0]] + rows[1..];
      assert multiset(rows) == multiset{rows[0]} + multiset(rows[1..]);
    }
  }

  /** `deleteMany`: the rows that do not satisfy p, in table order. */
  function RemoveWhere<T(!new)>(rows: seq<T>, p: T -> bool): (r: seq<T>)
    ensures forall x :: x in r <==> x in rows && !p(x)
  {
    Filter(rows, x => !p(x))
  }

  /** The row at index i taken out. */
  function RemoveAt<T>(rows: seq<T>, i: nat): (r: seq<T>)
    requires i < |rows|
    ensures |r| == |rows| - 1
    ensures forall k :: 0 <= k < i ==> r[k] == rows[k]
    ensures forall k :: i <= k < |r| ==> r[k] == rows[k + 1]
  {
    rows[..i] + rows[i + 1..]
  }

  /** A total order test: every two rows compare one way or the other. */
  ghost predicate TotalOrder<T(!new)>(le: (T, T) -> bool) {
    forall a: T, b: T :: le(a, b) || le(b, a)
  }

  /** Every row is `le` its successor. */
  predicate SortedBy<T>(s: seq<T>, le: (T, T) -> bool) {
    forall i :: 0 < i < |s| ==> le(s[i - 1], s[i])
  }

  /** x placed before the first row it is `le` to. */
  function Insert<T(!new)>(x: T, s: seq<T>, le: (T, T) -> bool): (r: seq<T>)
    requires TotalOrder(le) && SortedBy(s, le)
    ensures multiset(r) == multiset(s) + multiset{x}
    ensures SortedBy(r, le)
    ensures r != [] && (r[0] == x || (s != [] && r[0] == s[0]))
  {
    if s == [] then [x]
    else if le(x, s[0]) then [x] + s
    else
      var rest := Insert(x, s[1..], le);
      assert s == [s[0]] + s[1..];
      [s[0]] + rest
  }

  /** Insertion sort: the `orderBy` of a `findMany`. Rows that compare both
      ways keep no particular order, as in the database. */
  function SortBy<T(!new)>(s: seq<T>, le: (T, T) -> bool): (r: seq<T>)
    requires TotalOrder(le)
    ensures multiset(r) == multiset(s)
    ensures SortedBy(r, le)
  {
    if s == [] then []
    else
      assert s == [s[0]] + s[1..];
      Insert(s[0], SortBy(s[1..], le), le)
  }

  /** Lexicographic order on strings, by character code. */
  predicate LexLe(a: string, b: string) {
    a == [] || (b != [] && (a[0] < b[0] || (a[0] == b[0] && LexLe(a[1..], b[1..]))))
  }

  lemma {:induction false} LexTotal(a: string, b: string)
    ensures LexLe(a, b) || LexLe(b, a)
  {
    if a != [] && b != [] && a[0] == b[0] {
      LexTotal(a[1..], b[1..]);
    }
  }

  // ---------------------------------------------------------------- tables

  class CompanyTable {
    var rows: seq<Company>
    var nextId: int

    /** Ids and links are unique. */
    ghost predicate Valid()
      reads this
    {
      && (forall i, j :: 0 <= i < j < |rows| ==> rows[i].id != rows[j].id)
      && (forall i, j :: 0 <= i < j < |rows| ==> rows[i].link != rows[j].link)
      && (forall i :: 0 <= i < |rows| ==> rows[i].id < nextId)
    }

    constructor()
      ensures Valid() && rows == []
    {
      rows := [];
      nextId := 1;
    }

    /** `findUnique({ where: { id } })`. */
    function Find(id: int): (r: Option<nat>)
      reads this
      ensures r.Some? ==> r.value < |rows| && rows[r.value].id == id
      ensures r.None? ==> forall k :: 0 <= k < |rows| ==> rows[k].id != id
    {
      First(rows, (c: Company) => c.id == id)
    }
  }

  class ClientTable {
    var rows: seq<Client>
    var nextId: int

    ghost predicate Valid()
      reads this
    {
      && (forall i, j :: 0 <= i < j < |rows| ==> rows[i].id != rows[j].id)
      && (forall i :: 0 <= i < |rows| ==> rows[i].id < nextId)
    }

    constructor()
      ensures Valid() && rows == []
    {
      rows := [];
      nextId := 1;
    }

    function Find(id: int): (r: Option<nat>)
      reads this
      ensures r.Some? ==> r.value < |rows| && rows[r.value].id == id
      ensures r.None? ==> forall k :: 0 <= k < |rows| ==> rows[k].id != id
    {
      First(rows, (c: Client) => c.id == id)
    }

    /** `findFirst({ where: { id, companyId } })`. */
    function FindInCompany(id: int, companyId: int): (r: Option<nat>)
      reads this
      ensures r.Some? ==> r.value < |rows| && rows[r.value].id == id && rows[r.value].companyId == companyId
      ensures r.None? ==> forall k :: 0 <= k < |rows| ==> !(rows[k].id == id && rows[k].companyId == companyId)
    {
      First(rows, (c: Client) => c.id == id && c.companyId == companyId)
    }
  }

  class ServiceTable {
    var rows: seq<Service>
    var nextId: int

    ghost predicate Valid()
      reads this
    {
      && (forall i, j :: 0 <= i < j < |rows| ==> rows[i].id != rows[j].id)
      && (forall i :: 0 <= i < |rows| ==> rows[i].id < nextId)
    }

    constructor()
      ensures Valid() && rows == []
    {
      rows := [];
      nextId := 1;
    }

    function Find(id: int): (r: Option<nat>)
      reads this
      ensures r.Some? ==> r.value < |rows| && rows[r.value].id == id
      ensures r.None? ==> forall k :: 0 <= k < |rows| ==> rows[k].id != id
    {
      First(rows, (s: Service) => s.id == id)
    }
  }

  class AppointmentTable {
    var rows: seq<Appointment>
    var nextId: int

    ghost predicate Valid()
      reads this
    {
      && (forall i, j :: 0 <= i < j < |rows| ==> rows[i].id != rows[j].id)
      && (forall i :: 0 <= i < |rows| ==> rows[i].id < nextId)
    }

    constructor()
      ensures Valid() && rows == []
    {
      rows := [];
      nextId := 1;
    }

    function Find(id: int): (r: Option<nat>)
      reads this
      ensures r.Some? ==> r.value < |rows| && rows[r.value].id == id
      ensures r.None? ==> forall k :: 0 <= k < |rows| ==> rows[k].id != id
    {
      First(rows, (a: Appointment) => a.id == id)
    }

    /** A created row takes the next id, which then moves past it. */
    method Insert(a: Appointment)
      requires Valid() && a.id == nextId
      modifies this
      ensures Valid() && rows == old(rows) + [a] && nextId == old(nextId) + 1
    {
      rows := rows + [a];
      nextId := nextId + 1;
    }
  }

  /** The appointmentService join table (no id of its own). */
  class LinkTable {
    var rows: seq<Link>

    constructor()
      ensures rows == []
    {
      rows := [];
    }
  }

  class WorkingHourTable {
    var rows: seq<WorkingHour>

    /** The (companyId, dayOfWeek) key is unique. */
    ghost predicate Valid()
      reads this
    {
      forall i, j :: 0 <= i < j < |rows| ==>
        !(rows[i].companyId == rows[j].companyId && rows[i].dayOfWeek == rows[j].dayOfWeek)
    }

    constructor()
      ensures Valid() && rows == []
    {
      rows := [];
    }
  }

  class AddressTable {
    var rows: seq<Address>

    /** companyId is unique. */
    ghost predicate Valid()
      reads this
    {
      forall i, j :: 0 <= i < j < |rows| ==> rows[i].companyId != rows[j].companyId
    }

    constructor()
      ensures Valid() && rows == []
    {
      rows := [];
    }
  }

  class UserTable {
    var rows: seq<User>
    var nextId: int

    /** Ids and emails are unique. */
    ghost predicate Valid()
      reads this
    {
      && (forall i, j :: 0 <= i < j < |rows| ==> rows[i].id != rows[j].id)
      && (forall i, j :: 0 <= i < j < |rows| ==> rows[i].email != rows[j].email)
      && (forall i :: 0 <= i < |rows| ==> rows[i].id < nextId)
    }

    constructor()
      ensures Valid() && rows == []
    {
      rows := [];
      nextId := 1;
    }

    function Find(id: int): (r: Option<nat>)
      reads this
      ensures r.Some? ==> r.value < |rows| && rows[r.value].id == id
      ensures r.None? ==> forall k :: 0 <= k < |rows| ==> rows[k].id != id
    {
      First(rows, (u: User) => u.id == id)
    }

    function FindByEmail(email: string): (r: Option<nat>)
      reads this
      ensures r.Some? ==> r.value < |rows| && rows[r.value].email == email
      ensures r.None? ==> forall k :: 0 <= k < |rows| ==> rows[k].email != email
    {
      First(rows, (u: User) => u.email == email)
    }
  }

  /** The Prisma client: every table the modelled services use. */
  class Database {
    const companies: CompanyTable
    const clients: ClientTable
    const services: ServiceTable
    const appointments: AppointmentTable
    const links: LinkTable
    const hours: WorkingHourTable
    const addresses: AddressTable
    const users: UserTable

    ghost predicate Valid()
      reads this, companies, clients, services, appointments, hours, addresses, users
    {
      && companies.Valid() && clients.Valid() && services.Valid() && appointments.Valid()
      && hours.Valid() && addresses.Valid() && users.Valid()
    }

    constructor()
      ensures Valid()
      ensures companies.rows == [] && clients.rows == [] && services.rows == [] && appointments.rows == []
      ensures links.rows == [] && hours.rows == [] && addresses.rows == [] && users.rows == []
    {
      companies := new CompanyTable();
      clients := new ClientTable();
      services := new ServiceTable();
      appointments := new AppointmentTable();
      links := new LinkTable();
      hours := new WorkingHourTable();
      addresses := new AddressTable();
      users := new UserTable();
    }
  }
}
