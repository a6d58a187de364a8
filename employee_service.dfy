/** The employee service as an object: the employees table, the table's
    identity counter and the `employees` cache are its fields, and each
    operation reads and writes them step by step. Each method is proved to do
    what the matching function of EmployeeLifecycle says. */
module EmployeeService {
  import opened EmployeeData
  import opened EmployeeLifecycle

  class EmployeeServiceImpl {
    /** The employees table (the repository), keyed by id. */
    var store: map<int, Employee>
    /** The identity the table assigns to the next inserted row. */
    var nextId: int
    /** The `employees` cache, keyed by id. */
    var cache: map<int, EmployeeDto>

    function Snapshot(): State
      reads this
    {
      State(store, nextId, cache)
    }

    ghost predicate Valid()
      reads this
    {
      EmployeeLifecycle.Valid(Snapshot())
    }

    constructor ()
      ensures Valid() && Snapshot() == Initial
    {
      store := map[];
      nextId := 1;
      cache := map[];
    }

    /** getAllEmployees: a read of the whole table, mapped to transfer objects. */
    function GetAllEmployees(): (r: set<EmployeeDto>)
      reads this
      ensures forall d :: d in r <==> exists k :: k in store && d == ToDto(store[k])
    {
      EmployeeLifecycle.GetAllEmployees(Snapshot())
    }

    /** The repository's save: an entity without an id is inserted under the
        next identity value, one with an id replaces that row. */
    method Save(e: Employee) returns (saved: Employee)
      requires Valid()
      requires e.id.Some? ==> e.id.value in store
      modifies this`store, this`nextId
      ensures Valid()
      ensures e.id.None? ==> saved == e.(id := Some(old(nextId))) && nextId == old(nextId) + 1
      ensures e.id.Some? ==> saved == e && nextId == old(nextId)
      ensures saved.id.Some? && store == old(store)[saved.id.value := saved]
    {
      if e.id.None? {
        saved := e.(id := Some(nextId));
        nextId := nextId + 1;
      } else {
        saved := e;
      }
      store := store[saved.id.value := saved];
    }

    /** getEmployeeById under @Cacheable: a hit skips the method body; a miss
        runs it and caches the result under the id. */
    method GetEmployeeById(id: Option<int>) returns (r: Result<EmployeeDto>)
      requires Valid()
      modifies this`cache
      ensures Valid()
      ensures Step(r, Snapshot()) == EmployeeLifecycle.GetEmployeeById(old(Snapshot()), id)
    {
      if id.None? {
        // the cache interceptor refuses a null key before the body runs
        return Failure(IllegalArgument);
      }
      var k := id.value;
      if k in cache {
        return Success(cache[k]);
      }
      var found := FindByEmployeeIdOrThrow(store, id);
      if found.Failure? {
        return Failure(found.error);
      }
      r := Success(ToDto(found.value));
      cache := cache[k := r.value];
    }

    /** createEmployee under @CachePut(key = result.id). */
    method CreateEmployee(d: EmployeeDto) returns (r: Result<EmployeeDto>)
      requires Valid() && d.id.None?
      modifies this
      ensures Valid()
      ensures Step(r, Snapshot()) == EmployeeLifecycle.CreateEmployee(old(Snapshot()), d)
    {
      // validateNewEmployee
      if ExistsByEmail(store, d.email) {
        return Failure(DuplicateResource(d.email));
      }
      var entity := ToEntity(d);
      var saved := Save(entity);
      var dto := ToDto(saved);
      cache := cache[saved.id.value := dto];
      r := Success(dto);
    }

    /** updateEmployeeFields: the setters for the seven mutable fields, in the
        source's order. */
    method UpdateEmployeeFields(existing: Employee, updated: EmployeeDto) returns (e: Employee)
      ensures e == Replaced(existing, updated)
    {
      e := existing;
      e := e.(name := updated.name);
      e := e.(email := updated.email);
      e := e.(age := updated.age);
      e := e.(isActive := updated.isActive);
      e := e.(dateOfJoining := updated.dateOfJoining);
      e := e.(role := updated.role);
      e := e.(salary := updated.salary);
    }

    /** updateEmployee under @CachePut(key = employeeId). */
    method UpdateEmployee(id: Option<int>, d: EmployeeDto) returns (r: Result<EmployeeDto>)
      requires Valid()
      modifies this
      ensures Valid()
      ensures Step(r, Snapshot()) == EmployeeLifecycle.UpdateEmployee(old(Snapshot()), id, d)
    {
      var found := FindByEmployeeIdOrThrow(store, id);
      if found.Failure? {
        return Failure(found.error);
      }
      var existing := found.value;
      // validateEmailForUpdate
      if EmailConflict(store, existing, d.email) {
        return Failure(DuplicateResource(d.email));
      }
      existing := UpdateEmployeeFields(existing, d);
      var saved := Save(existing);
      r := Success(ToDto(saved));
      cache := cache[id.value := r.value];
    }

    /** updatePartialEmployeeById: no cache annotation, so the cache is not
        among the fields it may change. */
    method UpdatePartialEmployeeById(id: Option<int>, p: Patch) returns (r: Result<EmployeeDto>)
      requires Valid() && WellTyped(p)
      modifies this`store, this`nextId
      ensures Valid()
      ensures Step(r, Snapshot()) == EmployeeLifecycle.PatchEmployee(old(Snapshot()), id, p)
    {
      var found := FindByEmployeeIdOrThrow(store, id);
      if found.Failure? {
        return Failure(found.error);
      }
      var employee := found.value;
      if Supplied(p, Name) {
        employee := employee.(name := p[Name.Key()].text);
      }
      if Supplied(p, Email) {
        var newEmail := p[Email.Key()].text;
        if EmailConflict(store, employee, newEmail) {
          return Failure(DuplicateResource(newEmail));
        }
        employee := employee.(email := newEmail);
      }
      if Supplied(p, Age) {
        employee := employee.(age := p[Age.Key()].number);
      }
      if Supplied(p, IsActive) {
        employee := employee.(isActive := p[IsActive.Key()].flag);
      }
      var saved := Save(employee);
      r := Success(ToDto(saved));
    }

    /** deleteEmployee: no cache annotation, so the cache is not among the
        fields it may change. */
    method DeleteEmployee(id: Option<int>) returns (r: Result<()>)
      requires Valid()
      modifies this`store
      ensures Valid()
      ensures Step(r, Snapshot()) == EmployeeLifecycle.DeleteEmployee(old(Snapshot()), id)
    {
      if id.None? {
        // findById(null) fails with InvalidDataAccessApiUsageException
        return Failure(IllegalArgument);
      }
      var k := id.value;
      if k !in store {
        return Failure(NotFound(k));
      }
      store := store - {k};
      r := Success(());
    }
  }
}
