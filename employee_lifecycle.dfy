/** What each operation of the employee service does to the employees table,
    the id counter and the `employees` cache, as functions of the state before
    the call. Every write runs in one transaction, so a failing call returns the
    state it was given. */
module EmployeeLifecycle {
  import opened EmployeeData

  /** The table keyed by id, the store's next identity value, and the cache
      keyed by id. */
  datatype State = State(store: map<int, Employee>, nextId: int, cache: map<int, EmployeeDto>)

  /** What an operation returns, together with the state after it. */
  datatype Step<T> = Step(result: Result<T>, state: State)

  /** Ids are positive, below the counter, and agree with the key they are
      stored or cached under. The cache is NOT required to agree with the table. */
  ghost predicate Valid(s: State) {
    1 <= s.nextId &&
    (forall k :: k in s.store ==> 1 <= k < s.nextId && s.store[k].id == Some(k)) &&
    (forall k :: k in s.cache ==> 1 <= k < s.nextId && s.cache[k].id == Some(k))
  }

  /** No two rows share an email. */
  ghost predicate EmailsUnique(store: map<int, Employee>) {
    forall j, k :: j in store && k in store && j != k ==> store[j].email != store[k].email
  }

  /** The repository's existsByEmail, with exact string equality. */
  predicate ExistsByEmail(store: map<int, Employee>, email: string) {
    exists k :: k in store && store[k].email == email
  }

  /** A fresh service: empty table, empty cache, identities from 1. */
  const Initial := State(map[], 1, map[])

  lemma InitialValid()
    ensures Valid(Initial) && EmailsUnique(Initial.store)
  {
  }

  // ---------------------------------------------------------------- list

  /** getAllEmployees: every row, mapped to its transfer object. The store's
      order is unspecified, so the listing is a set. */
  function GetAllEmployees(s: State): (r: set<EmployeeDto>)
    ensures forall d :: d in r <==> exists k :: k in s.store && d == ToDto(s.store[k])
  {
    set k | k in s.store :: ToDto(s.store[k])
  }

  /** Rows carry their own ids, so the listing has one entry per row. */
  lemma {:induction false} ListingHasOneEntryPerRow(s: State)
    requires Valid(s)
    ensures |GetAllEmployees(s)| == |s.store|
  {
    ListingCountBelow(s.store, s.nextId);
    assert KeysBelow(s.store, s.nextId) == s.store.Keys;
    assert ImageBelow(s.store, s.nextId) == GetAllEmployees(s);
  }

  ghost function KeysBelow(store: map<int, Employee>, n: int): set<int> {
    set k | k in store && k < n
  }

  ghost function ImageBelow(store: map<int, Employee>, n: int): set<EmployeeDto> {
    set k | k in store && k < n :: ToDto(store[k])
  }

  lemma BelowStep(store: map<int, Employee>, n: int)
    ensures n - 1 in store ==> KeysBelow(store, n) == KeysBelow(store, n - 1) + {n - 1}
    ensures n - 1 in store ==> ImageBelow(store, n) == ImageBelow(store, n - 1) + {ToDto(store[n - 1])}
    ensures n - 1 !in store ==> KeysBelow(store, n) == KeysBelow(store, n - 1)
    ensures n - 1 !in store ==> ImageBelow(store, n) == ImageBelow(store, n - 1)
  {
  }

  /** The rows with ids below n map to as many distinct transfer objects. */
  lemma {:induction false} ListingCountBelow(store: map<int, Employee>, n: int)
    requires forall k :: k in store ==> 1 <= k && store[k].id == Some(k)
    ensures |ImageBelow(store, n)| == |KeysBelow(store, n)|
    decreases n
  {
    if n <= 1 {
      assert KeysBelow(store, n) == {};
      assert ImageBelow(store, n) == {};
    } else {
      ListingCountBelow(store, n - 1);
      BelowStep(store, n);
      if n - 1 in store {
        assert ToDto(store[n - 1]) !in ImageBelow(store, n - 1);
        assert n - 1 !in KeysBelow(store, n - 1);
      }
    }
  }

  // ---------------------------------------------------------------- helpers

  /** findByEmployeeIdOrThrow: a null id is invalid data, an unknown id is
      not found, otherwise the stored row. */
  function FindByEmployeeIdOrThrow(store: map<int, Employee>, id: Option<int>): (r: Result<Employee>)
    ensures id.None? ==> r == Failure(InvalidData)
    ensures id.Some? ==> (r.Success? <==> id.value in store)
    ensures id.Some? && id.value !in store ==> r == Failure(NotFound(id.value))
    ensures r.Success? ==> id.Some? && r.value == store[id.value]
  {
    match id
    case None => Failure(InvalidData)
    case Some(k) => if k in store then Success(store[k]) else Failure(NotFound(k))
  }

  /** validateEmailForUpdate: the new email is rejected only when it differs
      from the row's current email and some row already holds it. */
  predicate EmailConflict(store: map<int, Employee>, current: Employee, newEmail: string) {
    current.email != newEmail && ExistsByEmail(store, newEmail)
  }

  /** Self-exclusion: with unique emails, a row's new email conflicts exactly
      when ANOTHER row holds it; re-submitting its own email never does. */
  lemma ConflictIffOtherHolder(store: map<int, Employee>, k: int, newEmail: string)
    requires k in store && EmailsUnique(store)
    ensures EmailConflict(store, store[k], newEmail) <==>
      exists j :: j in store && j != k && store[j].email == newEmail
    ensures !EmailConflict(store, store[k], store[k].email)
  {
    if exists j :: j in store && j != k && store[j].email == newEmail {
      var j :| j in store && j != k && store[j].email == newEmail;
      assert store[k].email != store[j].email;
    }
  }

  /** updateEmployeeFields: the seven mutable fields of the row take the
      candidate's values; the id is kept. */
  function Replaced(e: Employee, d: EmployeeDto): (r: Employee)
    ensures r.id == e.id && ToDto(r) == d.(id := e.id)
  {
    e.(name := d.name, email := d.email, age := d.age, isActive := d.isActive,
       dateOfJoining := d.dateOfJoining, role := d.role, salary := d.salary)
  }

  /** Replacing the row with what the candidate says of it changes nothing on
      a second application. */
  lemma ReplacedIdempotent(e: Employee, d: EmployeeDto)
    ensures Replaced(Replaced(e, d), d) == Replaced(e, d)
  {
  }

  /** Writing a row whose email is `email` keeps emails unique, provided no
      other row held that email already. */
  lemma WriteKeepsUnique(store: map<int, Employee>, k: int, e: Employee)
    ensures EmailsUnique(store) && (forall j :: j in store && j != k ==> store[j].email != e.email) ==>
      EmailsUnique(store[k := e])
  {
  }

  // ---------------------------------------------------------------- get

  /** getEmployeeById behind the cache: a hit is answered from the cache
      without reading the table; a miss reads the table and caches what it finds. */
  function GetEmployeeById(s: State, id: Option<int>): (o: Step<EmployeeDto>)
    requires Valid(s)
    ensures Valid(o.state) && o.state.store == s.store && o.state.nextId == s.nextId
    ensures o.result.Failure? ==> o.state == s
    ensures id.None? ==> o.result == Failure(IllegalArgument)
    ensures id.Some? && id.value in s.cache ==> o == Step(Success(s.cache[id.value]), s)
    ensures id.Some? && id.value !in s.cache && id.value !in s.store ==>
      o.result == Failure(NotFound(id.value))
    ensures id.Some? && id.value !in s.cache && id.value in s.store ==>
      o.result == Success(ToDto(s.store[id.value])) &&
      o.state.cache == s.cache[id.value := o.result.value]
  {
    match id
    case None => Step(Failure(IllegalArgument), s)
    case Some(k) =>
      if k in s.cache then Step(Success(s.cache[k]), s)
      else match FindByEmployeeIdOrThrow(s.store, id)
        case Failure(err) => Step(Failure(err), s)
        case Success(e) =>
          var dto := ToDto(e);
          Step(Success(dto), s.(cache := s.cache[k := dto]))
  }

  /** On a hit the table is not consulted: two states that differ only in
      their tables give the same answer. */
  lemma HitIgnoresStore(s: State, t: State, k: int)
    requires Valid(s) && Valid(t) && s.cache == t.cache && k in s.cache
    ensures GetEmployeeById(s, Some(k)).result == GetEmployeeById(t, Some(k)).result
  {
  }

  // ---------------------------------------------------------------- create

  /** createEmployee: rejected as a duplicate exactly when some row already has
      the email; otherwise one new row under a fresh id, cached under that id. */
  function CreateEmployee(s: State, d: EmployeeDto): (o: Step<EmployeeDto>)
    requires Valid(s)
    requires d.id.None?
    ensures Valid(o.state)
    ensures o.result.Failure? <==> ExistsByEmail(s.store, d.email)
    ensures o.result.Failure? ==> o == Step(Failure(DuplicateResource(d.email)), s)
    ensures o.result.Success? ==>
      o.result.value.id.Some? &&
      var k := o.result.value.id.value;
      k !in s.store && k !in s.cache &&
      o.state.store.Keys == s.store.Keys + {k} &&
      (forall j :: j in s.store ==> o.state.store[j] == s.store[j]) &&
      o.result.value == d.(id := Some(k)) &&
      ToDto(o.state.store[k]) == o.result.value &&
      o.state.cache == s.cache[k := o.result.value]
    ensures EmailsUnique(s.store) ==> EmailsUnique(o.state.store)
  {
    if ExistsByEmail(s.store, d.email) then Step(Failure(DuplicateResource(d.email)), s)
    else
      var k := s.nextId;
      var saved := ToEntity(d).(id := Some(k));
      var dto := ToDto(saved);
      Step(Success(dto), State(s.store[k := saved], k + 1, s.cache[k := dto]))
  }

  // ---------------------------------------------------------------- update

  /** updateEmployee: the row must exist; the email is checked with
      self-exclusion; all seven fields are replaced and the cache refreshed. */
  function UpdateEmployee(s: State, id: Option<int>, d: EmployeeDto): (o: Step<EmployeeDto>)
    requires Valid(s)
    ensures Valid(o.state) && o.state.nextId == s.nextId
    ensures o.result.Failure? ==> o.state == s
    ensures id.None? ==> o.result == Failure(InvalidData)
    ensures id.Some? && id.value !in s.store ==> o.result == Failure(NotFound(id.value))
    ensures id.Some? && id.value in s.store ==>
      (o.result.Failure? <==> EmailConflict(s.store, s.store[id.value], d.email)) &&
      (o.result.Failure? ==> o.result.error == DuplicateResource(d.email))
    ensures o.result.Success? ==>
      id.Some? && id.value in s.store &&
      var k := id.value;
      o.state.store.Keys == s.store.Keys &&
      var e := o.state.store[k];
      (forall j :: j in s.store && j != k ==> o.state.store[j] == s.store[j]) &&
      e.id == Some(k) && e.name == d.name && e.email == d.email && e.age == d.age &&
      e.isActive == d.isActive && e.dateOfJoining == d.dateOfJoining &&
      e.role == d.role && e.salary == d.salary &&
      o.result.value == ToDto(e) &&
      o.state.cache == s.cache[k := o.result.value]
    ensures EmailsUnique(s.store) ==> EmailsUnique(o.state.store)
  {
    match FindByEmployeeIdOrThrow(s.store, id)
    case Failure(err) => Step(Failure(err), s)
    case Success(existing) =>
      if EmailConflict(s.store, existing, d.email) then Step(Failure(DuplicateResource(d.email)), s)
      else
        var k := id.value;
        var saved := Replaced(existing, d);
        var dto := ToDto(saved);
        assert EmailsUnique(s.store) ==> forall j :: j in s.store && j != k ==> s.store[j].email != d.email;
        WriteKeepsUnique(s.store, k, saved);
        Step(Success(dto), s.(store := s.store[k := saved], cache := s.cache[k := dto]))
  }

  /** Re-submitting a row's own email is never a duplicate. */
  lemma UpdateOwnEmailSucceeds(s: State, k: int, d: EmployeeDto)
    requires Valid(s) && k in s.store && d.email == s.store[k].email
    ensures UpdateEmployee(s, Some(k), d).result.Success?
  {
  }

  /** With unique emails, an update is a duplicate exactly when another row
      holds the new email. */
  lemma UpdateDuplicateIffOtherHolder(s: State, k: int, d: EmployeeDto)
    requires Valid(s) && EmailsUnique(s.store) && k in s.store
    ensures UpdateEmployee(s, Some(k), d).result.Failure? <==>
      exists j :: j in s.store && j != k && s.store[j].email == d.email
  {
    ConflictIffOtherHolder(s.store, k, d.email);
  }

  /** The same full update applied twice gives what applying it once gives. */
  lemma UpdateTwiceIsOnce(s: State, id: Option<int>, d: EmployeeDto)
    requires Valid(s)
    ensures UpdateEmployee(UpdateEmployee(s, id, d).state, id, d) == UpdateEmployee(s, id, d)
  {
    var once := UpdateEmployee(s, id, d);
    if once.result.Success? {
      var k := id.value;
      var t := once.state;
      assert t.store[k].email == d.email;
      assert !EmailConflict(t.store, t.store[k], d.email);
      ReplacedIdempotent(s.store[k], d);
      assert t.store[k := Replaced(t.store[k], d)] == t.store;
    }
  }

  // ---------------------------------------------------------------- patch

  /** A JSON value in a patch body, already typed. */
  datatype JsonValue = JsonNull | JsonString(text: string) | JsonNumber(number: int) | JsonBool(flag: bool) | JsonOther

  /** The patchable fields and their keys in the patch body. */
  datatype EmployeeField = Name | Email | Age | IsActive {
    function Key(): string {
      match this
      case Name => "name"
      case Email => "email"
      case Age => "age"
      case IsActive => "isActive"
    }
  }

  type Patch = map<string, JsonValue>

  /** The key is present with a non-null value. */
  predicate Supplied(p: Patch, f: EmployeeField) {
    f.Key() in p && !p[f.Key()].JsonNull?
  }

  /** Every supplied patchable value has its field's type (the source casts). */
  predicate WellTyped(p: Patch) {
    (Supplied(p, Name) ==> p[Name.Key()].JsonString?) &&
    (Supplied(p, Email) ==> p[Email.Key()].JsonString?) &&
    (Supplied(p, Age) ==> p[Age.Key()].JsonNumber?) &&
    (Supplied(p, IsActive) ==> p[IsActive.Key()].JsonBool?)
  }

  /** The row with every supplied patchable field overwritten. */
  function Patched(e: Employee, p: Patch): (r: Employee)
    requires WellTyped(p)
    ensures r.id == e.id && r.dateOfJoining == e.dateOfJoining && r.salary == e.salary && r.role == e.role
    ensures r.name == (if Supplied(p, Name) then p[Name.Key()].text else e.name)
    ensures r.email == (if Supplied(p, Email) then p[Email.Key()].text else e.email)
    ensures r.age == (if Supplied(p, Age) then p[Age.Key()].number else e.age)
    ensures r.isActive == (if Supplied(p, IsActive) then p[IsActive.Key()].flag else e.isActive)
  {
    e.(name := if Supplied(p, Name) then p[Name.Key()].text else e.name,
       email := if Supplied(p, Email) then p[Email.Key()].text else e.email,
       age := if Supplied(p, Age) then p[Age.Key()].number else e.age,
       isActive := if Supplied(p, IsActive) then p[IsActive.Key()].flag else e.isActive)
  }

  /** updatePartialEmployeeById: the row must exist; a supplied email is
      checked with self-exclusion; only supplied patchable fields change; the
      cache is not written. */
  function PatchEmployee(s: State, id: Option<int>, p: Patch): (o: Step<EmployeeDto>)
    requires Valid(s) && WellTyped(p)
    ensures Valid(o.state) && o.state.nextId == s.nextId && o.state.cache == s.cache
    ensures o.result.Failure? ==> o.state == s
    ensures id.None? ==> o.result == Failure(InvalidData)
    ensures id.Some? && id.value !in s.store ==> o.result == Failure(NotFound(id.value))
    ensures id.Some? && id.value in s.store ==>
      (o.result.Failure? <==>
        Supplied(p, Email) && EmailConflict(s.store, s.store[id.value], p[Email.Key()].text)) &&
      (o.result.Failure? ==> o.result.error == DuplicateResource(p[Email.Key()].text))
    ensures o.result.Success? ==>
      id.Some? && id.value in s.store &&
      var k := id.value;
      var before := s.store[k];
      o.state.store.Keys == s.store.Keys &&
      var e := o.state.store[k];
      (forall j :: j in s.store && j != k ==> o.state.store[j] == s.store[j]) &&
      e.name == (if Supplied(p, Name) then p[Name.Key()].text else before.name) &&
      e.email == (if Supplied(p, Email) then p[Email.Key()].text else before.email) &&
      e.age == (if Supplied(p, Age) then p[Age.Key()].number else before.age) &&
      e.isActive == (if Supplied(p, IsActive) then p[IsActive.Key()].flag else before.isActive) &&
      e.id == before.id && e.dateOfJoining == before.dateOfJoining &&
      e.salary == before.salary && e.role == before.role &&
      o.result.value == ToDto(e)
    ensures EmailsUnique(s.store) ==> EmailsUnique(o.state.store)
  {
    match FindByEmployeeIdOrThrow(s.store, id)
    case Failure(err) => Step(Failure(err), s)
    case Success(existing) =>
      if Supplied(p, Email) && EmailConflict(s.store, existing, p[Email.Key()].text) then
        Step(Failure(DuplicateResource(p[Email.Key()].text)), s)
      else
        var k := id.value;
        var saved := Patched(existing, p);
        assert EmailsUnique(s.store) ==> forall j :: j in s.store && j != k ==> s.store[j].email != saved.email;
        WriteKeepsUnique(s.store, k, saved);
        Step(Success(ToDto(saved)), s.(store := s.store[k := saved]))
  }

  /** A patch that supplies none of the four patchable keys writes the row back
      unchanged. */
  lemma PatchWithoutPatchableKeys(s: State, k: int, p: Patch)
    requires Valid(s) && k in s.store
    requires !Supplied(p, Name) && !Supplied(p, Email) && !Supplied(p, Age) && !Supplied(p, IsActive)
    ensures PatchEmployee(s, Some(k), p) == Step(Success(ToDto(s.store[k])), s)
  {
    assert Patched(s.store[k], p) == s.store[k];
    assert s.store[k := s.store[k]] == s.store;
  }

  /** Keys other than the four patchable ones (salary, role, dateOfJoining, id,
      or anything else) have no effect on a patch. */
  lemma PatchIgnoresOtherKeys(s: State, id: Option<int>, p: Patch, key: string, v: JsonValue)
    requires Valid(s) && WellTyped(p)
    requires key !in {Name.Key(), Email.Key(), Age.Key(), IsActive.Key()}
    ensures WellTyped(p[key := v])
    ensures PatchEmployee(s, id, p[key := v]) == PatchEmployee(s, id, p)
  {
    var q := p[key := v];
    assert forall f: EmployeeField :: f.Key() != key;
    assert forall f: EmployeeField :: Supplied(q, f) == Supplied(p, f);
    assert forall f: EmployeeField :: f.Key() in p ==> q[f.Key()] == p[f.Key()];
  }

  /** Patching a row's email to its own current email is never a duplicate. */
  lemma PatchOwnEmailSucceeds(s: State, k: int, p: Patch)
    requires Valid(s) && WellTyped(p) && k in s.store
    requires Supplied(p, Email) && p[Email.Key()].text == s.store[k].email
    ensures PatchEmployee(s, Some(k), p).result.Success?
  {
  }

  // ---------------------------------------------------------------- delete

  /** deleteEmployee: removes an existing row and leaves the cache alone. A
      null id is rejected by the repository itself. */
  function DeleteEmployee(s: State, id: Option<int>): (o: Step<()>)
    requires Valid(s)
    ensures Valid(o.state) && o.state.nextId == s.nextId && o.state.cache == s.cache
    ensures o.result.Failure? ==> o.state == s
    ensures id.None? ==> o.result == Failure(IllegalArgument)
    ensures id.Some? ==> (o.result.Success? <==> id.value in s.store)
    ensures id.Some? && id.value !in s.store ==> o.result == Failure(NotFound(id.value))
    ensures o.result.Success? ==>
      id.Some? && o.state.store.Keys == s.store.Keys - {id.value} &&
      forall j :: j in o.state.store ==> o.state.store[j] == s.store[j]
    ensures EmailsUnique(s.store) ==> EmailsUnique(o.state.store)
  {
    match id
    case None => Step(Failure(IllegalArgument), s)
    case Some(k) =>
      if k in s.store then Step(Success(()), s.(store := s.store - {k}))
      else Step(Failure(NotFound(k)), s)
  }

  // ---------------------------------------------------------------- cache coherence

  /** After a successful create, reading the new id is a cache hit that returns
      the candidate with its assigned id. */
  lemma CreateThenGet(s: State, d: EmployeeDto)
    requires Valid(s) && d.id.None?
    requires CreateEmployee(s, d).result.Success?
    ensures var c := CreateEmployee(s, d);
      var k := c.result.value.id.value;
      GetEmployeeById(c.state, Some(k)) == Step(Success(d.(id := Some(k))), c.state)
  {
  }

  /** After a successful full update, reading the id returns the new values. */
  lemma UpdateThenGet(s: State, k: int, d: EmployeeDto)
    requires Valid(s)
    requires UpdateEmployee(s, Some(k), d).result.Success?
    ensures var u := UpdateEmployee(s, Some(k), d);
      GetEmployeeById(u.state, Some(k)) == Step(Success(d.(id := Some(k))), u.state)
  {
  }

  /** A patch does not refresh the cache: a cached id keeps answering with the
      value cached before the patch, whatever the table now holds. */
  lemma PatchThenGetServesCachedValue(s: State, k: int, p: Patch)
    requires Valid(s) && WellTyped(p) && k in s.cache
    requires PatchEmployee(s, Some(k), p).result.Success?
    ensures var q := PatchEmployee(s, Some(k), p);
      GetEmployeeById(q.state, Some(k)).result == Success(s.cache[k]) &&
      q.state.store[k] == Patched(s.store[k], p)
  {
  }

  /** A delete does not evict: a cached id is still answered after its row is
      gone, instead of failing with NotFound. */
  lemma DeleteThenGetServesCachedValue(s: State, k: int)
    requires Valid(s) && k in s.cache && k in s.store
    ensures var t := DeleteEmployee(s, Some(k));
      t.result.Success? && k !in t.state.store &&
      GetEmployeeById(t.state, Some(k)).result == Success(s.cache[k])
  {
  }

  /** A read only fails with NotFound for an id in neither table nor cache. */
  lemma GetNotFoundIff(s: State, k: int)
    requires Valid(s)
    ensures GetEmployeeById(s, Some(k)).result == Failure(NotFound(k)) <==> k !in s.store && k !in s.cache
  {
  }

  // ---------------------------------------------------------------- a worked run

  /** Create Jane Doe, try her email again, read her, patch her age, delete her,
      read her again: the last read is served from the cache with the age as
      it was when she was created. */
  lemma JaneDoeRun()
    ensures
      var jane := EmployeeDto(None, "Jane Doe", "jane@x.com", 30, Date(2020, 1, 1), true, 500000, "ENGINEER");
      var s1 := CreateEmployee(Initial, jane);
      s1.result == Success(jane.(id := Some(1))) &&
      var s2 := CreateEmployee(s1.state, jane);
      s2.result == Failure(DuplicateResource("jane@x.com")) &&
      var s3 := GetEmployeeById(s2.state, Some(1));
      s3.result == Success(jane.(id := Some(1))) &&
      var s4 := PatchEmployee(s3.state, Some(1), map["age" := JsonNumber(31)]);
      s4.result == Success(jane.(id := Some(1), age := 31)) &&
      var s5 := DeleteEmployee(s4.state, Some(1));
      s5.result == Success(()) &&
      GetEmployeeById(s5.state, Some(1)).result == Success(jane.(id := Some(1)))
  {
    var jane := EmployeeDto(None, "Jane Doe", "jane@x.com", 30, Date(2020, 1, 1), true, 500000, "ENGINEER");
    InitialValid();
    assert !ExistsByEmail(Initial.store, jane.email);
    var s1 := CreateEmployee(Initial, jane);
    assert s1.state.store[1].email == jane.email;
    assert ExistsByEmail(s1.state.store, jane.email);
    var p: Patch := map["age" := JsonNumber(31)];
    assert !Supplied(p, Name) && !Supplied(p, Email) && Supplied(p, Age) && !Supplied(p, IsActive);
  }
}
