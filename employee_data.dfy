/** The records the employee service exchanges: the persisted entity, the
    transfer object handed to callers, the typed failures, and the field-for-field
    mapping between entity and transfer object. */
module EmployeeData {

  /** A nullable value (Java's null references). */
  datatype Option<T> = None | Some(value: T)

  /** A calendar date, compared like java.time.LocalDate: year, then month, then day. */
  datatype Date = Date(year: int, month: int, day: int)

  predicate NotAfter(a: Date, b: Date) {
    a.year < b.year ||
    (a.year == b.year && (a.month < b.month || (a.month == b.month && a.day <= b.day)))
  }

  /** One row of the employees table. `id` is None until the store assigns one;
      `salary` is in integer cents (the source holds a Double). */
  datatype Employee = Employee(
    id: Option<int>,
    name: string,
    email: string,
    age: int,
    dateOfJoining: Date,
    isActive: bool,
    salary: int,
    role: string)

  /** The record shape returned to callers and accepted from them. */
  datatype EmployeeDto = EmployeeDto(
    id: Option<int>,
    name: string,
    email: string,
    age: int,
    dateOfJoining: Date,
    isActive: bool,
    salary: int,
    role: string)

  /** Failures the service raises. `IllegalArgument` stands for the framework's
      own rejection of a null id: the cache interceptor's IllegalArgumentException
      for a null cache key, and, for a null repository id, the
      InvalidDataAccessApiUsageException ("The given id must not be null") into
      which the repository proxy translates the id assertion's failure. */
  datatype Error =
    | InvalidData
    | NotFound(id: int)
    | DuplicateResource(email: string)
    | IllegalArgument

  datatype Result<T> = Success(value: T) | Failure(error: Error)

  /** convertToDto: a field-for-field copy. */
  function ToDto(e: Employee): EmployeeDto {
    EmployeeDto(e.id, e.name, e.email, e.age, e.dateOfJoining, e.isActive, e.salary, e.role)
  }

  /** convertToEntity: a field-for-field copy, undone by ToDto. */
  function ToEntity(d: EmployeeDto): (e: Employee)
    ensures ToDto(e) == d
  {
    Employee(d.id, d.name, d.email, d.age, d.dateOfJoining, d.isActive, d.salary, d.role)
  }

  /** The mapping loses nothing in the other direction either. */
  lemma EntityRoundTrip(e: Employee)
    ensures ToEntity(ToDto(e)) == e
  {
  }
}
