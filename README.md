# Employee record lifecycle — a Dafny model

This project models the core of a Spring employee-management service: the
service that lists, reads, creates, fully updates, partially updates (patches)
and deletes employee records, and the field constraints declared on the employee
transfer object.

- `employee_data.dfy` (module `EmployeeData`): the employee entity (the eight
  columns of the employees table), the transfer object, the typed failures
  (`InvalidData`, `NotFound`, `DuplicateResource`, and `IllegalArgument` for the
  framework's own refusal of a null id), and the field-for-field mapping between
  entity and transfer object.
- `employee_validation.dfy` (module `EmployeeValidation`): the constraint
  annotations of the transfer object as a pure error-list function over a
  candidate whose fields may be null. Each annotation is checked on its own;
  a null value satisfies every constraint except NotNull and NotBlank; each
  violated annotation contributes one error. `Admit` is the validation gate in
  front of create and full update, and drops any id the caller sent, because the
  id property is read-only on input.
- `employee_lifecycle.dfy` (module `EmployeeLifecycle`): the state the service
  works on — the table keyed by id, the table's next identity value, and the
  `employees` cache keyed by id. Each operation is a function from the state
  before the call to its result and the state after it. The contracts and lemmas
  cover the error cases, self-excluding email uniqueness, frame conditions,
  idempotence of full update, and cache behaviour.
- `employee_service.dfy` (module `EmployeeService`): the service as a class whose
  fields are the table, the counter and the cache. Its methods update them step
  by step, as the source does. Each method is proved equal to the matching
  `EmployeeLifecycle` function, and its `modifies` clause names only the fields
  that the method's cache annotations allow it to change.

Salaries are integer cents. The current date, the Email syntax rule and the
employee-role rule are parameters of validation (`Rules`).

## Behaviour of the code that the model exposes

The model follows the code in each of these points:

- **Stale cache reads.** `deleteEmployee` has no cache annotation, so it does not
  evict. `updatePartialEmployeeById` has no `@CachePut`, so it does not refresh
  the cache. A later `getEmployeeById` can therefore return a cached value that
  the table no longer holds. `PatchThenGetServesCachedValue` and
  `DeleteThenGetServesCachedValue` prove this in general. `JaneDoeRun` plays it
  out: after create, get, patch `{age: 31}` and delete, a get still returns the
  cached record with age 30 instead of failing with NotFound. Only create and
  full update refresh the cache (`CreateThenGet`, `UpdateThenGet`).
- **The salary ceiling is 99999.99, not 100000.99.** `@Digits(integer = 5)`
  rejects every salary with six integer digits. So 100000.99 is rejected even
  though `@DecimalMax("100000.99")` admits it, and DecimalMax never fires without
  Digits firing too (`SalaryRule`, `SalaryBoundaries`, `SalaryMaxNeverAlone`).
- **A null id is not always InvalidData.** Update and patch reach
  `findByEmployeeIdOrThrow` and fail with InvalidData. Get fails earlier, because
  `@Cacheable` refuses a null key with an IllegalArgumentException before the
  method body runs. Delete calls the repository's `findById` directly. The
  repository's id assertion fails, and its proxy re-throws the failure as
  InvalidDataAccessApiUsageException ("The given id must not be null"). Both
  of these are modelled as `IllegalArgument`.
- **Patch keys.** Keys other than `name`, `email`, `age` and `isActive` are
  silently ignored (`PatchIgnoresOtherKeys`). A patch with none of them still
  saves and returns the unchanged record (`PatchWithoutPatchableKeys`). Patch
  bodies are not validated, so a patch may set an age outside 18–65 or set
  `isActive` to false.
- **Length is counted in UTF-16 code units.** Size measures a name with
  `String.length()`, so a character above U+FFFF counts twice. 26 emoji form a
  52-unit name that violates Size as well as Pattern (`AstralNameViolatesSize`).
  Acceptance is unaffected, because Pattern admits only ASCII
  (`NameSizeInCharacters`).
- **An empty email is only blank.** The Email constraint accepts the empty
  string, so `""` gets NotBlank's error alone (`EmptyEmailOnlyBlank`).
- **Email uniqueness.** Uniqueness is a check-then-save in the service. The model
  proves that every successful create, update, patch and delete keeps stored
  emails pairwise distinct when they were distinct before.

## Model

| member | source | states |
|---|---|---|
| `EmployeeData.ToDto` | src/main/java/com/springweb/employeemanagement/services/EmployeeServiceImpl.java:30-32 | convertToDto is a field-for-field copy; `EntityRoundTrip` and `ToEntity` prove it loses nothing in either direction |
| `EmployeeData.ToEntity` | src/main/java/com/springweb/employeemanagement/services/EmployeeServiceImpl.java:30-36 | convertToEntity is a lossless field copy: converting back to a DTO gives the original DTO |
| `EmployeeData.EntityRoundTrip` | src/main/java/com/springweb/employeemanagement/services/EmployeeServiceImpl.java:30-36 | convertToDto followed by convertToEntity gives back the original entity |
| `EmployeeValidation.Utf16Length` | src/main/java/com/springweb/employeemanagement/dto/EmployeeDto.java:22 | the length Size measures: UTF-16 code units, between the number of characters and twice that number |
| `EmployeeValidation.Utf16LengthOfBmp` | src/main/java/com/springweb/employeemanagement/dto/EmployeeDto.java:22 | a string without characters above U+FFFF has as many UTF-16 code units as characters |
| `EmployeeValidation.Utf16LengthOfAstral` | src/main/java/com/springweb/employeemanagement/dto/EmployeeDto.java:22 | a string of characters above U+FFFF has twice as many UTF-16 code units as characters |
| `EmployeeValidation.Holds` | src/main/java/com/springweb/employeemanagement/dto/EmployeeDto.java:21-53 | the reference definition: each annotation judged on its own, a null value satisfying all but NotNull and NotBlank, Email accepting the empty string |
| `EmployeeValidation.NameErrors` | src/main/java/com/springweb/employeemanagement/dto/EmployeeDto.java:21-24 | the name errors are exactly the violated NotBlank, Size(2..50, in UTF-16 code units) and Pattern constraints, each once |
| `EmployeeValidation.EmailErrors` | src/main/java/com/springweb/employeemanagement/dto/EmployeeDto.java:26-28 | the email errors are exactly the violated NotBlank and Email constraints, each once; Email accepts the empty string |
| `EmployeeValidation.AgeErrors` | src/main/java/com/springweb/employeemanagement/dto/EmployeeDto.java:30-33 | the age errors are exactly the violated NotNull, Min(18) and Max(65) constraints, each once |
| `EmployeeValidation.JoiningErrors` | src/main/java/com/springweb/employeemanagement/dto/EmployeeDto.java:35-37 | the joining-date errors are exactly the violated NotNull and PastOrPresent constraints, each once |
| `EmployeeValidation.ActiveErrors` | src/main/java/com/springweb/employeemanagement/dto/EmployeeDto.java:39-42 | the isActive errors are exactly the violated NotNull and AssertTrue constraints, each once |
| `EmployeeValidation.SalaryErrors` | src/main/java/com/springweb/employeemanagement/dto/EmployeeDto.java:44-49 | the salary errors are exactly the violated NotNull, Positive, Digits(5,2), DecimalMax and DecimalMin constraints, each once |
| `EmployeeValidation.RoleErrors` | src/main/java/com/springweb/employeemanagement/dto/EmployeeDto.java:51-53 | the role errors are exactly the violated NotBlank and role-rule constraints, each once |
| `EmployeeValidation.Validate` | src/main/java/com/springweb/employeemanagement/dto/EmployeeDto.java:21-53 | every constraint is checked independently: a constraint appears in the error list if and only if it is violated, and no constraint appears twice |
| `EmployeeValidation.NameRule` | src/main/java/com/springweb/employeemanagement/dto/EmployeeDto.java:21-24 | the name is accepted iff it is present, non-blank, 2 to 50 characters long, and made only of ASCII letters and whitespace |
| `EmployeeValidation.NameSizeInCharacters` | src/main/java/com/springweb/employeemanagement/dto/EmployeeDto.java:22-23 | for a name the Pattern admits, Size in UTF-16 code units and Size in characters agree |
| `EmployeeValidation.AstralNameViolatesSize` | src/main/java/com/springweb/employeemanagement/dto/EmployeeDto.java:21-23 | a name of 26 copies of U+1F600 is not blank but violates both Size (52 code units) and Pattern |
| `EmployeeValidation.EmptyEmailOnlyBlank` | src/main/java/com/springweb/employeemanagement/dto/EmployeeDto.java:26-28 | an empty email is reported on the email field by NotBlank alone |
| `EmployeeValidation.EmailRule` | src/main/java/com/springweb/employeemanagement/dto/EmployeeDto.java:26-28 | the email is accepted iff it is present, non-blank, and passes the separate email-syntax rule |
| `EmployeeValidation.AgeRule` | src/main/java/com/springweb/employeemanagement/dto/EmployeeDto.java:30-33 | the age is accepted iff it is present and 18 <= age <= 65 |
| `EmployeeValidation.JoiningRule` | src/main/java/com/springweb/employeemanagement/dto/EmployeeDto.java:35-37 | the joining date is accepted iff it is present and not after the supplied current date |
| `EmployeeValidation.ActiveRule` | src/main/java/com/springweb/employeemanagement/dto/EmployeeDto.java:39-42 | isActive is accepted iff it is present and true; false is rejected |
| `EmployeeValidation.SalaryRule` | src/main/java/com/springweb/employeemanagement/dto/EmployeeDto.java:44-49 | the salary is accepted iff it is present and 10050 <= cents <= 9999999; the Digits constraint caps it below the declared maximum |
| `EmployeeValidation.SalaryDigitsFitRange` | src/main/java/com/springweb/employeemanagement/dto/EmployeeDto.java:46 | Digits(integer = 5, fraction = 2) holds for an amount in cents iff its magnitude is at most 99999.99 |
| `EmployeeValidation.RoleRuleHolds` | src/main/java/com/springweb/employeemanagement/dto/EmployeeDto.java:51-53 | the role is accepted iff it is present, non-blank, and allowed by the separate role rule |
| `EmployeeValidation.ValidExactlyWhenEveryFieldAccepted` | src/main/java/com/springweb/employeemanagement/dto/EmployeeDto.java:21-53 | a candidate has no errors iff each of its seven fields is accepted |
| `EmployeeValidation.AgeBoundaries` | src/main/java/com/springweb/employeemanagement/dto/EmployeeDto.java:30-33 | ages 18 and 65 are accepted; 17 and 66 are rejected |
| `EmployeeValidation.SalaryBoundaries` | src/main/java/com/springweb/employeemanagement/dto/EmployeeDto.java:44-49 | 100.50 and 99999.99 are accepted; 100.49, 100000.99 and 100001.00 are rejected |
| `EmployeeValidation.SalaryMaxNeverAlone` | src/main/java/com/springweb/employeemanagement/dto/EmployeeDto.java:46-47 | whenever DecimalMax is violated, Digits is violated too |
| `EmployeeValidation.Admit` | src/main/java/com/springweb/employeemanagement/dto/EmployeeDto.java:18-53 | a body is admitted iff it has no errors; otherwise all its errors are reported; an admitted DTO carries the body's seven values, isActive true, and no id, because id is read-only on input |
| `EmployeeLifecycle.GetAllEmployees` | src/main/java/com/springweb/employeemanagement/services/EmployeeServiceImpl.java:38-45 | the listing holds exactly the DTO of every stored row |
| `EmployeeService.EmployeeServiceImpl.GetAllEmployees` | src/main/java/com/springweb/employeemanagement/services/EmployeeServiceImpl.java:38-45 | the service's listing holds exactly the DTO of every row of its table |
| `EmployeeLifecycle.ListingHasOneEntryPerRow` | src/main/java/com/springweb/employeemanagement/services/EmployeeServiceImpl.java:38-45 | the listing has as many entries as the table has rows |
| `EmployeeLifecycle.FindByEmployeeIdOrThrow` | src/main/java/com/springweb/employeemanagement/services/EmployeeServiceImpl.java:137-143 | a null id fails with InvalidData before the table is read; an absent id fails with NotFound; a present id yields its row |
| `EmployeeLifecycle.ExistsByEmail` | src/main/java/com/springweb/employeemanagement/services/EmployeeServiceImpl.java:145-149 | existsByEmail: some row holds exactly this email; a create is refused as a duplicate exactly then (`CreateEmployee`) |
| `EmployeeLifecycle.EmailConflict` | src/main/java/com/springweb/employeemanagement/services/EmployeeServiceImpl.java:155-160 | validateEmailForUpdate: the email changes and some row already holds the new one; `ConflictIffOtherHolder` proves that row is another one |
| `EmployeeLifecycle.ConflictIffOtherHolder` | src/main/java/com/springweb/employeemanagement/services/EmployeeServiceImpl.java:151-160 | self-exclusion: with unique emails, a row's new email is a duplicate iff another row holds it; re-submitting the row's own email never is |
| `EmployeeLifecycle.Replaced` | src/main/java/com/springweb/employeemanagement/services/EmployeeServiceImpl.java:162-170 | the seven setters keep the row's id and make its DTO equal to the candidate with that id |
| `EmployeeLifecycle.ReplacedIdempotent` | src/main/java/com/springweb/employeemanagement/services/EmployeeServiceImpl.java:162-170 | replacing the seven fields a second time with the same candidate changes nothing |
| `EmployeeLifecycle.GetEmployeeById` | src/main/java/com/springweb/employeemanagement/services/EmployeeServiceImpl.java:48-56 | a null id fails before anything is read; a hit returns the cached value and changes nothing; a miss on an absent id fails with NotFound; a miss on a present id returns its DTO and caches it under the id; the table is never written |
| `EmployeeLifecycle.HitIgnoresStore` | src/main/java/com/springweb/employeemanagement/services/EmployeeServiceImpl.java:48 | on a cache hit the answer does not depend on the table |
| `EmployeeLifecycle.CreateEmployee` | src/main/java/com/springweb/employeemanagement/services/EmployeeServiceImpl.java:58-71 | fails with DuplicateResource, leaving the state unchanged, iff some row has the email; otherwise adds exactly one row under a fresh id, leaves existing rows alone, returns the candidate with that id, and caches it under that id; email uniqueness is preserved |
| `EmployeeLifecycle.UpdateEmployee` | src/main/java/com/springweb/employeemanagement/services/EmployeeServiceImpl.java:73-97 | an absent id fails with NotFound; the update is a duplicate iff the email changes to one already stored; on success all seven fields equal the candidate's, the id and every other row are unchanged, and the cache at the id equals the result; any failure leaves the state unchanged; email uniqueness is preserved |
| `EmployeeLifecycle.UpdateOwnEmailSucceeds` | src/main/java/com/springweb/employeemanagement/services/EmployeeServiceImpl.java:155-160 | a full update that keeps the row's own email never fails |
| `EmployeeLifecycle.UpdateDuplicateIffOtherHolder` | src/main/java/com/springweb/employeemanagement/services/EmployeeServiceImpl.java:73-97 | with unique emails, a full update of a stored row fails iff another row holds the new email |
| `EmployeeLifecycle.UpdateTwiceIsOnce` | src/main/java/com/springweb/employeemanagement/services/EmployeeServiceImpl.java:73-97 | applying the same full update twice gives the same result and state as applying it once |
| `EmployeeLifecycle.PatchEmployee` | src/main/java/com/springweb/employeemanagement/services/EmployeeServiceImpl.java:109-134 | an absent id fails with NotFound; only name, email, age and isActive supplied with non-null values overwrite their field; dateOfJoining, salary, role, the id and every other row are unchanged; a supplied email gets the self-excluding duplicate check; the cache is never written; any failure leaves the state unchanged; email uniqueness is preserved |
| `EmployeeLifecycle.Patched` | src/main/java/com/springweb/employeemanagement/services/EmployeeServiceImpl.java:114-130 | each of name, email, age and isActive takes the patch's value when supplied non-null and keeps its own otherwise; id, dateOfJoining, salary and role are never changed |
| `EmployeeLifecycle.PatchWithoutPatchableKeys` | src/main/java/com/springweb/employeemanagement/services/EmployeeServiceImpl.java:112-133 | a patch with no patchable keys succeeds, returns the record, and leaves the state unchanged |
| `EmployeeLifecycle.PatchIgnoresOtherKeys` | src/main/java/com/springweb/employeemanagement/services/EmployeeServiceImpl.java:114-130 | adding any key other than the four patchable ones (salary, role, dateOfJoining, id, ...) does not change the outcome |
| `EmployeeLifecycle.PatchOwnEmailSucceeds` | src/main/java/com/springweb/employeemanagement/services/EmployeeServiceImpl.java:118-122 | patching a row's email to its current email never fails |
| `EmployeeLifecycle.DeleteEmployee` | src/main/java/com/springweb/employeemanagement/services/EmployeeServiceImpl.java:99-107 | an absent id fails with NotFound; a present id is removed and every other row is unchanged; the cache is not touched; email uniqueness is preserved |
| `EmployeeLifecycle.CreateThenGet` | src/main/java/com/springweb/employeemanagement/services/EmployeeServiceImpl.java:48-71 | after a successful create, reading the new id is a cache hit returning the candidate with its assigned id |
| `EmployeeLifecycle.UpdateThenGet` | src/main/java/com/springweb/employeemanagement/services/EmployeeServiceImpl.java:48-97 | after a successful full update, reading the id returns the new values |
| `EmployeeLifecycle.PatchThenGetServesCachedValue` | src/main/java/com/springweb/employeemanagement/services/EmployeeServiceImpl.java:48-56 | after a patch, a cached id still answers with the value cached before the patch, while the table holds the patched row |
| `EmployeeLifecycle.DeleteThenGetServesCachedValue` | src/main/java/com/springweb/employeemanagement/services/EmployeeServiceImpl.java:99-107 | after deleting a cached row, reading its id still succeeds with the cached value |
| `EmployeeLifecycle.GetNotFoundIff` | src/main/java/com/springweb/employeemanagement/services/EmployeeServiceImpl.java:48-56 | a read fails with NotFound iff the id is neither stored nor cached |
| `EmployeeLifecycle.JaneDoeRun` | src/main/java/com/springweb/employeemanagement/services/EmployeeServiceImpl.java:48-134 | a concrete run: create succeeds with id 1, a second create with the same email is a duplicate, get returns the record, patch age 31 returns it with age 31, delete succeeds, and the final get returns the stale cached record |
| `EmployeeService.EmployeeServiceImpl.constructor` | src/main/java/com/springweb/employeemanagement/services/EmployeeServiceImpl.java:21-28 | a new service starts with an empty table, an empty cache, and identities from 1 |
| `EmployeeService.EmployeeServiceImpl.Save` | src/main/java/com/springweb/employeemanagement/services/EmployeeServiceImpl.java:67 | save inserts an id-less entity under the next identity and advances the counter; an entity with an id replaces its row |
| `EmployeeService.EmployeeServiceImpl.GetEmployeeById` | src/main/java/com/springweb/employeemanagement/services/EmployeeServiceImpl.java:48-56 | the step-by-step read-through gives exactly the result and state of the lifecycle function, and writes only the cache |
| `EmployeeService.EmployeeServiceImpl.CreateEmployee` | src/main/java/com/springweb/employeemanagement/services/EmployeeServiceImpl.java:58-71 | the check, conversion, save and cache put give exactly the result and state of the lifecycle function |
| `EmployeeService.EmployeeServiceImpl.UpdateEmployeeFields` | src/main/java/com/springweb/employeemanagement/services/EmployeeServiceImpl.java:162-170 | the seven setter calls give the row with all seven mutable fields replaced |
| `EmployeeService.EmployeeServiceImpl.UpdateEmployee` | src/main/java/com/springweb/employeemanagement/services/EmployeeServiceImpl.java:73-97 | lookup, email check, field replacement, save and cache put give exactly the result and state of the lifecycle function |
| `EmployeeService.EmployeeServiceImpl.UpdatePartialEmployeeById` | src/main/java/com/springweb/employeemanagement/services/EmployeeServiceImpl.java:109-134 | the four guarded field updates and the save give exactly the result and state of the lifecycle function; the cache is outside what the method may modify |
| `EmployeeService.EmployeeServiceImpl.DeleteEmployee` | src/main/java/com/springweb/employeemanagement/services/EmployeeServiceImpl.java:99-107 | the lookup and removal give exactly the result and state of the lifecycle function; the cache is outside what the method may modify |

## Left out

- EmployeeLifecycle.GetAllEmployees: returns a set, not a list in the store's order, because the repository promises no order.
- EmployeeLifecycle.CreateEmployee and EmployeeService.EmployeeServiceImpl.CreateEmployee: require a DTO without an id. Request bodies cannot carry one, because the id property is read-only (see `Admit`). A direct caller that passes an id, which would make JPA merge instead of insert, is not modelled.
- EmployeeLifecycle.PatchEmployee and EmployeeService.EmployeeServiceImpl.UpdatePartialEmployeeById: require each supplied patch value to have its field's type. The ClassCastException that the source's casts raise otherwise is not modelled.
- The service itself is modelled with complete DTOs. Null fields that reach it without passing through `@Valid` are not modelled.
- HTTP routing, status codes and the two exception handlers are not modelled. Failures from collaborators, which map to status 500, are not modelled either.
- The cache's 60-second time-to-live, its Redis key prefix and its JSON serialisation are not modelled: the cache is a plain map.
- The repository is not modelled as a separate component. It is the table map, with `existsByEmail` as exact string equality and `save` as the `Save` method.
- ModelMapper is modelled as a field-for-field copy.
- Salaries are integer cents, not Double values. Floating-point rounding and salaries with more than two fraction digits are not modelled.
- The Email syntax rule and the employee-role rule are parameters of validation. The role rule's source is not part of this model, and neither is its message. The rule is assumed to accept a null role, as the standard constraints do.
- EmployeeValidation.NameErrors and EmployeeValidation.Validate: a Dafny string is a sequence of Unicode scalar values, so a name containing an unpaired surrogate, which Java strings allow, cannot be expressed.
- NotBlank treats characters up to U+0020 as blank. Pattern's `\s` is the ASCII whitespace class. Unicode whitespace outside these is not modelled.
- Logging, the transaction manager's mechanics, and concurrent check-then-save races between requests are not modelled. Each call runs alone, and a failing call leaves the table unchanged.
- Application bootstrap, the data-source beans and the cache configuration class are not modelled.
