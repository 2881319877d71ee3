/**
 * EmployeeService: creating an employee (uniqueness conflicts, password
 * hashing, error mapping) and reading employees back.
 */
module Employees {
  import opened Wrappers
  import opened Entities
  import opened Repository
  import opened HttpErrors
  import opened Crypto
  import opened Validation

  const EMP_ID_EXISTS: string := "Employee ID already exists"
  const EMAIL_EXISTS: string := "Email already exists"
  const CREATE_FAILED: string := "Failed to create employee"
  const NOT_FOUND: string := "Employee not found"

  /**
   * Where a failure that is not a conflict strikes during `create`: the lookup,
   * or the hashing and the save after it. Either becomes a 500.
   */
  datatype StoreFault = NoFault | LookupFault | WriteFault

  /** `create`'s result and the table and serial counter after it. */
  datatype Creation = Creation(result: Result<EmployeeResponse, HttpError>, rows: seq<Employee>, nextId: int)

  /**
   * The entity built from the DTO: every DTO field copied, the password
   * replaced by its digest, `isActive` defaulting to true, no session.
   */
  function NewEmployee(dto: CreateEmployeeDto, passwordDigest: string, id: int): (e: Employee)
    ensures e.id == id && e.password == passwordDigest && e.refreshToken.None?
    ensures e.isActive <==> dto.isActive != Some(false)
    ensures e.empId == dto.empId && e.name == dto.name && e.email == dto.email && e.phone == dto.phone
    ensures e.personalMobileNumber == dto.personalMobileNumber && e.personalEmail == dto.personalEmail
    ensures e.gender == dto.gender && e.religion == dto.religion && e.dob == dto.dob
    ensures e.designation == dto.designation && e.department == dto.department && e.image == dto.image
  {
    Employee(id, dto.empId, dto.name, dto.email, dto.phone, dto.personalMobileNumber,
      dto.personalEmail, passwordDigest, dto.gender, dto.religion, dto.dob,
      dto.designation, dto.department, dto.image, dto.isActive.GetOr(true), None)
  }

  /**
   * `create(dto)`. The found row is checked for the same empId before the same
   * email; any conflict or failure saves nothing; otherwise exactly one row is
   * appended, holding the digest of the password.
   */
  function CreateOutcome(bcrypt: Bcrypt, rows: seq<Employee>, nextId: int, dto: CreateEmployeeDto, salt: nat, fault: StoreFault): (c: Creation)
    ensures c.result.Failure? ==> c.rows == rows && c.nextId == nextId
    ensures c.result.Failure? ==> c.result.error in {
      Conflict(EMP_ID_EXISTS), Conflict(EMAIL_EXISTS), InternalServerError(CREATE_FAILED)}
    ensures fault.LookupFault? ==> c.result == Failure(InternalServerError(CREATE_FAILED))
    ensures !fault.LookupFault? && FindByEmpIdOrEmail(rows, dto.empId, dto.email).Some? ==>
      c.result == Failure(Conflict(
        if FindByEmpIdOrEmail(rows, dto.empId, dto.email).value.empId == dto.empId then EMP_ID_EXISTS else EMAIL_EXISTS))
    ensures fault.WriteFault? && FindByEmpIdOrEmail(rows, dto.empId, dto.email).None? ==>
      c.result == Failure(InternalServerError(CREATE_FAILED))
    ensures !fault.LookupFault? && (exists e :: e in rows && (e.empId == dto.empId || e.email == dto.email)) ==>
      c.result.Failure? && c.result.error.status == 409
    ensures c.result.Success? ==> fault.NoFault? && forall e :: e in rows ==> e.empId != dto.empId && e.email != dto.email
    ensures fault.NoFault? && (forall e :: e in rows ==> e.empId != dto.empId && e.email != dto.email) ==> c.result.Success?
    ensures c.result.Success? ==>
      var saved := NewEmployee(dto, bcrypt.hash(dto.password, salt), nextId);
      c.rows == rows + [saved] && c.nextId == nextId + 1 && c.result.value == ToResponse(saved)
  {
    if fault.LookupFault? then Creation(Failure(InternalServerError(CREATE_FAILED)), rows, nextId)
    else match FindByEmpIdOrEmail(rows, dto.empId, dto.email)
      case Some(existing) =>
        if existing.empId == dto.empId then Creation(Failure(Conflict(EMP_ID_EXISTS)), rows, nextId)
        else Creation(Failure(Conflict(EMAIL_EXISTS)), rows, nextId)
      case None =>
        if fault.WriteFault? then Creation(Failure(InternalServerError(CREATE_FAILED)), rows, nextId)
        else
          var saved := NewEmployee(dto, bcrypt.hash(dto.password, salt), nextId);
          Creation(Success(ToResponse(saved)), rows + [saved], nextId + 1)
  }

  /** The first match of `p` in `rows + [x]` is at the end when no earlier row matches. */
  lemma FirstIndexAtEnd(rows: seq<Employee>, x: Employee, p: Employee -> bool)
    requires forall e :: e in rows ==> !p(e)
    requires p(x)
    ensures FirstIndex(rows + [x], p) == Some(|rows|)
  {
    var k := FirstIndex(rows + [x], p);
    assert (rows + [x])[|rows|] == x;
  }

  /** Creating the same employee twice: the second attempt is a 409 about the empId and saves nothing. */
  lemma CreateTwiceConflicts(bcrypt: Bcrypt, rows: seq<Employee>, nextId: int, dto: CreateEmployeeDto, salt: nat, salt2: nat, fault: StoreFault)
    requires CreateOutcome(bcrypt, rows, nextId, dto, salt, NoFault).result.Success?
    requires !fault.LookupFault?
    ensures var first := CreateOutcome(bcrypt, rows, nextId, dto, salt, NoFault);
      CreateOutcome(bcrypt, first.rows, first.nextId, dto, salt2, fault) == Creation(Failure(Conflict(EMP_ID_EXISTS)), first.rows, first.nextId)
  {
    var first := CreateOutcome(bcrypt, rows, nextId, dto, salt, NoFault);
    var saved := NewEmployee(dto, bcrypt.hash(dto.password, salt), nextId);
    FirstIndexAtEnd(rows, saved, (e: Employee) => e.empId == dto.empId || e.email == dto.email);
    assert FindByEmpIdOrEmail(first.rows, dto.empId, dto.email) == Some(saved);
  }

  /**
   * The message names the key the FIRST matching row shares: when that row
   * shares only the email, the answer is "Email already exists" even if a
   * later row holds the same empId.
   */
  lemma ConflictMessageFollowsFirstMatch(bcrypt: Bcrypt, rows: seq<Employee>, nextId: int, dto: CreateEmployeeDto, salt: nat, i: nat, j: nat)
    requires i < j < |rows|
    requires forall k :: 0 <= k < i ==> rows[k].empId != dto.empId && rows[k].email != dto.email
    requires rows[i].email == dto.email && rows[i].empId != dto.empId
    requires rows[j].empId == dto.empId
    ensures CreateOutcome(bcrypt, rows, nextId, dto, salt, NoFault).result == Failure(Conflict(EMAIL_EXISTS))
  {
    var k := FirstIndex(rows, (e: Employee) => e.empId == dto.empId || e.email == dto.email);
    assert k == Some(i);
  }

  /** A successful creation keeps ids increasing and empId and email unique. */
  lemma CreateKeepsInvariant(bcrypt: Bcrypt, rows: seq<Employee>, nextId: int, dto: CreateEmployeeDto, salt: nat, fault: StoreFault)
    requires TableInvariant(rows, nextId)
    ensures var c := CreateOutcome(bcrypt, rows, nextId, dto, salt, fault); TableInvariant(c.rows, c.nextId)
  {
    var c := CreateOutcome(bcrypt, rows, nextId, dto, salt, fault);
    if c.result.Success? {
      forall i | 0 <= i < |rows|
        ensures rows[i].empId != dto.empId && rows[i].email != dto.email
      {
        assert rows[i] in rows;
      }
    }
  }

  class EmployeeService {
    const repo: EmployeeRepository
    const bcrypt: Bcrypt

    constructor (repo: EmployeeRepository, bcrypt: Bcrypt)
      ensures this.repo == repo && this.bcrypt == bcrypt
    {
      this.repo := repo;
      this.bcrypt := bcrypt;
    }

    method Create(dto: CreateEmployeeDto, salt: nat, fault: StoreFault) returns (r: Result<EmployeeResponse, HttpError>)
      requires repo.Valid()
      modifies repo
      ensures repo.Valid()
      ensures Creation(r, repo.rows, repo.nextId) == CreateOutcome(bcrypt, old(repo.rows), old(repo.nextId), dto, salt, fault)
    {
      if fault.LookupFault? {
        return Failure(InternalServerError(CREATE_FAILED));
      }
      var existingEmployee := FindByEmpIdOrEmail(repo.rows, dto.empId, dto.email);
      if existingEmployee.Some? {
        if existingEmployee.value.empId == dto.empId {
          return Failure(Conflict(EMP_ID_EXISTS));
        }
        assert existingEmployee.value.email == dto.email;
        return Failure(Conflict(EMAIL_EXISTS));
      }
      if fault.WriteFault? {
        return Failure(InternalServerError(CREATE_FAILED));
      }
      var hashedPassword := bcrypt.hash(dto.password, salt);
      var employee := NewEmployee(dto, hashedPassword, 0);
      var savedEmployee := repo.Save(employee);
      r := Success(ToResponse(savedEmployee));
    }

    /** `findAll()`: one response per stored row, in table order. */
    method FindAll() returns (rs: seq<EmployeeResponse>)
      ensures |rs| == |repo.rows|
      ensures forall i :: 0 <= i < |rs| ==> rs[i] == ToResponse(repo.rows[i])
    {
      var employees := repo.rows;
      rs := seq(|employees|, i requires 0 <= i < |employees| => ToResponse(employees[i]));
    }

    /** `findOne(id)`: a missing id is a 409 (not a 404); otherwise the stored row with that id. */
    method FindOne(id: int) returns (r: Result<EmployeeResponse, HttpError>)
      ensures r.Failure? <==> forall e :: e in repo.rows ==> e.id != id
      ensures r.Failure? ==> r.error == Conflict(NOT_FOUND)
      ensures r.Success? ==> exists e :: e in repo.rows && e.id == id && r.value == ToResponse(e)
    {
      var employee := FindById(repo.rows, id);
      if employee.None? {
        return Failure(Conflict(NOT_FOUND));
      }
      r := Success(ToResponse(employee.value));
    }
  }
}
