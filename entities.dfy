/**
 * The `employees` row, the response the API serialises for it, and the token
 * response of the auth endpoints. Creation and update timestamps, which the
 * database fills in, are not part of the model.
 */
module Entities {
  import opened Wrappers

  /** One row of `employees`; `None` is a NULL column. `password` and `refreshToken` hold bcrypt digests. */
  datatype Employee = Employee(
    id: int,
    empId: string,
    name: string,
    email: string,
    phone: Option<string>,
    personalMobileNumber: string,
    personalEmail: Option<string>,
    password: string,
    gender: string,
    religion: string,
    dob: string,
    designation: string,
    department: string,
    image: Option<string>,
    isActive: bool,
    refreshToken: Option<string>)

  /**
   * The serialised EmployeeResponseDto: every column except `password`, which is
   * the only field marked for exclusion. The stored refresh-token digest is NOT excluded.
   */
  datatype EmployeeResponse = EmployeeResponse(
    id: int,
    empId: string,
    name: string,
    email: string,
    phone: Option<string>,
    personalMobileNumber: string,
    personalEmail: Option<string>,
    gender: string,
    religion: string,
    dob: string,
    designation: string,
    department: string,
    image: Option<string>,
    isActive: bool,
    refreshToken: Option<string>)

  /** `new EmployeeResponseDto(employee)` as serialised: every column copied except the password. */
  function ToResponse(e: Employee): (r: EmployeeResponse)
    ensures r.id == e.id && r.empId == e.empId && r.name == e.name && r.email == e.email
    ensures r.phone == e.phone && r.personalMobileNumber == e.personalMobileNumber && r.personalEmail == e.personalEmail
    ensures r.gender == e.gender && r.religion == e.religion && r.dob == e.dob
    ensures r.designation == e.designation && r.department == e.department && r.image == e.image
    ensures r.isActive == e.isActive && r.refreshToken == e.refreshToken
  {
    EmployeeResponse(e.id, e.empId, e.name, e.email, e.phone, e.personalMobileNumber,
      e.personalEmail, e.gender, e.religion, e.dob, e.designation, e.department,
      e.image, e.isActive, e.refreshToken)
  }

  /** The response never depends on the password digest, and it is the only column it drops. */
  lemma ResponseOmitsOnlyPassword(e: Employee, f: Employee)
    ensures ToResponse(e) == ToResponse(f) <==> e == f.(password := e.password)
  {
  }

  datatype AuthResponse = AuthResponse(
    accessToken: string,
    refreshToken: string,
    employee: EmployeeResponse,
    expiresIn: int)
}
