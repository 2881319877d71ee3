/**
 * The TypeORM repository of `employees`, reduced to what the services use:
 * `findOne` (the first row satisfying a condition), `find`, `update` of the
 * refresh-token column by id, and `save` of a new row.
 * Rows are kept in table order; ids come from a serial counter.
 */
module Repository {
  import opened Wrappers
  import opened Entities

  /** The position of the first row satisfying `p`. */
  function FirstIndex(rows: seq<Employee>, p: Employee -> bool): (r: Option<nat>)
    ensures r.Some? ==> r.value < |rows| && p(rows[r.value])
    ensures r.Some? ==> forall j :: 0 <= j < r.value ==> !p(rows[j])
    ensures r.None? ==> forall j :: 0 <= j < |rows| ==> !p(rows[j])
    decreases |rows|
  {
    if |rows| == 0 then None
    else if p(rows[0]) then Some(0)
    else match FirstIndex(rows[1..], p)
      case None => None
      case Some(k) => Some(k + 1)
  }

  /** A first match exists exactly when some stored row satisfies the condition. */
  lemma FirstIndexNone(rows: seq<Employee>, p: Employee -> bool)
    ensures FirstIndex(rows, p).None? <==> forall e :: e in rows ==> !p(e)
  {
    if FirstIndex(rows, p).None? {
      forall e | e in rows ensures !p(e) {
        var j :| 0 <= j < |rows| && rows[j] == e;
      }
    }
  }

  /** `findOne({ where })`: the first row satisfying the condition; nothing only when no row does. */
  function FindOne(rows: seq<Employee>, p: Employee -> bool): (r: Option<Employee>)
    ensures r.Some? ==> r.value in rows && p(r.value)
    ensures r.None? <==> forall e :: e in rows ==> !p(e)
  {
    FirstIndexNone(rows, p);
    match FirstIndex(rows, p)
    case None => None
    case Some(i) => Some(rows[i])
  }

  function FindById(rows: seq<Employee>, id: int): (r: Option<Employee>)
    ensures r.Some? ==> r.value in rows && r.value.id == id
    ensures r.None? <==> forall e :: e in rows ==> e.id != id
  {
    FindOne(rows, (e: Employee) => e.id == id)
  }

  function FindByEmail(rows: seq<Employee>, email: string): (r: Option<Employee>)
    ensures r.Some? ==> r.value in rows && r.value.email == email
    ensures r.None? <==> forall e :: e in rows ==> e.email != email
  {
    FindOne(rows, (e: Employee) => e.email == email)
  }

  /** `findOne({ where: [{ empId }, { email }] })`: a row matching either key. */
  function FindByEmpIdOrEmail(rows: seq<Employee>, empId: string, email: string): (r: Option<Employee>)
    ensures r.Some? ==> r.value in rows && (r.value.empId == empId || r.value.email == email)
    ensures r.None? <==> forall e :: e in rows ==> e.empId != empId && e.email != email
  {
    FindOne(rows, (e: Employee) => e.empId == empId || e.email == email)
  }

  /**
   * The table's integrity: ids are positive, below the serial counter and
   * increasing in table order; `empId` and `email` are unique.
   */
  predicate TableInvariant(rows: seq<Employee>, nextId: int) {
    && nextId >= 1
    && (forall i :: 0 <= i < |rows| ==> 1 <= rows[i].id < nextId)
    && (forall i, j :: 0 <= i < j < |rows| ==>
          rows[i].id < rows[j].id && rows[i].empId != rows[j].empId && rows[i].email != rows[j].email)
  }

  /** `UPDATE employees SET refresh_token = slot WHERE id = id`. */
  function SetRefreshToken(rows: seq<Employee>, id: int, slot: Option<string>): seq<Employee> {
    seq(|rows|, i requires 0 <= i < |rows| => if rows[i].id == id then rows[i].(refreshToken := slot) else rows[i])
  }

  /** Two row sequences on which two conditions agree position by position have the same first match. */
  lemma {:induction false} FirstIndexAgrees(a: seq<Employee>, p: Employee -> bool, b: seq<Employee>, q: Employee -> bool)
    requires |a| == |b|
    requires forall i :: 0 <= i < |a| ==> p(a[i]) == q(b[i])
    ensures FirstIndex(a, p) == FirstIndex(b, q)
    decreases |a|
  {
    if |a| > 0 && !p(a[0]) {
      FirstIndexAgrees(a[1..], p, b[1..], q);
    }
  }

  /** Updating one slot changes, for lookups by id, only that employee's slot. */
  lemma FindByIdAfterUpdate(rows: seq<Employee>, id: int, slot: Option<string>, other: int)
    ensures FindById(SetRefreshToken(rows, id, slot), other) ==
      match FindById(rows, other)
      case None => None
      case Some(e) => Some(if other == id then e.(refreshToken := slot) else e)
  {
    var rows' := SetRefreshToken(rows, id, slot);
    FirstIndexAgrees(rows, (e: Employee) => e.id == other, rows', (e: Employee) => e.id == other);
  }

  /** Updating a slot does not change which row a lookup by email finds, apart from that slot. */
  lemma FindByEmailAfterUpdate(rows: seq<Employee>, id: int, slot: Option<string>, email: string)
    ensures FindByEmail(SetRefreshToken(rows, id, slot), email) ==
      match FindByEmail(rows, email)
      case None => None
      case Some(e) => Some(if e.id == id then e.(refreshToken := slot) else e)
  {
    var rows' := SetRefreshToken(rows, id, slot);
    FirstIndexAgrees(rows, (e: Employee) => e.email == email, rows', (e: Employee) => e.email == email);
  }

  /** Clearing or replacing refresh-token slots keeps the table's integrity. */
  lemma UpdateKeepsInvariant(rows: seq<Employee>, nextId: int, id: int, slot: Option<string>)
    requires TableInvariant(rows, nextId)
    ensures TableInvariant(SetRefreshToken(rows, id, slot), nextId)
  {
  }

  /** Under the table's integrity a row is found by its own id and by its own email. */
  lemma {:induction false} UniqueRowFound(rows: seq<Employee>, nextId: int, e: Employee)
    requires TableInvariant(rows, nextId)
    requires e in rows
    ensures FindById(rows, e.id) == Some(e)
    ensures FindByEmail(rows, e.email) == Some(e)
  {
    var i :| 0 <= i < |rows| && rows[i] == e;
    var k := FirstIndex(rows, (x: Employee) => x.id == e.id);
    var m := FirstIndex(rows, (x: Employee) => x.email == e.email);
    assert k.Some? && k.value <= i;
    assert m.Some? && m.value <= i;
  }

  /** The `employees` table. */
  class EmployeeRepository {
    var rows: seq<Employee>
    var nextId: int

    ghost predicate Valid()
      reads this
    {
      TableInvariant(rows, nextId)
    }

    constructor ()
      ensures Valid() && rows == [] && nextId == 1
    {
      rows := [];
      nextId := 1;
    }

    /** `update(id, { refreshToken: slot })`; an id no row has changes nothing. */
    method Update(id: int, slot: Option<string>)
      requires Valid()
      modifies this
      ensures Valid()
      ensures rows == SetRefreshToken(old(rows), id, slot) && nextId == old(nextId)
    {
      UpdateKeepsInvariant(rows, nextId, id, slot);
      rows := SetRefreshToken(rows, id, slot);
    }

    /**
     * `save(entity)` of a new row: the database assigns the next serial id.
     * The caller has checked that neither unique key is taken, so the unique
     * constraints cannot fire here.
     */
    method Save(e: Employee) returns (saved: Employee)
      requires Valid()
      requires FindByEmpIdOrEmail(rows, e.empId, e.email).None?
      modifies this
      ensures Valid()
      ensures saved == e.(id := old(nextId))
      ensures rows == old(rows) + [saved] && nextId == old(nextId) + 1
    {
      saved := e.(id := nextId);
      rows := rows + [saved];
      nextId := nextId + 1;
    }
  }
}
