/**
 * User administration for one tenant: creating a user, updating a user's
 * name, role, status or password through a dynamically built `UPDATE`, and
 * soft-deleting a user, with a guard that keeps at least one active
 * administrator.
 */
module Users {
  import opened Wrappers
  import opened Js

  /** The answer of a route: an error status with its message, or the SQL run with its parameters. */
  datatype Response = Error(status: int, message: string) | Query(sql: string, values: seq<Value>)

  /** The stored user an update or delete applies to (`SELECT id, role, is_active`). */
  datatype CurrentUser = CurrentUser(role: Value, isActive: Value)

  /** The JSON body of an update; absent fields are `Undefined`. */
  datatype UpdateBody = UpdateBody(name: Value, role: Value, isActive: Value, password: Value)

  const Returning: string := " RETURNING id, email, name, role, is_active, created_at, updated_at"

  /** `["admin", "user"].includes(role)`. */
  predicate ValidRole(role: Value) {
    role == Str("admin") || role == Str("user")
  }

  /** The row values of an accepted create: email, stored name and role (the password hash is opaque). */
  datatype NewUser = NewUser(email: Value, name: Value, role: Value)

  /** `POST /`: email and password are required, the role defaults to `user` and must be valid, the name defaults to the email. */
  function CreateUser(email: Value, name: Value, password: Value, role: Value): (r: Result<NewUser, Response>)
    ensures r.Ok? ==> Truthy(email) && Truthy(password) && ValidRole(r.value.role) && r.value.email == email
  {
    var role' := if role == Undefined then Str("user") else role;
    if !Truthy(email) || !Truthy(password) then Err(Error(400, "Email and password are required"))
    else if !ValidRole(role') then Err(Error(400, "Invalid role"))
    else Ok(NewUser(email, if Truthy(name) then name else email, role'))
  }

  /** A created user has an email, a valid role (`user` when none was given) and the email as name when no name was given. */
  lemma {:induction false} CreateUserSpec(email: Value, name: Value, password: Value, role: Value)
    ensures var r := CreateUser(email, name, password, role);
            (r.Ok? <==> Truthy(email) && Truthy(password) && (role == Undefined || ValidRole(role)))
            && (r.Ok? ==> ValidRole(r.value.role) && r.value.email == email
                          && (role == Undefined ==> r.value.role == Str("user"))
                          && (!Truthy(name) ==> r.value.name == email)
                          && (Truthy(name) ==> r.value.name == name))
  {
  }

  /** `ensureNotLastAdmin`: the removal of an admin is refused when at most one active admin is counted. */
  predicate LastAdminRefused(removeAdmin: bool, activeAdminCount: int) {
    removeAdmin && activeAdminCount <= 1
  }

  /** Whenever the guard lets an admin removal through, another active admin remains. */
  lemma {:induction false} LastAdminGuardKeepsAnAdmin(removeAdmin: bool, activeAdminCount: int)
    ensures removeAdmin && !LastAdminRefused(removeAdmin, activeAdminCount) ==> activeAdminCount - 1 >= 1
    ensures !removeAdmin ==> !LastAdminRefused(removeAdmin, activeAdminCount)
  {
  }

  predicate IsActiveAdmin(u: CurrentUser) {
    u.role == Str("admin") && u.isActive == Bool(true)
  }

  /** The update's `removingAdmin`: an active admin given a truthy non-admin role, or `is_active === false`. */
  predicate RemovingAdminOnUpdate(current: CurrentUser, body: UpdateBody) {
    IsActiveAdmin(current) && ((Truthy(body.role) && body.role != Str("admin")) || body.isActive == Bool(false))
  }

  /** The delete's `removingAdmin`: the user is an active admin. */
  predicate RemovingAdminOnDelete(current: CurrentUser) {
    IsActiveAdmin(current)
  }

  /**
   * For a body whose role passed validation, an update removes an admin iff the
   * user is an active admin being demoted to `user` or deactivated with `false`.
   */
  lemma {:induction false} RemovingAdminCases(current: CurrentUser, body: UpdateBody)
    requires !Truthy(body.role) || ValidRole(body.role)
    ensures RemovingAdminOnUpdate(current, body)
        <==> IsActiveAdmin(current) && (body.role == Str("user") || body.isActive == Bool(false))
  {
  }

  /** A body with no stored fields other than a truthy `is_active` never removes an admin. */
  lemma {:induction false} ReactivationNeverRemovesAdmin(current: CurrentUser, body: UpdateBody)
    requires !Truthy(body.role) && body.isActive != Bool(false)
    ensures !RemovingAdminOnUpdate(current, body)
  {
  }

  /** The one-column list for a field that is present, the empty list otherwise. */
  function Column(present: bool, name: string, v: Value): seq<(string, Value)> {
    if present then [(name, v)] else []
  }

  function NameColumn(body: UpdateBody): seq<(string, Value)> {
    Column(body.name != Undefined, "name", if Truthy(body.name) then body.name else Null)
  }

  function RoleColumn(body: UpdateBody): seq<(string, Value)> {
    Column(body.role != Undefined, "role", body.role)
  }

  function ActiveColumn(body: UpdateBody): seq<(string, Value)> {
    Column(body.isActive != Undefined, "is_active", Bool(Truthy(body.isActive)))
  }

  function PasswordColumn(body: UpdateBody, hash: string): seq<(string, Value)> {
    Column(Truthy(body.password), "password_hash", Str(hash))
  }

  /**
   * The columns an update sets, in the order name, role, is_active,
   * password_hash, with the values stored: `name || null`, the role as given,
   * `!!is_active` and the password's hash.
   */
  function FieldsOf(body: UpdateBody, hash: string): seq<(string, Value)> {
    NameColumn(body) + RoleColumn(body) + ActiveColumn(body) + PasswordColumn(body, hash)
  }

  /** The values of the columns, in order. */
  function ColumnValues(fields: seq<(string, Value)>): (r: seq<Value>)
    ensures |r| == |fields|
    ensures forall i :: 0 <= i < |fields| ==> r[i] == fields[i].1
  {
    seq(|fields|, i requires 0 <= i < |fields| => fields[i].1)
  }

  /** `col = $n` for each column, numbering from `first`. */
  function SetClauses(fields: seq<(string, Value)>, first: nat): (r: seq<string>)
    ensures |r| == |fields|
    ensures forall i :: 0 <= i < |fields| ==> r[i] == fields[i].0 + " = $" + NatToString(first + i)
  {
    seq(|fields|, i requires 0 <= i < |fields| => fields[i].0 + " = $" + NatToString(first + i))
  }

  lemma {:induction false} SetClausesSnoc(fields: seq<(string, Value)>, f: (string, Value), first: nat)
    ensures SetClauses(fields + [f], first) == SetClauses(fields, first) + [f.0 + " = $" + NatToString(first + |fields|)]
  {
  }

  /** The SET list and the parameters so far describe `fields`, numbered from `first`. */
  predicate Built(updates: seq<string>, values: seq<Value>, fields: seq<(string, Value)>, first: nat) {
    updates == ["updated_at = NOW()"] + SetClauses(fields, first) && values == ColumnValues(fields)
  }

  /** Pushing a present column (numbered after the columns so far) keeps the description. */
  lemma {:induction false} PushColumn(updates: seq<string>, values: seq<Value>, fields: seq<(string, Value)>, first: nat, col: seq<(string, Value)>)
    requires Built(updates, values, fields, first) && |col| <= 1
    ensures col == [] ==> Built(updates, values, fields + col, first)
    ensures col != [] ==> Built(updates + [col[0].0 + " = $" + NatToString(first + |fields|)], values + [col[0].1], fields + col, first)
  {
    if col == [] {
      assert fields + col == fields;
    } else {
      SetClausesSnoc(fields, col[0], first);
      assert col == [col[0]];
    }
  }

  /** The statement text the builder assembles from its SET list. */
  lemma {:induction false} BuiltSql(updates: seq<string>, values: seq<Value>, fields: seq<(string, Value)>, first: nat)
    requires Built(updates, values, fields, first)
    ensures |updates| == |fields| + 1 && |values| == |fields|
    ensures "UPDATE users SET " + Join(updates, ", ") + " WHERE id = $" + NatToString(first + |fields|)
            + " AND tenant_id = $" + NatToString(first + |fields| + 1) + Returning == UpdateSql(fields, first)
  {
  }

  /**
   * The statement whose SET columns are numbered from `first`; the `WHERE`
   * takes the two numbers after the last column.
   */
  function UpdateSql(fields: seq<(string, Value)>, first: nat): string {
    "UPDATE users SET " + Join(["updated_at = NOW()"] + SetClauses(fields, first), ", ")
    + " WHERE id = $" + NatToString(first + |fields|)
    + " AND tenant_id = $" + NatToString(first + |fields| + 1) + Returning
  }

  /**
   * Placeholder `$n` of the statement numbered from `first` reads parameter
   * `n`: every column's placeholder names its own value, the id's the user
   * id and the tenant's the tenant.
   */
  predicate Binds(fields: seq<(string, Value)>, first: nat, values: seq<Value>, userId: int, tenant: string) {
    1 <= first
    && (forall i :: 0 <= i < |fields| ==> first + i <= |values| && values[first + i - 1] == fields[i].1)
    && first + |fields| <= |values| && values[first + |fields| - 1] == Num(userId)
    && first + |fields| + 1 <= |values| && values[first + |fields|] == Str(tenant)
  }

  /**
   * `if (present) { updates.push(`${column} = $${n}`); values.push(v); }`:
   * with `n` the number after the columns so far, the pushed column extends
   * the description by `Column(present, column, v)`.
   */
  method PushColumnIf(present: bool, column: string, v: Value, n: nat, updates: seq<string>, values: seq<Value>,
                      ghost fields: seq<(string, Value)>, ghost first: nat)
    returns (updates': seq<string>, values': seq<Value>)
    requires Built(updates, values, fields, first) && |updates| == |fields| + 1 && |values| == |fields|
    requires n == first + |fields|
    ensures Built(updates', values', fields + Column(present, column, v), first)
    ensures |updates'| == |fields + Column(present, column, v)| + 1 && |values'| == |fields + Column(present, column, v)|
  {
    updates', values' := updates, values;
    PushColumn(updates, values, fields, first, Column(present, column, v));
    if present {
      updates' := updates' + [column + " = $" + NatToString(n)];
      values' := values' + [v];
    }
  }

  /**
   * The end of the builder: refuse a SET list with only `updated_at`, else
   * the statement whose `WHERE` reads placeholders `idNumber` and
   * `idNumber + 1`, with the user id and the tenant pushed after the values.
   */
  method FinishUpdate(updates: seq<string>, values: seq<Value>, idNumber: nat, userId: int, tenant: string,
                      ghost fields: seq<(string, Value)>, ghost first: nat)
    returns (res: Response)
    requires Built(updates, values, fields, first) && idNumber == first + |fields|
    ensures fields == [] ==> res == Error(400, "No changes provided")
    ensures fields != [] ==> res == Query(UpdateSql(fields, first), ColumnValues(fields) + [Num(userId), Str(tenant)])
  {
    assert |updates| == |fields| + 1 && values == ColumnValues(fields) by {
      BuiltSql(updates, values, fields, first);
    }
    if |updates| == 1 {
      return Error(400, "No changes provided");
    }
    var sql := "UPDATE users SET " + Join(updates, ", ") + " WHERE id = $" + NatToString(idNumber)
               + " AND tenant_id = $" + NatToString(idNumber + 1) + Returning;
    assert sql == UpdateSql(fields, first) by {
      BuiltSql(updates, values, fields, first);
    }
    var params := values + [Num(userId), Str(tenant)];
    res := Query(sql, params);
  }

  /**
   * The SET builder as written: each clause is numbered `updates.length + 1`
   * before the push, while `values` starts empty.
   */
  method BuildUpdateAsWritten(body: UpdateBody, hash: string, userId: int, tenant: string) returns (res: Response)
    ensures FieldsOf(body, hash) == [] ==> res == Error(400, "No changes provided")
    ensures FieldsOf(body, hash) != [] ==>
      res == Query(UpdateSql(FieldsOf(body, hash), 2), ColumnValues(FieldsOf(body, hash)) + [Num(userId), Str(tenant)])
  {
    var updates: seq<string> := ["updated_at = NOW()"];
    var values: seq<Value> := [];
    ghost var fields: seq<(string, Value)> := [];
    updates, values := PushColumnIf(body.name != Undefined, "name", if Truthy(body.name) then body.name else Null,
                                    |updates| + 1, updates, values, fields, 2);
    assert fields + NameColumn(body) == NameColumn(body);
    fields := NameColumn(body);
    updates, values := PushColumnIf(body.role != Undefined, "role", body.role, |updates| + 1, updates, values, fields, 2);
    fields := fields + RoleColumn(body);
    updates, values := PushColumnIf(body.isActive != Undefined, "is_active", Bool(Truthy(body.isActive)),
                                    |updates| + 1, updates, values, fields, 2);
    fields := fields + ActiveColumn(body);
    updates, values := PushColumnIf(Truthy(body.password), "password_hash", Str(hash), |updates| + 1, updates, values, fields, 2);
    fields := fields + PasswordColumn(body, hash);
    res := FinishUpdate(updates, values, |updates| + 1, userId, tenant, fields, 2);
  }

  /**
   * The statement as written never binds: its last placeholder is one past the
   * parameters, and the first column reads the parameter meant for the next.
   */
  lemma {:induction false} AsWrittenDoesNotBind(body: UpdateBody, hash: string, userId: int, tenant: string)
    requires FieldsOf(body, hash) != []
    ensures var fields := FieldsOf(body, hash);
            var values := ColumnValues(fields) + [Num(userId), Str(tenant)];
            !Binds(fields, 2, values, userId, tenant) && 2 + |fields| + 1 > |values|
  {
  }

  /**
   * A name-only update: the SET list is `updated_at = NOW(), name = $2`, the
   * `WHERE` reads `$3` and `$4`, and only three parameters are passed.
   */
  lemma {:induction false} AsWrittenNameOnly(userId: int, tenant: string)
    ensures var body := UpdateBody(Str("Ann"), Undefined, Undefined, Undefined);
            var fields := FieldsOf(body, "");
            fields == [("name", Str("Ann"))]
            && UpdateSql(fields, 2) == "UPDATE users SET " + Join(["updated_at = NOW()"] + ["name = $2"], ", ")
                                       + " WHERE id = $" + "3" + " AND tenant_id = $" + "4" + Returning
            && |ColumnValues(fields) + [Num(userId), Str(tenant)]| == 3
  {
    var body := UpdateBody(Str("Ann"), Undefined, Undefined, Undefined);
    var fields := [("name", Str("Ann"))];
    assert FieldsOf(body, "") == fields;
    assert SetClauses(fields, 2) == ["name = $2"] by {
      assert NatToString(2) == "2";
      assert "name" + " = $" + "2" == "name = $2";
    }
    assert NatToString(2 + |fields|) == "3" && NatToString(2 + |fields| + 1) == "4";
  }

  /** The SET builder numbered from the parameters pushed so far (`values.length + 1`). */
  method BuildUpdate(body: UpdateBody, hash: string, userId: int, tenant: string) returns (res: Response)
    ensures FieldsOf(body, hash) == [] ==> res == Error(400, "No changes provided")
    ensures FieldsOf(body, hash) != [] ==>
      res == Query(UpdateSql(FieldsOf(body, hash), 1), ColumnValues(FieldsOf(body, hash)) + [Num(userId), Str(tenant)])
  {
    var updates: seq<string> := ["updated_at = NOW()"];
    var values: seq<Value> := [];
    ghost var fields: seq<(string, Value)> := [];
    updates, values := PushColumnIf(body.name != Undefined, "name", if Truthy(body.name) then body.name else Null,
                                    |values| + 1, updates, values, fields, 1);
    assert fields + NameColumn(body) == NameColumn(body);
    fields := NameColumn(body);
    updates, values := PushColumnIf(body.role != Undefined, "role", body.role, |values| + 1, updates, values, fields, 1);
    fields := fields + RoleColumn(body);
    updates, values := PushColumnIf(body.isActive != Undefined, "is_active", Bool(Truthy(body.isActive)),
                                    |values| + 1, updates, values, fields, 1);
    fields := fields + ActiveColumn(body);
    updates, values := PushColumnIf(Truthy(body.password), "password_hash", Str(hash), |values| + 1, updates, values, fields, 1);
    fields := fields + PasswordColumn(body, hash);
    res := FinishUpdate(updates, values, |values| + 1, userId, tenant, fields, 1);
  }

  /** Numbered from 1, every placeholder reads exactly the parameter meant for it. */
  lemma {:induction false} CorrectedBinds(body: UpdateBody, hash: string, userId: int, tenant: string)
    ensures var fields := FieldsOf(body, hash);
            Binds(fields, 1, ColumnValues(fields) + [Num(userId), Str(tenant)], userId, tenant)
  {
  }

  /** The columns set are exactly those given, in the order name, role, is_active, password_hash. */
  lemma {:induction false} FieldsOrder(body: UpdateBody, hash: string)
    ensures var cols := seq(|FieldsOf(body, hash)|, i requires 0 <= i < |FieldsOf(body, hash)| => FieldsOf(body, hash)[i].0);
            cols == (if body.name != Undefined then ["name"] else [])
                    + (if body.role != Undefined then ["role"] else [])
                    + (if body.isActive != Undefined then ["is_active"] else [])
                    + (if Truthy(body.password) then ["password_hash"] else [])
    ensures FieldsOf(body, hash) == [] <==>
            body.name == Undefined && body.role == Undefined && body.isActive == Undefined && !Truthy(body.password)
  {
  }

  /**
   * `PUT /:id` with the corrected builder: role validation, the user lookup,
   * the last-admin guard, then the `UPDATE`. `current` is the looked-up user,
   * `activeAdminCount` the tenant's active admins and `hash` the password's hash.
   */
  method PutUser(body: UpdateBody, userId: int, tenant: string, current: Option<CurrentUser>, activeAdminCount: int, hash: string)
    returns (res: Response)
    ensures Truthy(body.role) && !ValidRole(body.role) ==> res == Error(400, "Invalid role")
    ensures (!Truthy(body.role) || ValidRole(body.role)) && current.None? ==> res == Error(404, "User not found")
    ensures (!Truthy(body.role) || ValidRole(body.role)) && current.Some?
            && LastAdminRefused(RemovingAdminOnUpdate(current.value, body), activeAdminCount)
            ==> res == Error(400, "Cannot remove the last active admin")
    ensures (!Truthy(body.role) || ValidRole(body.role)) && current.Some?
            && !LastAdminRefused(RemovingAdminOnUpdate(current.value, body), activeAdminCount)
            ==> (FieldsOf(body, hash) == [] ==> res == Error(400, "No changes provided"))
                && (FieldsOf(body, hash) != [] ==> res.Query? && res.sql == UpdateSql(FieldsOf(body, hash), 1))
    ensures res.Query? ==>
            var fields := FieldsOf(body, hash);
            fields != [] && current.Some?
            && !LastAdminRefused(RemovingAdminOnUpdate(current.value, body), activeAdminCount)
            && res.sql == UpdateSql(fields, 1)
            && Binds(fields, 1, res.values, userId, tenant)
  {
    if Truthy(body.role) && !ValidRole(body.role) {
      return Error(400, "Invalid role");
    }
    if current.None? {
      return Error(404, "User not found");
    }
    var removingAdmin := RemovingAdminOnUpdate(current.value, body);
    if LastAdminRefused(removingAdmin, activeAdminCount) {
      return Error(400, "Cannot remove the last active admin");
    }
    res := BuildUpdate(body, hash, userId, tenant);
    CorrectedBinds(body, hash, userId, tenant);
  }

  /** The soft delete: the user is deactivated rather than removed. */
  const SoftDeleteSql: string := "UPDATE users SET is_active = false, updated_at = NOW() WHERE id = $1 AND tenant_id = $2" + Returning

  /** `DELETE /:id`: a soft delete, refused for the last active admin. */
  function DeleteUser(userId: int, tenant: string, current: Option<CurrentUser>, activeAdminCount: int): (r: Response)
    ensures r.Query? ==> current.Some? && r.values == [Num(userId), Str(tenant)]
  {
    match current
    case None => Error(404, "User not found")
    case Some(u) =>
      if LastAdminRefused(RemovingAdminOnDelete(u), activeAdminCount) then Error(400, "Cannot remove the last active admin")
      else Query(SoftDeleteSql, [Num(userId), Str(tenant)])
  }

  /** Deleting anyone but an active admin always goes through; an active admin only while another one is active. */
  lemma {:induction false} DeleteUserSpec(userId: int, tenant: string, current: Option<CurrentUser>, activeAdminCount: int)
    ensures var r := DeleteUser(userId, tenant, current, activeAdminCount);
            (current.None? <==> r == Error(404, "User not found"))
            && (current.Some? ==> (r.Query? <==> !IsActiveAdmin(current.value) || activeAdminCount >= 2))
            && (r.Query? ==> r.values == [Num(userId), Str(tenant)])
  {
  }
}
