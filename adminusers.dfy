/**
 * The administrator's user list: one form creates a user or edits the user
 * chosen from the list, with the password checked before anything is sent;
 * the list is patched with what the server returns instead of being reloaded.
 */
module AdminUsers {
  import opened Wrappers
  import opened Js

  /** `"admin" | "user"`. */
  datatype Role = Admin | Member

  /** A user as the server returns it; the name may be null. */
  datatype User = User(id: int, email: string, name: Option<string>, role: Role, isActive: bool)

  datatype FormState = FormState(
    email: string,
    name: string,
    role: Role,
    password: string,
    confirmPassword: string,
    isActive: bool)

  /** The page's state: the list, the form, the user being edited, the error shown, whether a save is running. */
  datatype Page = Page(users: seq<User>, form: FormState, editing: Option<User>, error: Option<string>, saving: bool)

  /** A request the page sends. */
  datatype Request = Request(verb: string, path: string, payload: Obj)

  const EmptyForm := FormState("", "", Member, "", "", true)

  const PasswordRequired := "Password is required for new users"
  const PasswordsDiffer := "Passwords do not match"

  function RoleText(r: Role): string {
    if r == Admin then "admin" else "user"
  }

  /** `err?.response?.data?.error || fallback`: the server's message, or the fallback when it sent none. */
  function ErrorText(serverError: string, fallback: string): string {
    if serverError != "" then serverError else fallback
  }

  /** `resetForm`: the empty form and no user being edited. */
  function ResetForm(p: Page): Page {
    p.(form := EmptyForm, editing := None)
  }

  /** The body of an update: name, role and activity, and the password only when one was typed. */
  function UpdatePayload(f: FormState): (o: Obj)
    ensures Keys(o) == ["name", "role", "is_active"] + (if f.password != "" then ["password"] else [])
    ensures Get(o, "name") == Str(f.name) && Get(o, "role") == Str(RoleText(f.role))
    ensures Get(o, "is_active") == Bool(f.isActive)
    ensures f.password != "" ==> Get(o, "password") == Str(f.password)
    ensures UniqueKeys(o)
  {
    var base := UpdateFields(f);
    if f.password != "" then
      PutSpec(base, "password", Str(f.password));
      Put(base, "password", Str(f.password))
    else base
  }

  /** The three fields every update sends. */
  function UpdateFields(f: FormState): (base: Obj)
    ensures Keys(base) == ["name", "role", "is_active"] && !HasKey(base, "password")
    ensures Get(base, "name") == Str(f.name) && Get(base, "role") == Str(RoleText(f.role))
    ensures Get(base, "is_active") == Bool(f.isActive)
    ensures UniqueKeys(base)
  {
    var base := [("name", Str(f.name)), ("role", Str(RoleText(f.role))), ("is_active", Bool(f.isActive))];
    assert Keys(base) == ["name", "role", "is_active"];
    assert "name" != "role" by { assert "name"[0] != "role"[0]; }
    assert "name" != "is_active" && "role" != "is_active" by {
      assert |"name"| != |"is_active"| && |"role"| != |"is_active"|;
    }
    assert Get(base, "role") == Get(base[1..], "role");
    assert Get(base, "is_active") == Get(base[1..], "is_active") == Get(base[1..][1..], "is_active");
    base
  }

  /** The body of a creation: exactly email, name, role and password, in that order. */
  function CreatePayload(f: FormState): (o: Obj)
    ensures Keys(o) == ["email", "name", "role", "password"]
    ensures Get(o, "email") == Str(f.email) && Get(o, "name") == Str(f.name)
    ensures Get(o, "role") == Str(RoleText(f.role)) && Get(o, "password") == Str(f.password)
  {
    var o := [("email", Str(f.email)), ("name", Str(f.name)), ("role", Str(RoleText(f.role))), ("password", Str(f.password))];
    assert Keys(o) == ["email", "name", "role", "password"];
    assert "email" != "name" && "email" != "role" by { assert |"email"| != |"name"| && |"email"| != |"role"|; }
    assert "name" != "role" by { assert "name"[0] != "role"[0]; }
    assert Get(o, "name") == Get(o[1..], "name");
    assert Get(o, "role") == Get(o[1..], "role") == Get(o[2..], "role");
    assert Get(o, "password") == Str(f.password) by {
      assert "email" != "password" && "name" != "password" && "role" != "password" by {
        assert |"email"| != |"password"| && |"name"| != |"password"| && |"role"| != |"password"|;
      }
      assert Get(o, "password") == Get(o[1..], "password") == Get(o[2..], "password") == Get(o[3..], "password");
    }
    o
  }

  /**
   * What submitting the form sends, or the message it stops with: a new
   * user needs a password, and a typed password must match its
   * confirmation.
   */
  function SubmitRequest(p: Page): (r: Result<Request, string>)
    ensures r.Err? <==> (p.editing.None? && p.form.password == "")
                        || (p.form.password != "" && p.form.password != p.form.confirmPassword)
    ensures r.Err? ==> r.error == if p.editing.None? && p.form.password == "" then PasswordRequired else PasswordsDiffer
    ensures r.Ok? && p.editing.Some? ==>
              r.value.verb == "PUT" && r.value.path == "/admin/users/" + IntToString(p.editing.value.id)
              && r.value.payload == UpdatePayload(p.form)
              && (HasKey(r.value.payload, "password") <==> p.form.password != "")
    ensures r.Ok? && p.editing.None? ==>
              r.value.verb == "POST" && r.value.path == "/admin/users" && r.value.payload == CreatePayload(p.form)
              && Get(r.value.payload, "password") == Str(p.form.password)
              && p.form.password != "" && p.form.password == p.form.confirmPassword
  {
    if p.editing.None? && p.form.password == "" then Err(PasswordRequired)
    else if p.form.password != "" && p.form.password != p.form.confirmPassword then Err(PasswordsDiffer)
    else if p.editing.Some? then
      Ok(Request("PUT", "/admin/users/" + IntToString(p.editing.value.id), UpdatePayload(p.form)))
    else
      Ok(Request("POST", "/admin/users", CreatePayload(p.form)))
  }

  /** `users.map(u => u.id === data.id ? data : u)`. */
  function ReplaceById(users: seq<User>, data: User): (r: seq<User>)
    ensures |r| == |users|
  {
    seq(|users|, i requires 0 <= i < |users| => if users[i].id == data.id then data else users[i])
  }

  predicate UniqueIds(users: seq<User>) {
    forall i, j :: 0 <= i < j < |users| ==> users[i].id != users[j].id
  }

  /**
   * With distinct ids, the returned user takes the place of the one with its
   * id and every other entry stays; with an unknown id nothing changes.
   */
  lemma {:induction false} ReplaceByIdSpec(users: seq<User>, data: User)
    requires UniqueIds(users)
    ensures forall k :: 0 <= k < |users| && users[k].id == data.id ==> ReplaceById(users, data) == users[k := data]
    ensures (forall k :: 0 <= k < |users| ==> users[k].id != data.id) ==> ReplaceById(users, data) == users
    ensures UniqueIds(ReplaceById(users, data))
  {
    var r := ReplaceById(users, data);
    forall k | 0 <= k < |users| && users[k].id == data.id ensures r == users[k := data] {
      forall i | 0 <= i < |users| ensures r[i] == users[k := data][i] {
        if i != k {
          assert users[i].id != users[k].id;
        }
      }
    }
    forall i, j | 0 <= i < j < |r| ensures r[i].id != r[j].id {
      assert users[i].id != users[j].id;
    }
  }

  /**
   * `handleSubmit`, given the server's reply to the request it sends: a
   * refused form only shows its message; a saved user patches the list (in
   * place for an update, at the end for a creation) and resets the form; a
   * failed request shows the server's message and keeps the form.
   */
  function HandleSubmit(p: Page, reply: Result<User, string>): (r: Page)
    ensures SubmitRequest(p).Err? ==> r == p.(error := Some(SubmitRequest(p).error))
    ensures SubmitRequest(p).Ok? && reply.Ok? ==>
              r.error == None && !r.saving && r.form == EmptyForm && r.editing == None
              && r.users == if p.editing.Some? then ReplaceById(p.users, reply.value) else p.users + [reply.value]
    ensures SubmitRequest(p).Ok? && reply.Err? ==>
              r == p.(error := Some(ErrorText(reply.error, "Failed to save user")), saving := false)
  {
    var cleared := p.(error := None);
    match SubmitRequest(p)
    case Err(message) => cleared.(error := Some(message))
    case Ok(_) =>
      var sending := cleared.(saving := true);
      var done :=
        match reply
        case Ok(data) =>
          var users := if p.editing.Some? then ReplaceById(p.users, data) else p.users + [data];
          ResetForm(sending.(users := users))
        case Err(e) => sending.(error := Some(ErrorText(e, "Failed to save user")));
      done.(saving := false)
  }

  /** `startEdit`: the user's fields fill the form, a null name as empty, and both password fields are blank. */
  function StartEdit(p: Page, u: User): (r: Page)
    ensures r.editing == Some(u) && r.users == p.users
    ensures r.form.password == "" && r.form.confirmPassword == ""
    ensures r.form.email == u.email && r.form.role == u.role && r.form.isActive == u.isActive
    ensures r.form.name == if u.name.Some? then u.name.value else ""
  {
    var name := if u.name.Some? && u.name.value != "" then u.name.value else "";
    p.(editing := Some(u), form := FormState(u.email, name, u.role, "", "", u.isActive))
  }

  /**
   * Opening a user and submitting straight away sends an update of that user
   * carrying its own name and activity and no password.
   */
  lemma {:induction false} EditThenSubmit(p: Page, u: User)
    ensures var r := SubmitRequest(StartEdit(p, u));
            r.Ok? && r.value.verb == "PUT" && r.value.path == "/admin/users/" + IntToString(u.id)
            && !HasKey(r.value.payload, "password")
            && Get(r.value.payload, "is_active") == Bool(u.isActive)
            && Get(r.value.payload, "name") == Str(if u.name.Some? then u.name.value else "")
  {
  }

  /** The request `toggleActive` sends for a user. */
  function ToggleRequest(u: User): (r: Request)
    ensures r.verb == "PUT" && Get(r.payload, "is_active") == Bool(!u.isActive) && |r.payload| == 1
  {
    Request("PUT", "/admin/users/" + IntToString(u.id), [("is_active", Bool(!u.isActive))])
  }

  /** `toggleActive`, given the reply: the returned user replaces its entry, or the error is shown. */
  function ToggleActive(p: Page, reply: Result<User, string>): (r: Page)
    ensures reply.Ok? ==> r == p.(users := ReplaceById(p.users, reply.value), error := None)
    ensures reply.Err? ==> r == p.(error := Some(ErrorText(reply.error, "Failed to update user")))
  {
    var cleared := p.(error := None);
    match reply
    case Ok(data) => cleared.(users := ReplaceById(p.users, data))
    case Err(e) => cleared.(error := Some(ErrorText(e, "Failed to update user")))
  }

  /** A successful toggle flips exactly the toggled user's activity when the server echoes it. */
  lemma {:induction false} ToggleFlipsOne(p: Page, k: nat)
    requires k < |p.users| && UniqueIds(p.users)
    ensures var u := p.users[k];
            ToggleActive(p, Ok(u.(isActive := !u.isActive))).users == p.users[k := u.(isActive := !u.isActive)]
  {
    ReplaceByIdSpec(p.users, p.users[k].(isActive := !p.users[k].isActive));
  }
}
