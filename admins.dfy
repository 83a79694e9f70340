/** The administrator routes: `POST /register` and `POST /login`, together
    with the schema's pre-save hook, which hashes the password whenever it
    is set. */
module Admins {
  import opened Common
  import opened Bcrypt
  import opened Models
  import Db

  /** `Admin.findOne({ email })`: the first administrator with that email. */
  function FindByEmail(docs: seq<Admin>, email: string): (r: Option<nat>)
    ensures r.Some? ==> r.value < |docs| && docs[r.value].email == email
    ensures r.Some? ==> forall j :: 0 <= j < r.value ==> docs[j].email != email
    ensures r.None? <==> forall j :: 0 <= j < |docs| ==> docs[j].email != email
    decreases |docs|
  {
    if docs == [] then None
    else if docs[0].email == email then Some(0)
    else
      match FindByEmail(docs[1..], email)
      case None => None
      case Some(i) => Some(i + 1)
  }

  /** The body of `POST /register`; `password` may be missing. */
  datatype RegisterBody = RegisterBody(name: string, email: string, password: Option<string>, organizationId: Option<string>)

  datatype RegisterResponse = EmailTaken | Registered | RegisterFailed {
    function Status(): int {
      match this
      case EmailTaken => 400
      case Registered => 200
      case RegisterFailed => 500
    }
  }

  predicate IsHexDigit(c: char) {
    '0' <= c <= '9' || 'a' <= c <= 'f' || 'A' <= c <= 'F'
  }

  /** A string Mongoose casts to an ObjectId: 24 hexadecimal digits. */
  predicate IsObjectIdText(s: string) {
    |s| == 24 && forall i :: 0 <= i < |s| ==> IsHexDigit(s[i])
  }

  /** `organizationId` is copied only when truthy and its `length`, counted
      in UTF-16 code units, is 24. */
  function OrganizationField(organizationId: Option<string>): (r: Option<string>)
    ensures r.Some? <==> organizationId.Some? && Utf16Length(organizationId.value) == 24
    ensures r.Some? ==> r == organizationId
  {
    if Truthy(organizationId) && Utf16Length(organizationId.value) == 24 then organizationId else None
  }

  /** An id of 24 code units holding a character outside the Basic
      Multilingual Plane is copied, then fails the ObjectId cast: 500, and
      nothing is stored. */
  lemma {:induction false} AstralOrganizationIdFails(docs: seq<Admin>, body: RegisterBody, routeSalt: Salt, hookSalt: Salt, i: nat)
    requires FindByEmail(docs, body.email).None? && body.password.Some?
    requires body.organizationId.Some? && Utf16Length(body.organizationId.value) == 24
    requires i < |body.organizationId.value| && body.organizationId.value[i] as int >= 0x1_0000
    ensures Registration(docs, body, routeSalt, hookSalt) == (docs, RegisterFailed)
  {
    var id := body.organizationId.value;
    Utf16LengthOfAstral(id[..i], id[i], id[i + 1..]);
    assert id[..i] + [id[i]] + id[i + 1..] == id;
    assert |id| < 24;
  }

  /** The pre-save hook on a new document: `password` counts as modified, so
      whatever it holds is hashed with a freshly generated salt. */
  function PreSave(a: Admin, salt: Salt): (r: Admin)
    ensures r.name == a.name && r.email == a.email && r.organizationId == a.organizationId
    ensures forall pw :: Compare(pw, r.password) <==> a.password == Plain(pw)
  {
    a.(password := Hash(a.password, salt))
  }

  /** Saving a new administrator built from `body` with `password` in its
      password field: the cast of `organizationId` can fail, else the hook
      hashes and the document is appended. */
  function SaveNew(docs: seq<Admin>, body: RegisterBody, password: Secret, hookSalt: Salt): (r: (seq<Admin>, RegisterResponse))
    ensures r.1 != EmailTaken
    ensures r.1.Registered? <==> (OrganizationField(body.organizationId).None? || IsObjectIdText(body.organizationId.value))
    ensures r.1.Registered? ==> r.0 == docs + [Admin(body.name, body.email, Hashed(password, hookSalt), OrganizationField(body.organizationId))]
    ensures r.1.RegisterFailed? ==> r.0 == docs
  {
    var data := Admin(body.name, body.email, password, OrganizationField(body.organizationId));
    if data.organizationId.Some? && !IsObjectIdText(data.organizationId.value) then (docs, RegisterFailed)
    else (docs + [PreSave(data, hookSalt)], Registered)
  }

  /** `POST /register` as written: the route hashes the password with
      `routeSalt`, then the pre-save hook hashes that hash with `hookSalt`. */
  function Registration(docs: seq<Admin>, body: RegisterBody, routeSalt: Salt, hookSalt: Salt): (r: (seq<Admin>, RegisterResponse))
    ensures r.1.EmailTaken? <==> FindByEmail(docs, body.email).Some?
    ensures r.1.Registered? ==> body.password.Some?
    ensures !r.1.Registered? ==> r.0 == docs
    ensures r.1.Registered? ==> r.0 == docs + [Admin(body.name, body.email,
                                                     Hashed(Hashed(Plain(body.password.value), routeSalt), hookSalt),
                                                     OrganizationField(body.organizationId))]
  {
    if FindByEmail(docs, body.email).Some? then (docs, EmailTaken)
    else if body.password.None? then (docs, RegisterFailed)
    else SaveNew(docs, body, Hash(Plain(body.password.value), routeSalt), hookSalt)
  }

  /** `POST /register` as evidently intended: the plaintext is handed to the
      model and hashed once, by the pre-save hook. */
  function RegistrationHashedOnce(docs: seq<Admin>, body: RegisterBody, hookSalt: Salt): (r: (seq<Admin>, RegisterResponse))
    ensures r.1.EmailTaken? <==> FindByEmail(docs, body.email).Some?
    ensures r.1.Registered? ==> body.password.Some?
    ensures !r.1.Registered? ==> r.0 == docs
    ensures r.1.Registered? ==> r.0 == docs + [Admin(body.name, body.email,
                                                     Hashed(Plain(body.password.value), hookSalt),
                                                     OrganizationField(body.organizationId))]
  {
    if FindByEmail(docs, body.email).Some? then (docs, EmailTaken)
    else if body.password.None? then (docs, RegisterFailed)
    else SaveNew(docs, body, Plain(body.password.value), hookSalt)
  }

  /** Registration fails with 500 exactly when the password is missing or the
      `organizationId` it keeps is not an ObjectId, once the email is free. */
  lemma RegistrationFailureCases(docs: seq<Admin>, body: RegisterBody, routeSalt: Salt, hookSalt: Salt)
    requires FindByEmail(docs, body.email).None?
    ensures Registration(docs, body, routeSalt, hookSalt).1.RegisterFailed?
            <==> body.password.None?
                 || (OrganizationField(body.organizationId).Some? && !IsObjectIdText(body.organizationId.value))
  {
  }

  /** Both versions of registration keep emails unique. */
  lemma RegistrationKeepsEmailsUnique(docs: seq<Admin>, body: RegisterBody, routeSalt: Salt, hookSalt: Salt)
    requires EmailsUnique(docs)
    ensures EmailsUnique(Registration(docs, body, routeSalt, hookSalt).0)
    ensures EmailsUnique(RegistrationHashedOnce(docs, body, hookSalt).0)
  {
  }

  // ---------------------------------------------------------------------
  // POST /login

  datatype LoginResponse = AdminNotFound | InvalidPassword | LoggedIn(admin: Admin) | LoginFailed {
    function Status(): int {
      match this
      case AdminNotFound => 404
      case InvalidPassword => 401
      case LoggedIn(_) => 200
      case LoginFailed => 500
    }
  }

  /** `POST /login`: the administrator with the email, if the password
      matches its stored hash; a missing password makes `bcrypt.compare`
      throw. */
  function Login(docs: seq<Admin>, email: string, password: Option<string>): (r: LoginResponse)
    ensures r.AdminNotFound? <==> FindByEmail(docs, email).None?
    ensures r.LoginFailed? <==> FindByEmail(docs, email).Some? && password.None?
    ensures r.LoggedIn? ==> r.admin in docs && r.admin.email == email && password.Some? && Compare(password.value, r.admin.password)
    ensures r.LoggedIn? ==> r.admin == docs[FindByEmail(docs, email).value]
    ensures r.InvalidPassword? <==> FindByEmail(docs, email).Some? && password.Some?
                                    && !Compare(password.value, docs[FindByEmail(docs, email).value].password)
  {
    match FindByEmail(docs, email)
    case None => AdminNotFound
    case Some(i) =>
      if password.None? then LoginFailed
      else if !Compare(password.value, docs[i].password) then InvalidPassword
      else LoggedIn(docs[i])
  }

  /** The administrator just registered is the one login finds. */
  lemma {:induction false} NewAdminIsFound(docs: seq<Admin>, a: Admin)
    requires FindByEmail(docs, a.email).None?
    ensures FindByEmail(docs + [a], a.email) == Some(|docs|)
  {
    var after := docs + [a];
    assert forall j :: 0 <= j < |docs| ==> after[j] == docs[j];
    assert after[|docs|].email == a.email;
    var r := FindByEmail(after, a.email);
    assert r.Some?;
    assert !(r.value < |docs|);
  }

  /** As written, an administrator can never log in with the password they
      registered with: the stored value is a hash of a hash. */
  lemma {:induction false} LoginAfterRegistrationRejected(docs: seq<Admin>, body: RegisterBody, routeSalt: Salt, hookSalt: Salt)
    requires Registration(docs, body, routeSalt, hookSalt).1.Registered?
    ensures Login(Registration(docs, body, routeSalt, hookSalt).0, body.email, body.password) == InvalidPassword
  {
    var after := Registration(docs, body, routeSalt, hookSalt).0;
    NewAdminIsFound(docs, after[|docs|]);
    CompareRejectsDoubleHash(body.password.value, Hash(Plain(body.password.value), routeSalt), hookSalt);
  }

  /** With one hash, login with the registered password succeeds, and any
      other password is refused. */
  lemma {:induction false} LoginAfterRegistrationHashedOnce(docs: seq<Admin>, body: RegisterBody, hookSalt: Salt, attempt: string)
    requires RegistrationHashedOnce(docs, body, hookSalt).1.Registered?
    ensures var after := RegistrationHashedOnce(docs, body, hookSalt).0;
            Login(after, body.email, body.password) == LoggedIn(after[|docs|])
            && (attempt != body.password.value ==> Login(after, body.email, Some(attempt)) == InvalidPassword)
  {
    var after := RegistrationHashedOnce(docs, body, hookSalt).0;
    NewAdminIsFound(docs, after[|docs|]);
    CompareHashOfPlain(body.password.value, body.password.value, hookSalt);
    CompareHashOfPlain(body.password.value, attempt, hookSalt);
  }

  /** `POST /register` on the administrator collection, with the two salts
      bcrypt draws. */
  method Register(store: Db.Collection<Admin>, body: RegisterBody, routeSalt: Salt, hookSalt: Salt) returns (resp: RegisterResponse)
    modifies store
    ensures (store.docs, resp) == Registration(old(store.docs), body, routeSalt, hookSalt)
  {
    if FindByEmail(store.docs, body.email).Some? {
      return EmailTaken;
    }
    if body.password.None? {
      return RegisterFailed;
    }
    var hashedPassword := Hash(Plain(body.password.value), routeSalt);
    var adminData := Admin(body.name, body.email, hashedPassword, OrganizationField(body.organizationId));
    if adminData.organizationId.Some? && !IsObjectIdText(adminData.organizationId.value) {
      return RegisterFailed;
    }
    store.Insert(PreSave(adminData, hookSalt));
    resp := Registered;
  }

  /** The corrected `POST /register`. */
  method RegisterHashedOnce(store: Db.Collection<Admin>, body: RegisterBody, hookSalt: Salt) returns (resp: RegisterResponse)
    modifies store
    ensures (store.docs, resp) == RegistrationHashedOnce(old(store.docs), body, hookSalt)
  {
    if FindByEmail(store.docs, body.email).Some? {
      return EmailTaken;
    }
    if body.password.None? {
      return RegisterFailed;
    }
    var adminData := Admin(body.name, body.email, Plain(body.password.value), OrganizationField(body.organizationId));
    if adminData.organizationId.Some? && !IsObjectIdText(adminData.organizationId.value) {
      return RegisterFailed;
    }
    store.Insert(PreSave(adminData, hookSalt));
    resp := Registered;
  }
}
