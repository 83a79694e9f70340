/** `POST /verify`: a device presents an employee's connect code and is
    bound to that employee. The code is compared exactly as sent. */
module EmployeeConnect {
  import opened Common
  import opened Models
  import Db
  import Employees

  /** `Employee.findOne({ connectCode })`: the first employee, in natural
      order, whose code equals `code`. */
  function FindByCode(docs: seq<Employee>, code: string): (r: Option<nat>)
    ensures r.Some? ==> r.value < |docs| && docs[r.value].connectCode == code
    ensures r.Some? ==> forall j :: 0 <= j < r.value ==> docs[j].connectCode != code
    ensures r.None? <==> forall j :: 0 <= j < |docs| ==> docs[j].connectCode != code
    decreases |docs|
  {
    if docs == [] then None
    else if docs[0].connectCode == code then Some(0)
    else
      match FindByCode(docs[1..], code)
      case None => None
      case Some(i) => Some(i + 1)
  }

  /** Under the unique index the employee holding a code is the one found. */
  lemma UniqueCodeFindsHolder(docs: seq<Employee>, i: nat)
    requires CodesUnique(docs) && i < |docs|
    ensures FindByCode(docs, docs[i].connectCode) == Some(i)
  {
  }

  /** The reply of `POST /verify`. */
  datatype ConnectResponse = InvalidCode | DeviceConnected(employee: Employee) {
    function Status(): int { if DeviceConnected? then 200 else 404 }
    function Message(): string { if DeviceConnected? then "Device connected" else "Invalid connect code" }
  }

  /** The route's effect: the matching employee's `deviceId` is set to the
      one sent (an absent `deviceId` clears it); an unknown code changes
      nothing. */
  function Connection(docs: seq<Employee>, code: string, deviceId: Option<string>): (r: (seq<Employee>, ConnectResponse))
    ensures |r.0| == |docs|
    ensures r.1.InvalidCode? <==> FindByCode(docs, code).None?
    ensures r.1.InvalidCode? ==> r.0 == docs
  {
    match FindByCode(docs, code)
    case None => (docs, InvalidCode)
    case Some(i) =>
      var e := docs[i].(deviceId := deviceId);
      (docs[i := e], DeviceConnected(e))
  }

  /** Connecting changes the device of the employee holding the code and
      nothing else: no other field of it, no other employee. */
  lemma ConnectionBindsOnlyHolder(docs: seq<Employee>, code: string, deviceId: Option<string>, i: nat)
    requires FindByCode(docs, code) == Some(i)
    ensures var (after, resp) := Connection(docs, code, deviceId);
            resp == DeviceConnected(after[i])
            && after[i] == Employee(docs[i].name, docs[i].phone, code, deviceId)
            && forall j :: 0 <= j < |docs| && j != i ==> after[j] == docs[j]
  {
  }

  /** Sending the same code and device twice leaves the collection as the
      first time did. */
  lemma {:induction false} ConnectionIdempotent(docs: seq<Employee>, code: string, deviceId: Option<string>)
    ensures var once := Connection(docs, code, deviceId).0;
            Connection(once, code, deviceId).0 == once
  {
    match FindByCode(docs, code)
    case None =>
    case Some(i) =>
      var once := Connection(docs, code, deviceId).0;
      assert once[i].connectCode == code;
      assert forall j :: 0 <= j < i ==> once[j] == docs[j];
      assert FindByCode(once, code) == Some(i);
  }

  /** Connecting never touches codes, so it keeps them unique. */
  lemma ConnectionKeepsCodesUnique(docs: seq<Employee>, code: string, deviceId: Option<string>)
    requires CodesUnique(docs)
    ensures CodesUnique(Connection(docs, code, deviceId).0)
  {
    var after := Connection(docs, code, deviceId).0;
    assert forall j :: 0 <= j < |docs| ==> after[j].connectCode == docs[j].connectCode;
  }

  /** An employee just created through `POST /add` can be connected with the
      code that route generated. */
  lemma {:induction false} NewEmployeeConnects(docs: seq<Employee>, name: string, phone: string, code: string, deviceId: Option<string>)
    requires CodesUnique(docs)
    requires Employees.Addition(docs, name, phone, code).1.Created?
    ensures var added := Employees.Addition(docs, name, phone, code).0;
            Connection(added, code, deviceId).1 == DeviceConnected(Employee(name, phone, code, deviceId))
  {
    var added := Employees.Addition(docs, name, phone, code).0;
    Employees.AdditionKeepsCodesUnique(docs, name, phone, code);
    UniqueCodeFindsHolder(added, |docs|);
  }

  /** `POST /verify` on the employee collection. */
  method Verify(store: Db.Collection<Employee>, connectCode: string, deviceId: Option<string>) returns (resp: ConnectResponse)
    modifies store
    ensures (store.docs, resp) == Connection(old(store.docs), connectCode, deviceId)
  {
    var found := FindByCode(store.docs, connectCode);
    if found.None? {
      return InvalidCode;
    }
    var employee := store.docs[found.value].(deviceId := deviceId);
    store.Put(found.value, employee);
    resp := DeviceConnected(employee);
  }
}
