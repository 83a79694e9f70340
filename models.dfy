/** The Mongoose schemas of the backend, as values, and the unique indexes
    they declare. Fields the routes never read or write are kept so that a
    stored document is modelled whole. */
module Models {
  import opened Common
  import opened Bcrypt

  /** A call-log document. `timestamp` is the call's start in milliseconds;
      `recordingFile` stays absent: no modelled route sets it. */
  datatype CallLog = CallLog(
    deviceId: string,
    callerName: string,
    clientNumber: string,
    callType: string,
    duration: int,
    timestamp: int,
    location: string,
    status: string,
    recordingFile: Option<string>)

  /** An employee; `deviceId` is absent until a device connects. */
  datatype Employee = Employee(name: string, phone: string, connectCode: string, deviceId: Option<string>)

  /** An administrator; `organizationId` is optional. */
  datatype Admin = Admin(name: string, email: string, password: Secret, organizationId: Option<string>)

  datatype Organization = Organization(
    name: string,
    address: string,
    industry: string,
    contactEmail: string,
    contactPhone: string)

  /** The unique index on `Employee.connectCode`. */
  predicate CodesUnique(es: seq<Employee>) {
    forall i, j :: 0 <= i < j < |es| ==> es[i].connectCode != es[j].connectCode
  }

  /** The unique index on `Admin.email`. */
  predicate EmailsUnique(admins: seq<Admin>) {
    forall i, j :: 0 <= i < j < |admins| ==> admins[i].email != admins[j].email
  }
}
