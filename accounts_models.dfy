/** The staff accounts: roles and the capabilities they grant, the account record
    with its lockout fields, login sessions and password-reset tokens. */
module AccountsModels {

  import opened Wrappers

  /** `User.ROLE_CHOICES`. */
  datatype Role = Admin | Doctor | Nurse | RecordsOfficer | Pharmacist | LabTechnician | Receptionist

  function RoleCode(r: Role): string
  {
    match r
    case Admin => "admin"
    case Doctor => "doctor"
    case Nurse => "nurse"
    case RecordsOfficer => "records_officer"
    case Pharmacist => "pharmacist"
    case LabTechnician => "lab_technician"
    case Receptionist => "receptionist"
  }

  /** `has_perm_patient_view`: admin, doctor, nurse and records officer. */
  predicate HasPermPatientView(r: Role)
  {
    RoleCode(r) in ["admin", "doctor", "nurse", "records_officer"]
  }

  /** `has_perm_patient_edit`: admin, doctor and nurse. */
  predicate HasPermPatientEdit(r: Role)
  {
    RoleCode(r) in ["admin", "doctor", "nurse"]
  }

  /** `has_perm_report_view`: admin and records officer. */
  predicate HasPermReportView(r: Role)
  {
    RoleCode(r) in ["admin", "records_officer"]
  }

  /** The three capabilities, role by role. */
  lemma Capabilities(r: Role)
    ensures HasPermPatientView(r) <==> r in {Admin, Doctor, Nurse, RecordsOfficer}
    ensures HasPermPatientEdit(r) <==> r in {Admin, Doctor, Nurse}
    ensures HasPermReportView(r) <==> r in {Admin, RecordsOfficer}
  {
    match r
    case Admin =>
    case Doctor =>
    case Nurse =>
    case RecordsOfficer =>
      assert "records_officer" != "admin" && "records_officer" != "doctor";
      assert "records_officer" != "nurse";
    case Pharmacist =>
      assert "pharmacist" !in ["admin", "doctor", "nurse", "records_officer"];
    case LabTechnician =>
      assert "lab_technician" !in ["admin", "doctor", "nurse", "records_officer"];
    case Receptionist =>
      assert "receptionist" !in ["admin", "doctor", "nurse", "records_officer"];
  }

  /** Whoever may edit patient records may also view them. */
  lemma EditImpliesView(r: Role)
    ensures HasPermPatientEdit(r) ==> HasPermPatientView(r)
  {
    Capabilities(r);
  }

  /** Pharmacists, lab technicians and receptionists hold none of the capabilities. */
  lemma NoCapabilities(r: Role)
    requires r in {Pharmacist, LabTechnician, Receptionist}
    ensures !HasPermPatientView(r) && !HasPermPatientEdit(r) && !HasPermReportView(r)
  {
    Capabilities(r);
  }

  /** The fields of `User` the core reads or writes. */
  datatype User = User(
    id: nat,
    username: string,
    role: Role,
    isOnline: bool,
    lastLoginIp: Option<string>,
    loginAttempts: int,
    accountLocked: bool)

  /** A user as created with the model's defaults. */
  function NewUser(id: nat, username: string): (u: User)
    ensures u.id == id && u.username == username
    ensures u.role == Receptionist && u.loginAttempts == 0 && !u.accountLocked
    ensures !u.isOnline && u.lastLoginIp.None?
  {
    User(id, username, Receptionist, false, None, 0, false)
  }

  /** One `UserSession` row; times are plain numbers. */
  datatype UserSession = UserSession(
    user: nat,
    sessionKey: string,
    ipAddress: string,
    userAgent: string,
    loginTime: int,
    logoutTime: Option<int>,
    isActive: bool)

  /** A session row as `UserSession.objects.create` stores it at `now`. */
  function OpenSession(user: nat, sessionKey: string, ip: string, agent: string, now: int): (s: UserSession)
    ensures s.user == user && s.sessionKey == sessionKey && s.loginTime == now
    ensures s.isActive && s.logoutTime.None?
  {
    UserSession(user, sessionKey, ip, agent, now, None, true)
  }

  /** One `PasswordReset` row. */
  datatype PasswordReset = PasswordReset(user: nat, token: string, expiresAt: int, used: bool)

  /** `is_valid`: not used and expiring strictly after now. */
  predicate IsValid(r: PasswordReset, now: int)
  {
    !r.used && r.expiresAt > now
  }

  /** A used token is never valid, and an unused one is valid exactly until it expires. */
  lemma TokenValidity(r: PasswordReset, now: int)
    ensures r.used ==> !IsValid(r, now)
    ensures !r.used ==> (IsValid(r, now) <==> now < r.expiresAt)
  {
  }

  /** Once a token has stopped being valid it never becomes valid again. */
  lemma ExpiredStaysExpired(r: PasswordReset, t: int, later: int)
    requires t <= later && !IsValid(r, t)
    ensures !IsValid(r, later)
  {
  }
}
