/** The audit trail: the `AuditLog` table with its action enum. Every view that
    records an action appends one row; rows are never changed or removed. */
module Audit {

  import opened Wrappers

  /** `AuditLog.ACTION_CHOICES`. */
  datatype Action = Create | Update | Delete | View | Login | Logout | Export | Print

  /** The stored code of each action. */
  function ActionCode(a: Action): (code: string)
    ensures |code| >= 4
  {
    match a
    case Create => "CREATE"
    case Update => "UPDATE"
    case Delete => "DELETE"
    case View => "VIEW"
    case Login => "LOGIN"
    case Logout => "LOGOUT"
    case Export => "EXPORT"
    case Print => "PRINT"
  }

  /** Distinct actions are stored under distinct codes. */
  lemma ActionCodeInjective(a: Action, b: Action)
    requires ActionCode(a) == ActionCode(b)
    ensures a == b
  {
    match a
    case Create => assert ActionCode(b)[0] == 'C';
    case Update => assert ActionCode(b)[0] == 'U';
    case Delete => assert ActionCode(b)[0] == 'D';
    case View => assert ActionCode(b)[0] == 'V';
    case Login => assert ActionCode(b)[..4] == "LOGI";
    case Logout => assert ActionCode(b)[..4] == "LOGO";
    case Export => assert ActionCode(b)[0] == 'E';
    case Print => assert ActionCode(b)[0] == 'P';
  }

  /** One `AuditLog` row; the timestamp is left out. */
  datatype AuditEntry = AuditEntry(
    user: Option<nat>,
    action: Action,
    modelName: string,
    objectId: Option<nat>,
    details: string,
    ipAddress: Option<string>,
    userAgent: string)

  /** The row `AuditLog.objects.create(user=…, action=…, model_name=…, object_id=…,
      details=…)` stores from a view: no address and an empty user agent. */
  function ViewEntry(user: nat, action: Action, modelName: string, objectId: nat, details: string): (e: AuditEntry)
    ensures e.user == Some(user) && e.objectId == Some(objectId)
    ensures e.ipAddress.None? && e.userAgent == ""
  {
    AuditEntry(Some(user), action, modelName, Some(objectId), details, None, "")
  }

  /** The `audit_logs` table, oldest row first. */
  class AuditLog {
    var entries: seq<AuditEntry>

    constructor ()
      ensures entries == []
    {
      entries := [];
    }

    /** `AuditLog.objects.create(...)`: appends one row. */
    method Create(e: AuditEntry)
      modifies this
      ensures entries == old(entries) + [e]
    {
      entries := entries + [e];
    }
  }
}
