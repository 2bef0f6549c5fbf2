/** `AuditMiddleware`: after the view has answered, a modifying request of a
    signed-in user appends one audit row, whose action is read off the path. */
module Middleware {

  import opened Wrappers
  import opened Strings
  import opened Requests
  import opened Audit

  /** What the middleware reads of a request. `appName` is
      `request.resolver_match.app_name`, None when the URL resolved to nothing. */
  datatype Request = Request(
    authenticated: bool,
    user: nat,
    verb: string,
    path: string,
    appName: Option<string>,
    meta: Meta)

  /** The methods that are logged. */
  predicate Modifying(verb: string)
  {
    verb in ["POST", "PUT", "PATCH", "DELETE"]
  }

  /** Static and uploaded files are never logged (the test is on the path as given,
      not lower-cased). */
  predicate Excluded(path: string)
  {
    StartsWith(path, "/static/") || StartsWith(path, "/media/")
  }

  /** The action of `log_action`: "delete" anywhere in the lower-cased path first,
      then "create" or "add", and UPDATE for everything else. */
  function Classify(path: string): (a: Action)
    ensures a == Delete <==> ContainsSub(Lower(path), "delete")
    ensures a == Create <==> !ContainsSub(Lower(path), "delete") &&
                             (ContainsSub(Lower(path), "create") || ContainsSub(Lower(path), "add"))
    ensures a == Delete || a == Create || a == Update
  {
    var p := Lower(path);
    if ContainsSub(p, "delete") then Delete
    else if ContainsSub(p, "create") || ContainsSub(p, "add") then Create
    else if ContainsSub(p, "update") || ContainsSub(p, "edit") then Update
    else Update
  }

  /** "delete" in any letter case, anywhere in the path, wins over every other
      keyword around it. */
  lemma DeleteWins(before: string, word: string, after: string)
    requires Lower(word) == "delete"
    ensures Classify(before + word + after) == Delete
  {
    LowerConcat(before + word, after);
    LowerConcat(before, word);
    assert StartsWith("delete", "delete");
    ContainsExtend(Lower(before), "delete", Lower(after), "delete");
  }

  /** The row `log_action` stores: the user, the action, the app name or "Unknown",
      no object, the method and path as details, the client address and the user
      agent. */
  function EntryFor(r: Request): (e: AuditEntry)
    ensures e.user == Some(r.user) && e.objectId.None?
    ensures e.action == Classify(r.path)
    ensures e.modelName == (if r.appName.Some? then r.appName.value else "Unknown")
    ensures e.details == r.verb + " " + r.path
    ensures e.ipAddress == StoredIp(ClientIp(r.meta)) && e.userAgent == UserAgent(r.meta)
    ensures e.ipAddress.Some? ==> e.ipAddress == ClientIp(r.meta) && e.ipAddress.value != ""
  {
    var modelName := match r.appName case Some(a) => a case None => "Unknown";
    AuditEntry(Some(r.user), Classify(r.path), modelName, None, r.verb + " " + r.path,
               StoredIp(ClientIp(r.meta)), UserAgent(r.meta))
  }

  /** Whether `__call__` writes a row for the request. */
  predicate Logged(r: Request)
  {
    r.authenticated && Modifying(r.verb) && !Excluded(r.path)
  }

  /** Reads, anonymous requests and file paths leave the log alone. */
  lemma NotLogged(r: Request)
    ensures !r.authenticated ==> !Logged(r)
    ensures r.verb == "GET" || r.verb == "HEAD" ==> !Logged(r)
    ensures StartsWith(r.path, "/static/") || StartsWith(r.path, "/media/") ==> !Logged(r)
  {
  }

  /** The log after one request. */
  function LogAfter(entries: seq<AuditEntry>, r: Request): (s: seq<AuditEntry>)
    ensures |s| == |entries| + (if Logged(r) then 1 else 0)
    ensures s[..|entries|] == entries
    ensures Logged(r) ==> s[|entries|] == EntryFor(r)
  {
    if Logged(r) then entries + [EntryFor(r)] else entries
  }

  /** Every row the middleware writes records a DELETE, CREATE or UPDATE, never a
      VIEW, LOGIN or any other action. */
  lemma MiddlewareActions(entries: seq<AuditEntry>, r: Request, i: nat)
    requires |entries| <= i < |LogAfter(entries, r)|
    ensures LogAfter(entries, r)[i].action in {Delete, Create, Update}
  {
  }

  /** `log_action`. */
  method LogAction(r: Request, log: AuditLog)
    modifies log
    ensures log.entries == old(log.entries) + (if Excluded(r.path) then [] else [EntryFor(r)])
  {
    if StartsWith(r.path, "/static/") || StartsWith(r.path, "/media/") {
      return;
    }
    var lower := Lower(r.path);
    var action;
    if ContainsSub(lower, "delete") {
      action := Delete;
    } else if ContainsSub(lower, "create") || ContainsSub(lower, "add") {
      action := Create;
    } else if ContainsSub(lower, "update") || ContainsSub(lower, "edit") {
      action := Update;
    } else {
      action := Update;
    }
    var modelName := if r.appName.Some? then r.appName.value else "Unknown";
    log.Create(AuditEntry(Some(r.user), action, modelName, None, r.verb + " " + r.path,
                          StoredIp(ClientIp(r.meta)), UserAgent(r.meta)));
  }

  /** `AuditMiddleware.__call__`, given the response the view produced: the
      response goes back unchanged, and at most one row is appended. */
  method Call(r: Request, response: Response, log: AuditLog) returns (out: Response)
    modifies log
    ensures out == response
    ensures log.entries == LogAfter(old(log.entries), r)
  {
    if r.authenticated && r.verb in ["POST", "PUT", "PATCH", "DELETE"] {
      LogAction(r, log);
    }
    out := response;
  }
}
