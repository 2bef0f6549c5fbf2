/** The patient views: registration with MRN allocation, editing behind the edit
    permission, the filtered list and the search endpoint. The `patients` table is
    `PatientTable.rows` (a row's id is its position; rows are never removed). */
module PatientsViews {

  import opened Wrappers
  import opened Strings
  import opened Dates
  import opened Requests
  import opened Audit
  import opened AccountsModels
  import opened PatientsModels
  import opened Mrn

  /** The stored MRNs, in table order. */
  function Mrns(rows: seq<Patient>): (r: seq<string>)
    ensures |r| == |rows| && forall i :: 0 <= i < |rows| ==> r[i] == rows[i].mrn
  {
    seq(|rows|, i requires 0 <= i < |rows| => rows[i].mrn)
  }

  /** Uniqueness of an optional national id within the table, ignoring row `except`
      (the record being edited): NULLs never clash. */
  predicate NationalIdFree(rows: seq<Patient>, id: Option<string>, except: Option<nat>)
  {
    id.None? || forall j :: 0 <= j < |rows| && Some(j) != except ==> rows[j].nationalId != id
  }

  /** `PatientRegistrationForm.is_valid()`: the field checks, the phone validator and
      the uniqueness check of national_id (mrn is excluded from the form, so its
      uniqueness is not checked here). */
  predicate FormValid(rows: seq<Patient>, f: PatientForm, fieldsOk: bool, except: Option<nat>)
  {
    fieldsOk && ValidPhone(f.phoneNumber) && NationalIdFree(rows, f.nationalId, except)
  }

  /** The table's integrity: ids are positions, MRNs are unique (the unique index on
      mrn) and so are the national ids that are present. */
  predicate TableValid(rows: seq<Patient>)
  {
    (forall i :: 0 <= i < |rows| ==> rows[i].id == i) &&
    (forall i, j :: 0 <= i < j < |rows| ==> rows[i].mrn != rows[j].mrn) &&
    (forall i, j :: 0 <= i < j < |rows| && rows[i].nationalId.Some? ==> rows[i].nationalId != rows[j].nationalId)
  }

  /** The first active patient with that MRN (`get_object_or_404(Patient, mrn=…,
      is_active=True)`). */
  function FindActive(rows: seq<Patient>, mrn: string): (r: Option<nat>)
    ensures r.Some? ==> r.value < |rows| && rows[r.value].mrn == mrn && rows[r.value].isActive
    ensures r.None? ==> forall i :: 0 <= i < |rows| ==> !(rows[i].mrn == mrn && rows[i].isActive)
  {
    FindActiveFrom(rows, mrn, 0)
  }

  function FindActiveFrom(rows: seq<Patient>, mrn: string, from: nat): (r: Option<nat>)
    requires from <= |rows|
    ensures r.Some? ==> from <= r.value < |rows| && rows[r.value].mrn == mrn && rows[r.value].isActive
    ensures r.None? ==> forall i :: from <= i < |rows| ==> !(rows[i].mrn == mrn && rows[i].isActive)
    decreases |rows| - from
  {
    if from == |rows| then None
    else if rows[from].mrn == mrn && rows[from].isActive then Some(from)
    else FindActiveFrom(rows, mrn, from + 1)
  }

  /** The new row `patient_register` saves: the form's data, the allocated MRN and
      the acting user as creator. */
  function Registered(rows: seq<Patient>, f: PatientForm, mrn: string, user: nat): (p: Patient)
    ensures p.id == |rows| && p.mrn == mrn && p.createdBy == Some(user) && p.isActive
    ensures p.firstName == f.firstName && p.lastName == f.lastName && p.phoneNumber == f.phoneNumber
  {
    FromForm(|rows|, f).(mrn := mrn, createdBy := Some(user))
  }

  function RegisterEntry(p: Patient, user: nat): AuditEntry
  {
    ViewEntry(user, Create, "Patient", p.id, "Registered new patient: " + FullName(p))
  }

  function EditEntry(p: Patient, user: nat): AuditEntry
  {
    ViewEntry(user, Update, "Patient", p.id, "Updated patient: " + FullName(p))
  }

  /** Registering appends a row that keeps the table valid as long as its MRN and
      national id are not taken yet. */
  lemma RegisterKeepsValid(rows: seq<Patient>, f: PatientForm, mrn: string, user: nat)
    requires TableValid(rows) && mrn !in Mrns(rows) && NationalIdFree(rows, f.nationalId, None)
    ensures TableValid(rows + [Registered(rows, f, mrn, user)])
  {
    var p := Registered(rows, f, mrn, user);
    var t := rows + [p];
    forall i, j | 0 <= i < j < |t| ensures t[i].mrn != t[j].mrn {
      if j == |rows| { assert Mrns(rows)[i] == rows[i].mrn; }
    }
  }

  /** Editing replaces one row's editable fields; the table stays valid when the new
      national id is free apart from that row. */
  lemma EditKeepsValid(rows: seq<Patient>, i: nat, f: PatientForm)
    requires TableValid(rows) && i < |rows| && NationalIdFree(rows, f.nationalId, Some(i))
    ensures TableValid(rows[i := ApplyForm(rows[i], f)])
  {
  }

  /** Which field `patient_list` searches (`PatientSearchForm.search_by`). */
  datatype SearchBy = All | ByMrnField | ByName | ByNationalId | ByPhone

  /** A valid search form: the (possibly empty) term and the field. */
  datatype SearchQuery = SearchQuery(term: string, field: SearchBy)

  /** `national_id__icontains`: a NULL national id matches nothing. */
  predicate IdContains(id: Option<string>, t: string)
  {
    id.Some? && IContains(id.value, t)
  }

  /** The filter of `patient_list` for a non-empty term. */
  predicate Matches(p: Patient, q: SearchQuery)
  {
    var t := q.term;
    match q.field
    case ByMrnField => IContains(p.mrn, t)
    case ByName => IContains(p.firstName, t) || IContains(p.lastName, t) || IContains(p.middleName, t)
    case ByNationalId => IdContains(p.nationalId, t)
    case ByPhone => IContains(p.phoneNumber, t)
    case All =>
      IContains(p.mrn, t) || IContains(p.firstName, t) || IContains(p.lastName, t) ||
      IdContains(p.nationalId, t) || IContains(p.phoneNumber, t)
  }

  /** Whether `patient_list` shows a patient: active, and matching when the form is
      valid and the term non-empty. */
  predicate Listed(p: Patient, query: Option<SearchQuery>)
  {
    p.isActive && (query.None? || query.value.term == "" || Matches(p, query.value))
  }

  /** `patient_list` before pagination, newest registration first. */
  function PatientList(rows: seq<Patient>, query: Option<SearchQuery>): (r: seq<Patient>)
    ensures forall p :: p in r <==> p in rows && Listed(p, query)
    ensures |r| <= |rows|
  {
    if rows == [] then []
    else
      var n := |rows| - 1;
      var rest := PatientList(rows[..n], query);
      assert forall p :: p in rows <==> p in rows[..n] || p == rows[n];
      (if Listed(rows[n], query) then [rows[n]] else []) + rest
  }

  /** Listing the rows newest first: with ids as positions, every listed patient comes
      before the older ones. */
  lemma PatientListNewestFirst(rows: seq<Patient>, query: Option<SearchQuery>, i: nat, j: nat)
    requires forall k :: 0 <= k < |rows| ==> rows[k].id == k
    requires i < j < |PatientList(rows, query)|
    ensures PatientList(rows, query)[i].id > PatientList(rows, query)[j].id
  {
    PatientListDecreasing(rows, query);
  }

  /** Ids strictly decreasing along the list. */
  predicate IdsDecreasing(s: seq<Patient>)
  {
    forall i, j :: 0 <= i < j < |s| ==> s[i].id > s[j].id
  }

  lemma {:induction false} PatientListDecreasing(rows: seq<Patient>, query: Option<SearchQuery>)
    requires forall k :: 0 <= k < |rows| ==> rows[k].id == k
    ensures IdsDecreasing(PatientList(rows, query))
  {
    if rows != [] {
      var n := |rows| - 1;
      var prefix := rows[..n];
      var rest := PatientList(prefix, query);
      PatientListDecreasing(prefix, query);
      PatientListStep(rows, query);
      if PatientList(rows, query) != rest {
        forall p | p in rest ensures p.id < rows[n].id {
          IdBelow(prefix, p);
        }
        ConsDecreasing(rows[n], rest);
      }
    }
  }

  lemma ConsDecreasing(x: Patient, rest: seq<Patient>)
    requires IdsDecreasing(rest) && forall p :: p in rest ==> p.id < x.id
    ensures IdsDecreasing([x] + rest)
  {
    var s := [x] + rest;
    forall i, j | 0 <= i < j < |s| ensures s[i].id > s[j].id {
      assert s[j] == rest[j - 1];
      if i > 0 {
        assert s[i] == rest[i - 1];
      }
    }
  }

  /** The list of a non-empty table is that of all rows but the newest, with the
      newest in front when it is listed. */
  lemma PatientListStep(rows: seq<Patient>, query: Option<SearchQuery>)
    requires rows != []
    ensures var rest := PatientList(rows[..|rows| - 1], query);
            PatientList(rows, query) == rest || PatientList(rows, query) == [rows[|rows| - 1]] + rest
  {
  }

  lemma IdBelow(rows: seq<Patient>, p: Patient)
    requires forall k :: 0 <= k < |rows| ==> rows[k].id == k
    requires p in rows
    ensures p.id < |rows|
  {
  }

  /** An inactive patient is never listed, whatever the search. */
  lemma InactiveNeverListed(rows: seq<Patient>, query: Option<SearchQuery>, p: Patient)
    requires !p.isActive
    ensures p !in PatientList(rows, query)
  {
  }

  /** The filter of `patient_search_api`: MRN, first or last name, or national id
      contains the term; active or not. */
  predicate ApiMatches(p: Patient, term: string)
  {
    IContains(p.mrn, term) || IContains(p.firstName, term) || IContains(p.lastName, term) ||
    IdContains(p.nationalId, term)
  }

  /** The rows of `patient_search_api`'s query, newest first. */
  function ApiRows(rows: seq<Patient>, term: string): (r: seq<Patient>)
    ensures forall p :: p in r <==> p in rows && ApiMatches(p, term)
  {
    if rows == [] then []
    else
      var n := |rows| - 1;
      var rest := ApiRows(rows[..n], term);
      assert forall p :: p in rows <==> p in rows[..n] || p == rows[n];
      (if ApiMatches(rows[n], term) then [rows[n]] else []) + rest
  }

  /** One entry of the JSON answer. */
  datatype SearchResult = SearchResult(id: nat, mrn: string, name: string, age: int, gender: Gender)

  function ResultOf(p: Patient, today: Date): SearchResult
  {
    SearchResult(p.id, p.mrn, FullName(p), Age(p.dateOfBirth, today), p.gender)
  }

  function Take<T>(s: seq<T>, n: nat): (r: seq<T>)
    ensures |r| == (if |s| <= n then |s| else n) && r == s[..|r|]
  {
    if |s| <= n then s else s[..n]
  }

  /** `patient_search_api`: nothing for terms under two characters, otherwise the
      first ten matching patients, each as id, MRN, full name, age and gender. */
  method SearchApi(rows: seq<Patient>, term: string, today: Date) returns (results: seq<SearchResult>)
    ensures |term| < 2 ==> results == []
    ensures |term| >= 2 ==>
              var found := Take(ApiRows(rows, term), 10);
              |results| == |found| &&
              forall k :: 0 <= k < |found| ==> results[k] == ResultOf(found[k], today)
    ensures |results| <= 10
  {
    if |term| < 2 {
      return [];
    }
    var patients := Take(ApiRows(rows, term), 10);
    results := [];
    for k := 0 to |patients|
      invariant |results| == k
      invariant forall m :: 0 <= m < k ==> results[m] == ResultOf(patients[m], today)
    {
      var p := patients[k];
      results := results + [SearchResult(p.id, p.mrn, FullName(p), Age(p.dateOfBirth, today), p.gender)];
    }
  }

  /** The `patients` table. */
  class PatientTable {
    var rows: seq<Patient>

    constructor ()
      ensures rows == []
    {
      rows := [];
    }

    /** `patient_register` by user `user` in calendar year `year`. */
    method Register(sub: Submission<PatientForm>, user: nat, year: nat, audit: AuditLog) returns (resp: Response)
      requires TableValid(rows)
      modifies this, audit
      ensures TableValid(rows)
      ensures (sub.Get? || !FormValid(old(rows), sub.form, sub.fieldsOk, None)) ==>
                resp == Render && rows == old(rows) && audit.entries == old(audit.entries)
      ensures sub.Post? && FormValid(old(rows), sub.form, sub.fieldsOk, None) ==>
                match AllocateMrn(year, Mrns(old(rows)))
                case Err(_) =>
                  resp == ServerError("ValueError") && rows == old(rows) && audit.entries == old(audit.entries)
                case Ok(mrn) =>
                  if mrn in Mrns(old(rows)) then
                    resp == ServerError("IntegrityError") && rows == old(rows) && audit.entries == old(audit.entries)
                  else
                    var p := Registered(old(rows), sub.form, mrn, user);
                    resp == Redirect(ByMrn("patient_detail", mrn)) &&
                    rows == old(rows) + [p] &&
                    audit.entries == old(audit.entries) + [RegisterEntry(p, user)]
    {
      if sub.Get? || !FormValid(rows, sub.form, sub.fieldsOk, None) {
        return Render;
      }
      var outcome := AllocateMrn(year, Mrns(rows));
      if outcome.Err? {
        return ServerError("ValueError");
      }
      var mrn := outcome.value;
      if mrn in Mrns(rows) {
        return ServerError("IntegrityError");
      }
      var p := Registered(rows, sub.form, mrn, user);
      RegisterKeepsValid(rows, sub.form, mrn, user);
      rows := rows + [p];
      audit.Create(RegisterEntry(p, user));
      resp := Redirect(ByMrn("patient_detail", mrn));
    }

    /** `patient_edit` of the record with MRN `mrn` by a user with role `role`. */
    method Edit(mrn: string, sub: Submission<PatientForm>, user: nat, role: Role, audit: AuditLog) returns (resp: Response)
      requires TableValid(rows)
      modifies this, audit
      ensures TableValid(rows)
      ensures FindActive(old(rows), mrn).None? ==>
                resp == NotFound && rows == old(rows) && audit.entries == old(audit.entries)
      ensures FindActive(old(rows), mrn).Some? && !HasPermPatientEdit(role) ==>
                resp == Redirect(ByMrn("patient_detail", mrn)) && rows == old(rows) &&
                audit.entries == old(audit.entries)
      ensures FindActive(old(rows), mrn).Some? && HasPermPatientEdit(role) ==>
                var i := FindActive(old(rows), mrn).value;
                if sub.Post? && FormValid(old(rows), sub.form, sub.fieldsOk, Some(i)) then
                  var p := ApplyForm(old(rows)[i], sub.form);
                  resp == Redirect(ByMrn("patient_detail", mrn)) &&
                  rows == old(rows)[i := p] &&
                  audit.entries == old(audit.entries) + [EditEntry(p, user)]
                else
                  resp == Render && rows == old(rows) && audit.entries == old(audit.entries)
    {
      var found := FindActive(rows, mrn);
      if found.None? {
        return NotFound;
      }
      if !HasPermPatientEdit(role) {
        return Redirect(ByMrn("patient_detail", mrn));
      }
      var i := found.value;
      if sub.Get? || !FormValid(rows, sub.form, sub.fieldsOk, Some(i)) {
        return Render;
      }
      var p := ApplyForm(rows[i], sub.form);
      EditKeepsValid(rows, i, sub.form);
      rows := rows[i := p];
      audit.Create(EditEntry(p, user));
      resp := Redirect(ByMrn("patient_detail", mrn));
    }
  }
}
