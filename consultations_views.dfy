/** The consultation views: recording a consultation for a patient (with the vitals
    prefill of the empty form), ordering a lab test and the filtered list. The
    `consultations` and `lab_orders` tables are fields of `ConsultationTable`; a
    row's id is its position. The patients table is read only here. */
module ConsultationsViews {

  import opened Wrappers
  import opened Strings
  import opened Dates
  import opened Requests
  import opened Audit
  import opened AccountsModels
  import opened PatientsModels
  import opened PatientsViews
  import opened ConsultationsModels

  /** `get_object_or_404(Patient, mrn=…)`: the patient with that MRN, active or not. */
  function FindByMrn(patients: seq<Patient>, mrn: string): (r: Option<nat>)
    ensures r.Some? ==> r.value < |patients| && patients[r.value].mrn == mrn
    ensures r.None? ==> forall i :: 0 <= i < |patients| ==> patients[i].mrn != mrn
  {
    FindByMrnFrom(patients, mrn, 0)
  }

  function FindByMrnFrom(patients: seq<Patient>, mrn: string, from: nat): (r: Option<nat>)
    requires from <= |patients|
    ensures r.Some? ==> from <= r.value < |patients| && patients[r.value].mrn == mrn
    ensures r.None? ==> forall i :: from <= i < |patients| ==> patients[i].mrn != mrn
    decreases |patients| - from
  {
    if from == |patients| then None
    else if patients[from].mrn == mrn then Some(from)
    else FindByMrnFrom(patients, mrn, from + 1)
  }

  /** The editable fields of `ConsultationForm` the core reads: everything but
      created_by, the timestamps and bmi; visit_date and visit_time are set on
      creation and are not editable either. */
  datatype ConsultationForm = ConsultationForm(
    patient: nat,
    doctor: Option<nat>,
    visitType: VisitType,
    status: ConsultationStatus,
    chiefComplaint: string,
    diagnosis: string,
    vitals: Vitals)

  /** `ConsultationForm.is_valid()`: the field checks and the vital-sign validators. */
  predicate ConsultationFormValid(f: ConsultationForm, fieldsOk: bool)
  {
    fieldsOk && VitalsInRange(f.vitals)
  }

  /** The row `new_consultation` stores, before `save` computes the BMI: the form's
      data, but the patient named by the URL, the acting user as doctor when that
      user is a doctor and no doctor otherwise, the acting user as creator, and the
      creation date and time (`auto_now_add`). */
  function Recorded(id: nat, f: ConsultationForm, patient: nat, user: nat, role: Role,
                    today: Date, now: int): (c: Consultation)
    ensures c.id == id && c.patient == patient && c.createdBy == Some(user)
    ensures c.doctor == (if role == Doctor then Some(user) else None)
    ensures c.visitDate == today && c.visitTime == now
    ensures c.vitals == f.vitals && c.chiefComplaint == f.chiefComplaint && c.bmi.None?
  {
    var doctor := if RoleCode(role) == "doctor" then Some(user) else None;
    assert RoleCode(role) == "doctor" <==> role == Doctor by {
      if role != Doctor { assert RoleCode(role)[0] != 'd' || RoleCode(role) == "admin"; }
    }
    Consultation(id, patient, doctor, today, now, f.visitType, f.status,
                 f.chiefComplaint, f.diagnosis, f.vitals, None, Some(user))
  }

  function NewConsultationEntry(c: Consultation, p: Patient, user: nat): AuditEntry
  {
    ViewEntry(user, Create, "Consultation", c.id, "New consultation for patient: " + FullName(p))
  }

  /** Ids are positions. */
  predicate IdsArePositions(cs: seq<Consultation>)
  {
    forall i :: 0 <= i < |cs| ==> cs[i].id == i
  }

  /** (visit_date, visit_time) of a is earlier than that of b. */
  predicate VisitBefore(a: Consultation, b: Consultation)
  {
    Before(a.visitDate, b.visitDate) || (a.visitDate == b.visitDate && a.visitTime < b.visitTime)
  }

  /** Rows were stored in visit order: no row is earlier than one stored before it.
      `auto_now_add` gives this whenever the clock does not go back. */
  predicate Chronological(cs: seq<Consultation>)
  {
    forall i, j :: 0 <= i < j < |cs| ==> !VisitBefore(cs[j], cs[i])
  }

  /** Appending a row stamped no earlier than the last keeps the table in visit order. */
  lemma AppendKeepsChronological(cs: seq<Consultation>, c: Consultation)
    requires Chronological(cs)
    requires |cs| > 0 ==> !VisitBefore(c, cs[|cs| - 1])
    ensures Chronological(cs + [c])
  {
    var t := cs + [c];
    forall i, j | 0 <= i < j < |t| ensures !VisitBefore(t[j], t[i]) {
      if j == |cs| && i < |cs| - 1 {
        VisitOrderTransitive(c, cs[|cs| - 1], cs[i]);
      }
    }
  }

  /** Not-earlier is transitive. */
  lemma VisitOrderTransitive(a: Consultation, b: Consultation, c: Consultation)
    requires !VisitBefore(a, b) && !VisitBefore(b, c)
    ensures !VisitBefore(a, c)
  {
  }

  /** The vitals the empty form is pre-filled with: temperature, heart rate, both
      blood pressures, weight and height. */
  datatype Prefill = Prefill(
    temperature: Option<real>,
    heartRate: Option<int>,
    systolic: Option<int>,
    diastolic: Option<int>,
    weight: Option<real>,
    height: Option<real>)

  /** `patient.consultation_set.order_by('-visit_date').first()`: a consultation of
      the patient with the latest visit date; among equal dates the one stored last. */
  function LatestVisit(cs: seq<Consultation>, patient: nat): (r: Option<nat>)
    ensures r.Some? ==> r.value < |cs| && cs[r.value].patient == patient
    ensures r.Some? ==> forall j :: 0 <= j < |cs| && cs[j].patient == patient ==>
                          NotAfter(cs[j].visitDate, cs[r.value].visitDate)
    ensures r.None? <==> forall j :: 0 <= j < |cs| ==> cs[j].patient != patient
  {
    if cs == [] then None
    else
      var n := |cs| - 1;
      var rest := LatestVisit(cs[..n], patient);
      if cs[n].patient != patient then rest
      else if rest.Some? && Before(cs[n].visitDate, cs[rest.value].visitDate) then rest
      else Some(n)
  }

  /** The initial data of the empty form: the listed vitals of the latest
      consultation, or nothing when the patient has none. */
  function PrefillOf(cs: seq<Consultation>, patient: nat): (r: Option<Prefill>)
    ensures r.None? <==> forall j :: 0 <= j < |cs| ==> cs[j].patient != patient
    ensures r.Some? ==>
              var v := cs[LatestVisit(cs, patient).value].vitals;
              r.value == Prefill(v.temperature, v.heartRate, v.systolic, v.diastolic, v.weight, v.height)
  {
    match LatestVisit(cs, patient)
    case None => None
    case Some(i) =>
      var v := cs[i].vitals;
      Some(Prefill(v.temperature, v.heartRate, v.systolic, v.diastolic, v.weight, v.height))
  }

  /** A prefill copies values and never invents them: each prefilled vital is one
      some consultation of the patient recorded. */
  lemma PrefillFromPatient(cs: seq<Consultation>, patient: nat)
    requires PrefillOf(cs, patient).Some?
    ensures exists j :: 0 <= j < |cs| && cs[j].patient == patient &&
              PrefillOf(cs, patient).value.weight == cs[j].vitals.weight &&
              PrefillOf(cs, patient).value.height == cs[j].vitals.height
  {
    var i := LatestVisit(cs, patient).value;
    assert cs[i].patient == patient;
  }

  /** The rows `consultation_list` shows before the cut at 50: those on the date
      (when one is given) and of the doctor (when one is given), newest first. */
  function ConsultationsMatching(cs: seq<Consultation>, date: Option<Date>, doctor: Option<nat>): (r: seq<nat>)
    ensures forall k :: 0 <= k < |r| ==> r[k] < |cs|
    ensures forall i :: 0 <= i < |cs| ==> (i in r <==> ListFilter(cs[i], date, doctor))
  {
    if cs == [] then []
    else
      var n := |cs| - 1;
      var rest := ConsultationsMatching(cs[..n], date, doctor);
      assert forall i :: 0 <= i < n ==> cs[..n][i] == cs[i];
      if ListFilter(cs[n], date, doctor) then [n] + rest else rest
  }

  predicate ListFilter(c: Consultation, date: Option<Date>, doctor: Option<nat>)
  {
    (date.None? || c.visitDate == date.value) && (doctor.None? || c.doctor == doctor)
  }

  /** The positions come out in decreasing order. */
  lemma MatchingDecreasing(cs: seq<Consultation>, date: Option<Date>, doctor: Option<nat>, p: nat, q: nat)
    requires p < q < |ConsultationsMatching(cs, date, doctor)|
    ensures ConsultationsMatching(cs, date, doctor)[q] < ConsultationsMatching(cs, date, doctor)[p]
  {
    MatchingStrictlyDecreasing(cs, date, doctor);
  }

  predicate StrictlyDecreasing(s: seq<nat>)
  {
    forall i, j :: 0 <= i < j < |s| ==> s[j] < s[i]
  }

  lemma {:induction false} MatchingStrictlyDecreasing(cs: seq<Consultation>, date: Option<Date>, doctor: Option<nat>)
    ensures StrictlyDecreasing(ConsultationsMatching(cs, date, doctor))
  {
    if cs != [] {
      var n := |cs| - 1;
      var rest := ConsultationsMatching(cs[..n], date, doctor);
      MatchingStrictlyDecreasing(cs[..n], date, doctor);
      if ListFilter(cs[n], date, doctor) {
        assert forall k :: 0 <= k < |rest| ==> rest[k] < n;
        ConsDecreasing(n, rest);
      }
    }
  }

  lemma ConsDecreasing(x: nat, rest: seq<nat>)
    requires StrictlyDecreasing(rest) && forall k :: 0 <= k < |rest| ==> rest[k] < x
    ensures StrictlyDecreasing([x] + rest)
  {
    var s := [x] + rest;
    forall i, j | 0 <= i < j < |s| ensures s[j] < s[i] {
      assert s[j] == rest[j - 1];
      if i > 0 {
        assert s[i] == rest[i - 1];
      }
    }
  }

  /** `consultation_list`: the date filter if a date is given; the doctor filter
      unless the value is empty or "all", where a value that is not a number fails
      the query with ValueError; then at most 50 rows, newest first. */
  function ConsultationList(cs: seq<Consultation>, date: Option<Date>, doctor: Option<string>): (r: Result<seq<nat>, string>)
    ensures r.Err? <==> doctor.Some? && doctor.value != "" && doctor.value != "all" && ParseNat(doctor.value).None?
    ensures r.Err? ==> r.error == "ValueError"
    ensures r.Ok? ==> |r.value| <= 50
  {
    if doctor.Some? && doctor.value != "" && doctor.value != "all" then
      match ParseNat(doctor.value)
      case None => Err("ValueError")
      case Some(d) => Ok(Take(ConsultationsMatching(cs, date, Some(d)), 50))
    else Ok(Take(ConsultationsMatching(cs, date, None), 50))
  }

  /** Every listed row passes both filters; when fewer than 50 rows pass, all of
      them are listed. */
  lemma ListedRows(cs: seq<Consultation>, date: Option<Date>, doctor: Option<nat>)
    ensures forall k :: 0 <= k < |Take(ConsultationsMatching(cs, date, doctor), 50)| ==>
              Take(ConsultationsMatching(cs, date, doctor), 50)[k] < |cs| &&
              ListFilter(cs[Take(ConsultationsMatching(cs, date, doctor), 50)[k]], date, doctor)
    ensures |ConsultationsMatching(cs, date, doctor)| <= 50 ==>
              forall i :: 0 <= i < |cs| && ListFilter(cs[i], date, doctor) ==>
                i in Take(ConsultationsMatching(cs, date, doctor), 50)
  {
    var all := ConsultationsMatching(cs, date, doctor);
    var shown := Take(all, 50);
    forall k | 0 <= k < |shown| ensures shown[k] < |cs| && ListFilter(cs[shown[k]], date, doctor) {
      assert shown[k] == all[k] && all[k] in all;
    }
  }

  /** The cut keeps the newest: the list holds min(50, matches) rows, and every
      passing row left out was stored before every row shown. */
  lemma ListedNewest(cs: seq<Consultation>, date: Option<Date>, doctor: Option<nat>)
    ensures var all := ConsultationsMatching(cs, date, doctor);
            |Take(all, 50)| == if |all| <= 50 then |all| else 50
    ensures forall i, k ::
              (0 <= i < |cs| && ListFilter(cs[i], date, doctor) &&
               i !in Take(ConsultationsMatching(cs, date, doctor), 50) &&
               k in Take(ConsultationsMatching(cs, date, doctor), 50)) ==> i < k
  {
    var all := ConsultationsMatching(cs, date, doctor);
    var shown := Take(all, 50);
    MatchingStrictlyDecreasing(cs, date, doctor);
    forall i, k | 0 <= i < |cs| && ListFilter(cs[i], date, doctor) && i !in shown && k in shown
      ensures i < k
    {
      LeftOutBelow(all, |shown|, i, k);
    }
  }

  /** In a strictly decreasing list, an element beyond the first m is below every
      element within them. */
  lemma LeftOutBelow(all: seq<nat>, m: nat, i: nat, k: nat)
    requires StrictlyDecreasing(all) && m <= |all|
    requires i in all && i !in all[..m] && k in all[..m]
    ensures i < k
  {
    var p :| 0 <= p < |all| && all[p] == i;
    var q :| 0 <= q < m && all[..m][q] == k;
    assert all[q] == k;
  }

  /** On a table kept in visit order the list is ordered by (visit_date, visit_time),
      latest first, as `order_by('-visit_date', '-visit_time')` has it. */
  lemma ListNewestFirst(cs: seq<Consultation>, date: Option<Date>, doctor: Option<nat>, p: nat, q: nat)
    requires Chronological(cs)
    requires p < q < |ConsultationsMatching(cs, date, doctor)|
    ensures !VisitBefore(cs[ConsultationsMatching(cs, date, doctor)[p]], cs[ConsultationsMatching(cs, date, doctor)[q]])
  {
    MatchingDecreasing(cs, date, doctor, p, q);
  }

  /** The row `order_lab_test` stores: the form's data, the consultation of the URL,
      the acting user as orderer, the default status. */
  function OrderedLab(id: nat, consultation: nat, f: LabOrderForm, user: nat): (o: LabOrder)
    ensures o.id == id && o.consultation == consultation && o.orderedBy == Some(user)
    ensures o.status == Ordered && o.testName == f.testName && o.priority == f.priority
  {
    LabOrder(id, consultation, f.testName, f.priority, DefaultLabStatus, Some(user), f.clinicalNotes)
  }

  /** The `consultations` and `lab_orders` tables. */
  class ConsultationTable {
    var consultations: seq<Consultation>
    var labOrders: seq<LabOrder>

    predicate Valid()
      reads this
    {
      IdsArePositions(consultations) &&
      (forall i :: 0 <= i < |labOrders| ==> labOrders[i].id == i && labOrders[i].consultation < |consultations|)
    }

    constructor ()
      ensures Valid() && consultations == [] && labOrders == []
    {
      consultations := [];
      labOrders := [];
    }

    /** `new_consultation` for the patient with MRN `mrn` by user `user` with role
        `role`, on day `today` at time `now`. */
    method NewConsultation(patients: seq<Patient>, mrn: string, sub: Submission<ConsultationForm>,
                           user: nat, role: Role, today: Date, now: int, audit: AuditLog)
      returns (resp: Response)
      requires Valid()
      modifies this, audit
      ensures Valid() && labOrders == old(labOrders)
      ensures FindByMrn(patients, mrn).None? ==>
                resp == NotFound && consultations == old(consultations) && audit.entries == old(audit.entries)
      ensures FindByMrn(patients, mrn).Some? && !(sub.Post? && ConsultationFormValid(sub.form, sub.fieldsOk)) ==>
                resp == Render && consultations == old(consultations) && audit.entries == old(audit.entries)
      ensures FindByMrn(patients, mrn).Some? && sub.Post? && ConsultationFormValid(sub.form, sub.fieldsOk) ==>
                var p := patients[FindByMrn(patients, mrn).value];
                var c := WithSavedBmi(Recorded(|old(consultations)|, sub.form, p.id, user, role, today, now));
                consultations == old(consultations) + [c] &&
                audit.entries == old(audit.entries) + [NewConsultationEntry(c, p, user)] &&
                resp == Redirect(ById("consultation_detail", c.id))
    {
      var found := FindByMrn(patients, mrn);
      if found.None? {
        return NotFound;
      }
      var p := patients[found.value];
      if sub.Get? || !ConsultationFormValid(sub.form, sub.fieldsOk) {
        return Render;
      }
      var c := Recorded(|consultations|, sub.form, p.id, user, role, today, now);
      c := WithSavedBmi(c);
      consultations := consultations + [c];
      audit.Create(NewConsultationEntry(c, p, user));
      resp := Redirect(ById("consultation_detail", c.id));
    }

    /** `order_lab_test` on consultation `consultation` by user `user`. */
    method OrderLabTest(consultation: nat, sub: Submission<LabOrderForm>, user: nat) returns (resp: Response)
      requires Valid()
      modifies this
      ensures Valid() && consultations == old(consultations)
      ensures consultation >= |consultations| ==> resp == NotFound && labOrders == old(labOrders)
      ensures consultation < |consultations| && !(sub.Post? && sub.fieldsOk) ==>
                resp == Render && labOrders == old(labOrders)
      ensures consultation < |consultations| && sub.Post? && sub.fieldsOk ==>
                labOrders == old(labOrders) + [OrderedLab(|old(labOrders)|, consultation, sub.form, user)] &&
                resp == Redirect(ById("consultation_detail", consultation))
    {
      if consultation >= |consultations| {
        return NotFound;
      }
      if sub.Get? || !sub.fieldsOk {
        return Render;
      }
      labOrders := labOrders + [OrderedLab(|labOrders|, consultation, sub.form, user)];
      resp := Redirect(ById("consultation_detail", consultation));
    }
  }
}
