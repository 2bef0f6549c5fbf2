/** `Consultation` and `LabOrder`: their enums and defaults, the vital-sign
    validators and the BMI rule of `Consultation.save`. Decimal fields are exact
    reals. */
module ConsultationsModels {

  import opened Wrappers
  import opened Dates

  /** `Consultation.STATUS_CHOICES`, default Scheduled. */
  datatype ConsultationStatus = Scheduled | Waiting | InProgress | Completed | Cancelled

  /** `VISIT_TYPE_CHOICES`, default New. */
  datatype VisitType = New | FollowUp | Emergency | Review | Referral

  const DefaultStatus: ConsultationStatus := Scheduled
  const DefaultVisitType: VisitType := New

  /** The vital signs, each optional (null=True). */
  datatype Vitals = Vitals(
    temperature: Option<real>,
    heartRate: Option<int>,
    respiratoryRate: Option<int>,
    systolic: Option<int>,
    diastolic: Option<int>,
    oxygenSaturation: Option<int>,
    weight: Option<real>,
    height: Option<real>)

  /** A missing value passes; a present one must lie in [lo, hi] (MinValueValidator
      and MaxValueValidator). */
  predicate InRange(v: Option<int>, lo: int, hi: int)
  {
    v.None? || lo <= v.value <= hi
  }

  /** The validators of the vital-sign fields. */
  predicate VitalsInRange(v: Vitals)
  {
    InRange(v.heartRate, 30, 200) &&
    InRange(v.systolic, 70, 250) &&
    InRange(v.diastolic, 40, 150) &&
    InRange(v.oxygenSaturation, 50, 100)
  }

  /** The four vital signs that carry validators. */
  datatype Sign = HeartRate | Systolic | Diastolic | OxygenSaturation

  /** The validator bounds of each sign, as a table. */
  function Bounds(s: Sign): (int, int)
  {
    match s
    case HeartRate => (30, 200)
    case Systolic => (70, 250)
    case Diastolic => (40, 150)
    case OxygenSaturation => (50, 100)
  }

  /** Vitals where only sign s is recorded, with value n. */
  function Only(s: Sign, n: int): (v: Vitals)
    ensures v.temperature.None? && v.respiratoryRate.None? && v.weight.None? && v.height.None?
  {
    var none := Vitals(None, None, None, None, None, None, None, None);
    match s
    case HeartRate => none.(heartRate := Some(n))
    case Systolic => none.(systolic := Some(n))
    case Diastolic => none.(diastolic := Some(n))
    case OxygenSaturation => none.(oxygenSaturation := Some(n))
  }

  /** Each sign is checked against its own inclusive bounds: a recorded value passes
      exactly when it lies between them, end values included. */
  lemma SignInRange(s: Sign, n: int)
    ensures VitalsInRange(Only(s, n)) <==> Bounds(s).0 <= n <= Bounds(s).1
  {
  }

  /** Vitals with nothing recorded pass, and so do the unvalidated signs whatever
      their values (temperature, respiratory rate, weight, height). */
  lemma UnvalidatedSignsPass(v: Vitals)
    requires v.heartRate.None? && v.systolic.None? && v.diastolic.None? && v.oxygenSaturation.None?
    ensures VitalsInRange(v)
  {
  }

  /** The fields of `Consultation` the core reads or writes. */
  datatype Consultation = Consultation(
    id: nat,
    patient: nat,
    doctor: Option<nat>,
    visitDate: Date,
    visitTime: int,
    visitType: VisitType,
    status: ConsultationStatus,
    chiefComplaint: string,
    diagnosis: string,
    vitals: Vitals,
    bmi: Option<real>,
    createdBy: Option<nat>)

  /** Python truthiness of an optional Decimal: present and non-zero. */
  predicate Truthy(x: Option<real>)
  {
    x.Some? && x.value != 0.0
  }

  /** h², positive for a non-zero h. */
  lemma SquarePositive(h: real)
    requires h != 0.0
    ensures h * h > 0.0
  {
  }

  /** The body-mass index for a weight in kilograms and a height in centimetres:
      weight / (height / 100)², written as 10000 · weight / height². */
  function BmiOf(weight: real, height: real): real
    requires height != 0.0
  {
    SquarePositive(height);
    10000.0 * weight / (height * height)
  }

  /** `Consultation.save`: with a truthy weight and height, bmi becomes the weight
      over the square of the height in metres; otherwise it keeps its value. No other
      field changes. */
  function WithSavedBmi(c: Consultation): (d: Consultation)
    ensures d.(bmi := c.bmi) == c
    ensures Truthy(c.vitals.weight) && Truthy(c.vitals.height) ==>
              d.bmi == Some(BmiOf(c.vitals.weight.value, c.vitals.height.value))
    ensures !(Truthy(c.vitals.weight) && Truthy(c.vitals.height)) ==> d == c
  {
    var w, h := c.vitals.weight, c.vitals.height;
    if Truthy(w) && Truthy(h) then c.(bmi := Some(BmiOf(w.value, h.value)))
    else c
  }

  /** The BMI rule read backwards: the BMI times the squared height in metres gives
      back the weight. */
  lemma BmiDerived(w: real, h: real)
    requires h != 0.0
    ensures BmiOf(w, h) * (h * h) == 10000.0 * w
  {
  }

  /** A positive weight gives a positive BMI, whatever the sign of the height. */
  lemma BmiPositive(w: real, h: real)
    requires w > 0.0 && h != 0.0
    ensures BmiOf(w, h) > 0.0
  {
  }

  /** Saving twice gives what saving once gives: the BMI depends on the
      measurements alone, which saving does not touch. */
  lemma SaveIdempotent(c: Consultation)
    ensures WithSavedBmi(WithSavedBmi(c)) == WithSavedBmi(c)
  {
  }

  /** `LabOrder.PRIORITY_CHOICES`, default Routine. */
  datatype Priority = Routine | Urgent | Stat

  /** `LabOrder.STATUS_CHOICES`, default Ordered. */
  datatype LabStatus = Ordered | Collected | Processing | LabCompleted | LabCancelled

  const DefaultPriority: Priority := Routine
  const DefaultLabStatus: LabStatus := Ordered

  /** The fields of `LabOrder` the core reads or writes. */
  datatype LabOrder = LabOrder(
    id: nat,
    consultation: nat,
    testName: string,
    priority: Priority,
    status: LabStatus,
    orderedBy: Option<nat>,
    clinicalNotes: string)

  /** `LabOrderForm`: test name, priority and clinical notes. */
  datatype LabOrderForm = LabOrderForm(testName: string, priority: Priority, clinicalNotes: string)

  /** The values an unbound `LabOrderForm` starts from. */
  function BlankLabOrderForm(): (f: LabOrderForm)
    ensures f.priority == DefaultPriority
  {
    LabOrderForm("", DefaultPriority, "")
  }
}
