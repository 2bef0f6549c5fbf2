/** The medication catalogue, prescriptions and their items: enums and defaults,
    the item validators, the records a view creates, and the two delete rules of the
    foreign keys (an item goes with its prescription; a medication that an item
    names cannot be deleted). Tables from which rows are deleted are maps keyed by
    id. */
module PrescriptionsModels {

  import opened Wrappers

  /** `Medication.UNIT_CHOICES`, default Tablet. */
  datatype Unit = Tablet | Capsule | Milliliter | Milligram | Gram | Drop | Inhalation | Suppository

  /** `Medication.ROUTE_CHOICES`, default Oral; items use the same choices. */
  datatype Route = Oral | Intravenous | Intramuscular | Subcutaneous | Topical | Inhaled | Rectal

  /** `Prescription.STATUS_CHOICES`, default Active. */
  datatype PrescriptionStatus = Active | Dispensed | Partial | Cancelled | Completed

  /** `PrescriptionItem.FREQUENCY_CHOICES`. */
  datatype Frequency = Od | Bd | Tds | Qds | Prn | Stat | Nocte

  /** `PrescriptionItem.DURATION_UNIT_CHOICES`, default Days. */
  datatype DurationUnit = Days | Weeks | Months

  const DefaultUnit: Unit := Tablet
  const DefaultRoute: Route := Oral
  const DefaultStatus: PrescriptionStatus := Active
  const DefaultDurationUnit: DurationUnit := Days
  const DefaultRefills := 0

  /** The stored code of each frequency. */
  function FrequencyCode(f: Frequency): (code: string)
    ensures 2 <= |code| <= 5
  {
    match f
    case Od => "od"
    case Bd => "bd"
    case Tds => "tds"
    case Qds => "qds"
    case Prn => "prn"
    case Stat => "stat"
    case Nocte => "nocte"
  }

  /** The seven frequencies have seven different codes. */
  lemma FrequencyCodeInjective(f: Frequency, g: Frequency)
    requires FrequencyCode(f) == FrequencyCode(g)
    ensures f == g
  {
    var c, d := FrequencyCode(f), FrequencyCode(g);
    assert c[0] == d[0] && c[|c| - 1] == d[|d| - 1] && |c| == |d|;
  }

  /** The stored code of each prescription status. */
  function StatusCode(s: PrescriptionStatus): (code: string)
    ensures |code| >= 6
  {
    match s
    case Active => "active"
    case Dispensed => "dispensed"
    case Partial => "partial"
    case Cancelled => "cancelled"
    case Completed => "completed"
  }

  lemma StatusCodeInjective(s: PrescriptionStatus, t: PrescriptionStatus)
    requires StatusCode(s) == StatusCode(t)
    ensures s == t
  {
    var c, d := StatusCode(s), StatusCode(t);
    assert c[0] == d[0] && c[1] == d[1] && |c| == |d|;
  }

  /** The fields of `Medication` the core reads. */
  datatype Medication = Medication(
    id: nat,
    name: string,
    genericName: string,
    brandName: string,
    strength: string,
    unit: Unit,
    route: Route,
    isActive: bool)

  /** The fields of `Prescription`; `prescribedBy` is nullable (SET_NULL). */
  datatype Prescription = Prescription(
    id: nat,
    consultation: nat,
    patient: nat,
    prescribedBy: Option<nat>,
    status: PrescriptionStatus,
    notes: string)

  /** The fields of `PrescriptionItem`; times are plain numbers. */
  datatype PrescriptionItem = PrescriptionItem(
    id: nat,
    prescription: nat,
    medication: nat,
    dosage: string,
    frequency: Frequency,
    duration: int,
    durationUnit: DurationUnit,
    route: Route,
    instructions: string,
    quantity: int,
    refills: int,
    isDispensed: bool,
    dispensedDate: Option<int>,
    dispensedBy: Option<nat>)

  /** `PrescriptionForm`: the notes alone. */
  datatype PrescriptionForm = PrescriptionForm(notes: string)

  /** `PrescriptionItemForm`: the fields a prescriber fills in. */
  datatype ItemForm = ItemForm(
    medication: nat,
    dosage: string,
    frequency: Frequency,
    route: Route,
    duration: int,
    durationUnit: DurationUnit,
    quantity: int,
    refills: int,
    instructions: string)

  /** The modelled checks of `PrescriptionItemForm.is_valid()`: the medication is one
      of the active ones (the field's queryset), duration and quantity are at least
      one (MinValueValidator(1)). */
  predicate ItemFormValid(medications: map<nat, Medication>, f: ItemForm)
  {
    f.medication in medications && medications[f.medication].isActive &&
    f.duration >= 1 && f.quantity >= 1
  }

  /** The values an unbound item form starts from: the model defaults. */
  function BlankItemForm(medication: nat, frequency: Frequency): (f: ItemForm)
    ensures f.route == DefaultRoute && f.durationUnit == DefaultDurationUnit && f.refills == 0
  {
    ItemForm(medication, "", frequency, DefaultRoute, 1, DefaultDurationUnit, 1, DefaultRefills, "")
  }

  /** The item `form.save(commit=False)` makes, attached to prescription `pid`: the
      form's data, not dispensed, with no dispense date and no dispenser. */
  function NewItem(id: nat, pid: nat, f: ItemForm): (it: PrescriptionItem)
    ensures it.id == id && it.prescription == pid && it.medication == f.medication
    ensures !it.isDispensed && it.dispensedDate.None? && it.dispensedBy.None?
    ensures it.duration == f.duration && it.quantity == f.quantity && it.refills == f.refills
  {
    PrescriptionItem(id, pid, f.medication, f.dosage, f.frequency, f.duration, f.durationUnit,
                     f.route, f.instructions, f.quantity, f.refills, false, None, None)
  }

  /** An item made from a valid form satisfies the validators of the model. */
  lemma NewItemValid(medications: map<nat, Medication>, id: nat, pid: nat, f: ItemForm)
    requires ItemFormValid(medications, f)
    ensures NewItem(id, pid, f).duration >= 1 && NewItem(id, pid, f).quantity >= 1
    ensures NewItem(id, pid, f).medication in medications
  {
  }

  /** The prescription `new_prescription` saves: the form's notes, the consultation,
      that consultation's patient, the acting user as prescriber, the default status. */
  function NewPrescriptionRow(id: nat, consultation: nat, patient: nat, user: nat, f: PrescriptionForm): (p: Prescription)
    ensures p.id == id && p.consultation == consultation && p.patient == patient
    ensures p.prescribedBy == Some(user) && p.status == Active && p.notes == f.notes
  {
    Prescription(id, consultation, patient, Some(user), DefaultStatus, f.notes)
  }

  /** Every item belongs to a stored prescription and names a stored medication. */
  predicate ItemsOwned(prescriptions: map<nat, Prescription>, items: map<nat, PrescriptionItem>,
                       medications: map<nat, Medication>)
  {
    forall k :: k in items ==> items[k].prescription in prescriptions && items[k].medication in medications
  }

  /** Deleting prescription `pid` (CASCADE): the prescription and every item of it
      go; nothing else changes. */
  function DeletePrescription(prescriptions: map<nat, Prescription>, items: map<nat, PrescriptionItem>, pid: nat):
    (r: (map<nat, Prescription>, map<nat, PrescriptionItem>))
    ensures r.0 == prescriptions - {pid}
    ensures forall k :: k in r.1 <==> k in items && items[k].prescription != pid
    ensures forall k :: k in r.1 ==> r.1[k] == items[k]
  {
    (prescriptions - {pid}, map k | k in items && items[k].prescription != pid :: items[k])
  }

  /** Cascading keeps every remaining item owned. */
  lemma DeletePrescriptionKeepsOwned(prescriptions: map<nat, Prescription>, items: map<nat, PrescriptionItem>,
                                     medications: map<nat, Medication>, pid: nat)
    requires ItemsOwned(prescriptions, items, medications)
    ensures var r := DeletePrescription(prescriptions, items, pid);
            ItemsOwned(r.0, r.1, medications)
  {
  }

  /** The error Django raises when a PROTECT reference blocks a delete. */
  datatype DeleteError = ProtectedError(medication: nat)

  /** Deleting medication `mid` (PROTECT): refused while an item names it. */
  function DeleteMedication(medications: map<nat, Medication>, items: map<nat, PrescriptionItem>, mid: nat):
    (r: Result<map<nat, Medication>, DeleteError>)
    ensures r.Err? <==> exists k :: k in items && items[k].medication == mid
    ensures r.Err? ==> r.error == ProtectedError(mid)
    ensures r.Ok? ==> r.value == medications - {mid}
  {
    if exists k :: k in items && items[k].medication == mid then Err(ProtectedError(mid))
    else Ok(medications - {mid})
  }

  /** A medication delete that goes through keeps every item owned, so no item ever
      loses its medication. */
  lemma DeleteMedicationKeepsOwned(prescriptions: map<nat, Prescription>, items: map<nat, PrescriptionItem>,
                                   medications: map<nat, Medication>, mid: nat)
    requires ItemsOwned(prescriptions, items, medications)
    requires DeleteMedication(medications, items, mid).Ok?
    ensures ItemsOwned(prescriptions, items, DeleteMedication(medications, items, mid).value)
  {
    forall k | k in items
      ensures items[k].medication in DeleteMedication(medications, items, mid).value
    {
      assert items[k].medication != mid;
    }
  }
}
