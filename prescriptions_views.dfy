/** The prescription views: starting a prescription from a consultation, adding
    items to it, dispensing an item (with the recomputed prescription status) and
    the medication search. The tables are maps keyed by id inside
    `PrescriptionStore`; consultations and patients are read only here.

    Three lines of the views fail at run time; each is modelled as written by a
    function with a lemma showing the failure, and the views themselves follow the
    evident intent. */
module PrescriptionsViews {

  import opened Wrappers
  import opened Strings
  import opened Requests
  import opened Audit
  import opened PatientsModels
  import opened PatientsViews
  import opened ConsultationsModels
  import opened PrescriptionsModels

  /** Every item of prescription `pid` is dispensed (`all(i.is_dispensed for i in
      prescription.items.all())`, true for a prescription without items). */
  predicate AllDispensed(items: map<nat, PrescriptionItem>, pid: nat)
  {
    forall k :: k in items && items[k].prescription == pid ==> items[k].isDispensed
  }

  /** The status `dispense_medication` gives the owning prescription. */
  function RecomputedStatus(items: map<nat, PrescriptionItem>, pid: nat): (s: PrescriptionStatus)
    ensures s == Dispensed <==> AllDispensed(items, pid)
    ensures s == Dispensed || s == Partial
  {
    if AllDispensed(items, pid) then Dispensed else Partial
  }

  /** One item marked dispensed at `now` by `user`; its other fields stay. */
  function MarkDispensed(it: PrescriptionItem, user: nat, now: int): (d: PrescriptionItem)
    ensures d.isDispensed && d.dispensedDate == Some(now) && d.dispensedBy == Some(user)
    ensures d.(isDispensed := it.isDispensed, dispensedDate := it.dispensedDate, dispensedBy := it.dispensedBy) == it
  {
    it.(isDispensed := true, dispensedDate := Some(now), dispensedBy := Some(user))
  }

  /** The item table after dispensing item `id`: an item already dispensed is left
      as it is. */
  function DispenseItems(items: map<nat, PrescriptionItem>, id: nat, user: nat, now: int): map<nat, PrescriptionItem>
    requires id in items
  {
    if items[id].isDispensed then items else items[id := MarkDispensed(items[id], user, now)]
  }

  /** The prescription table after dispensing item `id`: when the item was not yet
      dispensed, its prescription gets the recomputed status, whatever it was. */
  function DispensePrescriptions(prescriptions: map<nat, Prescription>, items: map<nat, PrescriptionItem>,
                                 id: nat, user: nat, now: int): map<nat, Prescription>
    requires id in items && items[id].prescription in prescriptions
  {
    var pid := items[id].prescription;
    if items[id].isDispensed then prescriptions
    else prescriptions[pid := prescriptions[pid].(status := RecomputedStatus(DispenseItems(items, id, user, now), pid))]
  }

  /** A dispense of an undispensed item marks that item alone, and its prescription
      becomes Dispensed exactly when every one of its items now is, Partial
      otherwise; the previous status (Cancelled included) plays no part. */
  lemma DispenseEffect(prescriptions: map<nat, Prescription>, items: map<nat, PrescriptionItem>,
                       id: nat, user: nat, now: int)
    requires id in items && items[id].prescription in prescriptions && !items[id].isDispensed
    ensures var pid := items[id].prescription;
            var items' := DispenseItems(items, id, user, now);
            var ps' := DispensePrescriptions(prescriptions, items, id, user, now);
            items'.Keys == items.Keys && items'[id] == MarkDispensed(items[id], user, now) &&
            pid in ps' && (ps'[pid].status == Dispensed <==> AllDispensed(items', pid)) &&
            (ps'[pid].status == Partial <==> !AllDispensed(items', pid)) &&
            ps'[pid].(status := prescriptions[pid].status) == prescriptions[pid]
  {
  }

  /** Dispensing the last undispensed item completes the prescription; while another
      item of it is waiting, the prescription is partial. */
  lemma LastItemCompletes(prescriptions: map<nat, Prescription>, items: map<nat, PrescriptionItem>,
                          id: nat, user: nat, now: int)
    requires id in items && items[id].prescription in prescriptions && !items[id].isDispensed
    ensures var pid := items[id].prescription;
            var st := DispensePrescriptions(prescriptions, items, id, user, now)[pid].status;
            (st == Dispensed <==>
              forall k :: k in items && k != id && items[k].prescription == pid ==> items[k].isDispensed)
  {
    var pid := items[id].prescription;
    var items' := DispenseItems(items, id, user, now);
    assert forall k :: k in items && k != id ==> items'[k] == items[k];
    assert items'[id].isDispensed;
  }

  /** Dispensing an item that is already dispensed changes neither table. */
  lemma DispenseAgainChangesNothing(prescriptions: map<nat, Prescription>, items: map<nat, PrescriptionItem>,
                                    id: nat, user: nat, now: int)
    requires id in items && items[id].prescription in prescriptions && items[id].isDispensed
    ensures DispenseItems(items, id, user, now) == items
    ensures DispensePrescriptions(prescriptions, items, id, user, now) == prescriptions
  {
  }

  /** A second dispense of the same item, by anyone at any time, keeps the first
      dispense's record. */
  lemma DispenseIdempotent(items: map<nat, PrescriptionItem>, id: nat, user: nat, now: int, user2: nat, now2: int)
    requires id in items
    ensures id in DispenseItems(items, id, user, now)
    ensures DispenseItems(DispenseItems(items, id, user, now), id, user2, now2) == DispenseItems(items, id, user, now)
  {
  }

  /** Dispensing never un-dispenses, and every other item and every other
      prescription stays as it was. */
  lemma DispenseFrame(prescriptions: map<nat, Prescription>, items: map<nat, PrescriptionItem>,
                      id: nat, user: nat, now: int)
    requires id in items && items[id].prescription in prescriptions
    ensures var items' := DispenseItems(items, id, user, now);
            items'.Keys == items.Keys &&
            (forall k :: k in items && items[k].isDispensed ==> items'[k].isDispensed) &&
            (forall k :: k in items && k != id ==> items'[k] == items[k])
    ensures var ps' := DispensePrescriptions(prescriptions, items, id, user, now);
            ps'.Keys == prescriptions.Keys &&
            forall q :: q in prescriptions && q != items[id].prescription ==> ps'[q] == prescriptions[q]
  {
  }

  /** The response of `dispense_medication` as the source has it: on any request
      but a POST, line 140 reads `item`, which only the POST branch binds. */
  function DispenseResponseAsWritten(items: map<nat, PrescriptionItem>, isPost: bool, id: nat): Response
  {
    if !isPost then ServerError("UnboundLocalError")
    else if id !in items then NotFound
    else Redirect(ById("prescription_detail", items[id].prescription))
  }

  /** A GET of the dispense URL of an existing item fails with UnboundLocalError. */
  lemma DispenseGetFails(items: map<nat, PrescriptionItem>, id: nat)
    requires id in items
    ensures DispenseResponseAsWritten(items, false, id) == ServerError("UnboundLocalError")
  {
  }

  /** The intended response: look the item up on every request, and send the user to
      its prescription. */
  function DispenseResponse(items: map<nat, PrescriptionItem>, isPost: bool, id: nat): (r: Response)
    ensures r.NotFound? <==> id !in items
    ensures !r.NotFound? ==> r == Redirect(ById("prescription_detail", items[id].prescription))
    ensures !r.ServerError?
  {
    if id !in items then NotFound
    else Redirect(ById("prescription_detail", items[id].prescription))
  }

  /** The corrected view answers a POST as the original does. */
  lemma DispenseResponseAgreesOnPost(items: map<nat, PrescriptionItem>, id: nat)
    ensures DispenseResponse(items, true, id) == DispenseResponseAsWritten(items, true, id)
  {
  }

  /** `Prescription.objects.filter(consultation=…).exists()`. */
  predicate HasPrescription(prescriptions: map<nat, Prescription>, cid: nat)
  {
    exists k :: k in prescriptions && prescriptions[k].consultation == cid
  }

  /** The newest prescription of consultation `cid` among ids below n (prescriptions
      are ordered by `-prescribed_date`, which is creation order). */
  function LatestFor(prescriptions: map<nat, Prescription>, cid: nat, n: nat): (r: Option<nat>)
    ensures r.Some? ==> r.value < n && r.value in prescriptions && prescriptions[r.value].consultation == cid
    ensures r.Some? ==> forall k :: r.value < k < n && k in prescriptions ==> prescriptions[k].consultation != cid
    ensures r.None? <==> forall k :: k < n && k in prescriptions ==> prescriptions[k].consultation != cid
  {
    if n == 0 then None
    else if n - 1 in prescriptions && prescriptions[n - 1].consultation == cid then Some(n - 1)
    else LatestFor(prescriptions, cid, n - 1)
  }

  /** The existence check of `new_prescription` as the source has it: line 52 reads
      `consultation.prescription`, but the reverse accessor is `prescriptions`, so any
      repeat request fails with AttributeError. None means the view goes on. */
  function ExistingGuardAsWritten(prescriptions: map<nat, Prescription>, cid: nat): Option<Response>
  {
    if HasPrescription(prescriptions, cid) then Some(ServerError("AttributeError")) else None
  }

  /** A second request for a consultation that has a prescription fails. */
  lemma RepeatPrescriptionFails(prescriptions: map<nat, Prescription>, cid: nat, k: nat)
    requires k in prescriptions && prescriptions[k].consultation == cid
    ensures ExistingGuardAsWritten(prescriptions, cid) == Some(ServerError("AttributeError"))
  {
  }

  /** The intended check: redirect to the consultation's newest prescription. */
  function ExistingGuard(prescriptions: map<nat, Prescription>, cid: nat, next: nat): (r: Option<Response>)
    requires forall k :: k in prescriptions ==> k < next
    ensures r.None? <==> !HasPrescription(prescriptions, cid)
    ensures r.Some? ==> exists k :: k in prescriptions && prescriptions[k].consultation == cid &&
                                    r.value == Redirect(ById("prescription_detail", k))
  {
    match LatestFor(prescriptions, cid, next)
    case None => None
    case Some(k) => Some(Redirect(ById("prescription_detail", k)))
  }

  /** The two checks agree on when the view stops. */
  lemma ExistingGuardsAgree(prescriptions: map<nat, Prescription>, cid: nat, next: nat)
    requires forall k :: k in prescriptions ==> k < next
    ensures ExistingGuard(prescriptions, cid, next).None? <==> ExistingGuardAsWritten(prescriptions, cid).None?
  {
  }

  /** Every consultation has a prescription of its own at most. */
  predicate OnePerConsultation(prescriptions: map<nat, Prescription>)
  {
    forall j, k :: j in prescriptions && k in prescriptions && j != k ==>
      prescriptions[j].consultation != prescriptions[k].consultation
  }

  /** `search_medications_api` as the source has it: line 152 names `models`, which
      the module never imports, so every term of two characters or more fails with
      NameError; shorter terms get an empty list. */
  function SearchMedicationsAsWritten(term: string): (r: Response)
  {
    if |term| < 2 then Json(0) else ServerError("NameError")
  }

  /** Every real search fails. */
  lemma SearchFails(term: string)
    requires |term| >= 2
    ensures SearchMedicationsAsWritten(term) == ServerError("NameError")
  {
  }

  /** The intended filter: active, and the term in the name, the generic name or the
      brand name, ignoring case. */
  predicate MedMatches(m: Medication, term: string)
  {
    m.isActive && (IContains(m.name, term) || IContains(m.genericName, term) || IContains(m.brandName, term))
  }

  /** The ids below n of matching medications, in increasing order. */
  function MatchingIds(meds: map<nat, Medication>, term: string, n: nat): (r: seq<nat>)
    ensures forall i :: 0 <= i < |r| ==> r[i] < n && r[i] in meds && MedMatches(meds[r[i]], term)
    ensures forall k :: k < n && k in meds && MedMatches(meds[k], term) ==> k in r
    ensures forall i, j :: 0 <= i < j < |r| ==> r[i] < r[j]
  {
    if n == 0 then []
    else
      var rest := MatchingIds(meds, term, n - 1);
      if n - 1 in meds && MedMatches(meds[n - 1], term) then rest + [n - 1] else rest
  }

  /** `ordering = ['name']`: by name in code-point order; equal names by id. */
  predicate NameOrder(meds: map<nat, Medication>, a: nat, b: nat)
    requires a in meds && b in meds
  {
    LexLess(meds[a].name, meds[b].name) || (meds[a].name == meds[b].name && a < b)
  }

  lemma NameOrderTotal(meds: map<nat, Medication>, a: nat, b: nat)
    requires a in meds && b in meds && a != b
    ensures NameOrder(meds, a, b) || NameOrder(meds, b, a)
  {
    LexTrichotomy(meds[a].name, meds[b].name);
  }

  lemma NameOrderAsymmetric(meds: map<nat, Medication>, a: nat, b: nat)
    requires a in meds && b in meds && NameOrder(meds, a, b)
    ensures !NameOrder(meds, b, a)
  {
    if LexLess(meds[a].name, meds[b].name) {
      LexAsymmetric(meds[a].name, meds[b].name);
    } else {
      LexIrreflexive(meds[a].name);
    }
  }

  lemma NameOrderTransitive(meds: map<nat, Medication>, a: nat, b: nat, c: nat)
    requires a in meds && b in meds && c in meds && NameOrder(meds, a, b) && NameOrder(meds, b, c)
    ensures NameOrder(meds, a, c)
  {
    if LexLess(meds[a].name, meds[b].name) && LexLess(meds[b].name, meds[c].name) {
      LexTransitive(meds[a].name, meds[b].name, meds[c].name);
    }
  }

  predicate AllIn(meds: map<nat, Medication>, s: seq<nat>)
  {
    forall i :: 0 <= i < |s| ==> s[i] in meds
  }

  /** In name order. */
  predicate SortedByName(meds: map<nat, Medication>, s: seq<nat>)
    requires AllIn(meds, s)
  {
    forall i, j :: 0 <= i < j < |s| ==> NameOrder(meds, s[i], s[j])
  }

  /** Inserting id x into a list in name order. */
  function Insert(meds: map<nat, Medication>, x: nat, s: seq<nat>): (r: seq<nat>)
    requires x in meds && AllIn(meds, s)
    ensures AllIn(meds, r) && multiset(r) == multiset(s) + multiset{x}
  {
    if s == [] || NameOrder(meds, x, s[0]) then [x] + s
    else
      var t := Insert(meds, x, s[1..]);
      assert s == [s[0]] + s[1..];
      [s[0]] + t
  }

  lemma {:induction false} InsertSorted(meds: map<nat, Medication>, x: nat, s: seq<nat>)
    requires x in meds && AllIn(meds, s) && SortedByName(meds, s) && x !in s
    ensures SortedByName(meds, Insert(meds, x, s))
  {
    if s == [] {
    } else if NameOrder(meds, x, s[0]) {
      var r := [x] + s;
      forall i, j | 0 <= i < j < |r| ensures NameOrder(meds, r[i], r[j]) {
        if i == 0 && j > 1 { NameOrderTransitive(meds, x, s[0], s[j - 1]); }
      }
    } else {
      assert s[0] != x;
      NameOrderTotal(meds, x, s[0]);
      var tail := s[1..];
      assert x !in tail;
      InsertSorted(meds, x, tail);
      var t := Insert(meds, x, tail);
      var r := [s[0]] + t;
      assert multiset(t) == multiset(tail) + multiset{x};
      forall j | 0 <= j < |t| ensures NameOrder(meds, s[0], t[j]) {
        assert t[j] in multiset(t);
        if t[j] != x {
          assert t[j] in multiset(tail);
          var m :| 0 <= m < |tail| && tail[m] == t[j];
          assert s[m + 1] == t[j];
        }
      }
    }
  }

  /** Insertion sort into name order. */
  function SortByName(meds: map<nat, Medication>, s: seq<nat>): (r: seq<nat>)
    requires AllIn(meds, s)
    ensures AllIn(meds, r) && multiset(r) == multiset(s)
  {
    if s == [] then []
    else
      assert s == [s[0]] + s[1..];
      Insert(meds, s[0], SortByName(meds, s[1..]))
  }

  /** Sorting a list without repeats gives a list in name order. */
  lemma {:induction false} SortByNameSorted(meds: map<nat, Medication>, s: seq<nat>)
    requires AllIn(meds, s) && forall i, j :: 0 <= i < j < |s| ==> s[i] != s[j]
    ensures SortedByName(meds, SortByName(meds, s))
  {
    if s != [] {
      SortByNameSorted(meds, s[1..]);
      var t := SortByName(meds, s[1..]);
      assert s[0] !in s[1..];
      assert s[0] !in multiset(t);
      InsertSorted(meds, s[0], t);
    }
  }

  /** One entry of the JSON list: id, "name strength", strength, unit and route. */
  datatype MedResult = MedResult(id: nat, name: string, strength: string, unit: Unit, route: Route)

  function MedResultOf(m: Medication): MedResult
  {
    MedResult(m.id, m.name + " " + m.strength, m.strength, m.unit, m.route)
  }

  /** The medications the intended query returns: the matching ones in name order,
      at most 15. */
  function SearchRows(meds: map<nat, Medication>, term: string, n: nat): (r: seq<nat>)
    ensures AllIn(meds, r) && |r| <= 15
  {
    var found := MatchingIds(meds, term, n);
    Take(SortByName(meds, found), 15)
  }

  /** What the result rows are: active matching medications, in name order, and
      every matching one when fewer than 16 match. */
  lemma SearchRowsMeaning(meds: map<nat, Medication>, term: string, n: nat)
    ensures forall i :: 0 <= i < |SearchRows(meds, term, n)| ==>
              SearchRows(meds, term, n)[i] in meds && MedMatches(meds[SearchRows(meds, term, n)[i]], term)
    ensures SortedByName(meds, SearchRows(meds, term, n))
    ensures |MatchingIds(meds, term, n)| <= 15 ==>
              forall k :: k < n && k in meds && MedMatches(meds[k], term) ==> k in SearchRows(meds, term, n)
  {
    var found := MatchingIds(meds, term, n);
    var sorted := SortByName(meds, found);
    var r := SearchRows(meds, term, n);
    assert r == sorted[..|r|];
    forall i | 0 <= i < |r| ensures r[i] in meds && MedMatches(meds[r[i]], term) {
      assert r[i] == sorted[i] && sorted[i] in sorted;
      SortedMatching(meds, term, n, r[i]);
    }
    SortByNameSorted(meds, found);
    SortedPrefix(meds, sorted, |r|);
    if |found| <= 15 {
      SortedComplete(meds, term, n);
    }
  }

  /** The cut keeps the first by name: there are min(15, matches) rows, and every
      matching medication left out comes after every row shown. */
  lemma SearchRowsFirst(meds: map<nat, Medication>, term: string, n: nat)
    ensures var found := MatchingIds(meds, term, n);
            |SearchRows(meds, term, n)| == if |found| <= 15 then |found| else 15
    ensures forall x, y ::
              (x < n && x in meds && MedMatches(meds[x], term) &&
               x !in SearchRows(meds, term, n) && y in SearchRows(meds, term, n)) ==>
              NameOrder(meds, y, x)
  {
    var found := MatchingIds(meds, term, n);
    var sorted := SortByName(meds, found);
    var rows := SearchRows(meds, term, n);
    assert |sorted| == |multiset(sorted)| == |multiset(found)| == |found|;
    SortByNameSorted(meds, found);
    assert rows == sorted[..|rows|];
    forall x, y | x < n && x in meds && MedMatches(meds[x], term) && x !in rows && y in rows
      ensures NameOrder(meds, y, x)
    {
      assert x in multiset(found);
      assert x in sorted;
      SortedLeftOut(meds, sorted, |rows|, x, y);
    }
  }

  /** In a list in name order, an element beyond the first m comes after every
      element within them. */
  lemma SortedLeftOut(meds: map<nat, Medication>, s: seq<nat>, m: nat, x: nat, y: nat)
    requires AllIn(meds, s) && SortedByName(meds, s) && m <= |s|
    requires x in s && x !in s[..m] && y in s[..m]
    ensures NameOrder(meds, y, x)
  {
    var p :| 0 <= p < |s| && s[p] == x;
    var q :| 0 <= q < m && s[..m][q] == y;
    assert s[q] == y;
  }

  /** Sorting keeps only matching medications. */
  lemma SortedMatching(meds: map<nat, Medication>, term: string, n: nat, x: nat)
    requires x in SortByName(meds, MatchingIds(meds, term, n))
    ensures x in meds && MedMatches(meds[x], term)
  {
    var found := MatchingIds(meds, term, n);
    assert x in multiset(SortByName(meds, found));
    assert x in multiset(found);
  }

  /** A prefix of a list in name order is in name order. */
  lemma SortedPrefix(meds: map<nat, Medication>, s: seq<nat>, m: nat)
    requires AllIn(meds, s) && SortedByName(meds, s) && m <= |s|
    ensures AllIn(meds, s[..m]) && SortedByName(meds, s[..m])
  {
  }

  /** When at most 15 match, the result holds every matching medication. */
  lemma SortedComplete(meds: map<nat, Medication>, term: string, n: nat)
    requires |MatchingIds(meds, term, n)| <= 15
    ensures forall k :: k < n && k in meds && MedMatches(meds[k], term) ==> k in SearchRows(meds, term, n)
  {
    var found := MatchingIds(meds, term, n);
    var sorted := SortByName(meds, found);
    assert |sorted| == |found|;
    assert SearchRows(meds, term, n) == sorted;
    forall k | k < n && k in meds && MedMatches(meds[k], term) ensures k in sorted {
      assert k in multiset(found);
    }
  }

  /** The `prescriptions`, `prescription_items` and `medications` tables, with the
      next id of each. */
  class PrescriptionStore {
    var prescriptions: map<nat, Prescription>
    var items: map<nat, PrescriptionItem>
    var medications: map<nat, Medication>
    var nextPrescription: nat
    var nextItem: nat
    var nextMedication: nat

    /** Keys are ids below the next id, and every item is owned. */
    predicate Valid()
      reads this
    {
      (forall k :: k in prescriptions ==> k < nextPrescription && prescriptions[k].id == k) &&
      (forall k :: k in items ==> k < nextItem && items[k].id == k) &&
      (forall k :: k in medications ==> k < nextMedication && medications[k].id == k) &&
      ItemsOwned(prescriptions, items, medications)
    }

    constructor ()
      ensures Valid() && prescriptions == map[] && items == map[] && medications == map[]
    {
      prescriptions := map[];
      items := map[];
      medications := map[];
      nextPrescription := 0;
      nextItem := 0;
      nextMedication := 0;
    }

    /** `dispense_medication` of item `id` by `user` at `now`, a POST or not, with the
        item looked up on every request. */
    method Dispense(isPost: bool, id: nat, user: nat, now: int) returns (resp: Response)
      requires Valid()
      modifies this
      ensures Valid()
      ensures resp == DispenseResponse(old(items), isPost, id)
      ensures medications == old(medications) && nextPrescription == old(nextPrescription)
      ensures nextItem == old(nextItem) && nextMedication == old(nextMedication)
      ensures !isPost || id !in old(items) ==> items == old(items) && prescriptions == old(prescriptions)
      ensures isPost && id in old(items) ==>
                items == DispenseItems(old(items), id, user, now) &&
                prescriptions == DispensePrescriptions(old(prescriptions), old(items), id, user, now)
    {
      if id !in items {
        return NotFound;
      }
      var pid := items[id].prescription;
      if isPost && !items[id].isDispensed {
        var it := items[id];
        it := it.(isDispensed := true);
        it := it.(dispensedDate := Some(now));
        it := it.(dispensedBy := Some(user));
        items := items[id := it];
        var p := prescriptions[pid];
        if AllDispensed(items, pid) {
          p := p.(status := Dispensed);
        } else {
          p := p.(status := Partial);
        }
        prescriptions := prescriptions[pid := p];
      }
      resp := Redirect(ById("prescription_detail", pid));
    }

    /** `add_prescription_item` on prescription `pid`. */
    method AddItem(pid: nat, sub: Submission<ItemForm>) returns (resp: Response)
      requires Valid()
      modifies this
      ensures Valid()
      ensures prescriptions == old(prescriptions) && medications == old(medications)
      ensures nextPrescription == old(nextPrescription) && nextMedication == old(nextMedication)
      ensures pid !in old(prescriptions) ==> resp == NotFound && items == old(items) && nextItem == old(nextItem)
      ensures pid in old(prescriptions) && !(sub.Post? && sub.fieldsOk && ItemFormValid(old(medications), sub.form)) ==>
                resp == Render && items == old(items) && nextItem == old(nextItem)
      ensures pid in old(prescriptions) && sub.Post? && sub.fieldsOk && ItemFormValid(old(medications), sub.form) ==>
                items == old(items)[old(nextItem) := NewItem(old(nextItem), pid, sub.form)] &&
                nextItem == old(nextItem) + 1 && resp == Redirect(ById("add_prescription_item", pid))
    {
      if pid !in prescriptions {
        return NotFound;
      }
      if sub.Get? || !sub.fieldsOk || !ItemFormValid(medications, sub.form) {
        return Render;
      }
      items := items[nextItem := NewItem(nextItem, pid, sub.form)];
      nextItem := nextItem + 1;
      resp := Redirect(ById("add_prescription_item", pid));
    }

    /** `new_prescription` for consultation `cid` by `user`, with the existence check
        redirecting to the consultation's prescription. */
    method NewPrescription(consultations: seq<Consultation>, patients: seq<Patient>, cid: nat,
                           sub: Submission<PrescriptionForm>, user: nat, audit: AuditLog)
      returns (resp: Response)
      requires Valid()
      requires forall i :: 0 <= i < |consultations| ==> consultations[i].patient < |patients|
      modifies this, audit
      ensures Valid()
      ensures items == old(items) && medications == old(medications)
      ensures nextItem == old(nextItem) && nextMedication == old(nextMedication)
      ensures OnePerConsultation(old(prescriptions)) ==> OnePerConsultation(prescriptions)
      ensures cid >= |consultations| ==>
                resp == NotFound && prescriptions == old(prescriptions) && audit.entries == old(audit.entries)
      ensures cid < |consultations| && HasPrescription(old(prescriptions), cid) ==>
                Some(resp) == ExistingGuard(old(prescriptions), cid, old(nextPrescription)) &&
                prescriptions == old(prescriptions) && audit.entries == old(audit.entries)
      ensures cid < |consultations| && !HasPrescription(old(prescriptions), cid) && !(sub.Post? && sub.fieldsOk) ==>
                resp == Render && prescriptions == old(prescriptions) && audit.entries == old(audit.entries)
      ensures cid < |consultations| && !HasPrescription(old(prescriptions), cid) && sub.Post? && sub.fieldsOk ==>
                var c := consultations[cid];
                var id := old(nextPrescription);
                var p := NewPrescriptionRow(id, cid, c.patient, user, sub.form);
                prescriptions == old(prescriptions)[id := p] && nextPrescription == id + 1 &&
                audit.entries == old(audit.entries) +
                  [ViewEntry(user, Create, "Prescription", id, "New prescription for patient: " + FullName(patients[c.patient]))] &&
                resp == Redirect(ById("add_prescription_item", id))
    {
      if cid >= |consultations| {
        return NotFound;
      }
      var guard := ExistingGuard(prescriptions, cid, nextPrescription);
      if guard.Some? {
        return guard.value;
      }
      if sub.Get? || !sub.fieldsOk {
        return Render;
      }
      var c := consultations[cid];
      var id := nextPrescription;
      var p := NewPrescriptionRow(id, cid, c.patient, user, sub.form);
      if OnePerConsultation(prescriptions) {
        NewPrescriptionKeepsOne(prescriptions, id, p);
      }
      prescriptions := prescriptions[id := p];
      nextPrescription := id + 1;
      audit.Create(ViewEntry(user, Create, "Prescription", id, "New prescription for patient: " + FullName(patients[c.patient])));
      resp := Redirect(ById("add_prescription_item", id));
    }

    /** The intended `search_medications_api`: nothing for a term shorter than two
        characters, otherwise one entry per row of the query, in its order. */
    method SearchMedications(term: string) returns (results: seq<MedResult>)
      requires Valid()
      ensures |term| < 2 ==> results == []
      ensures |term| >= 2 ==>
                var rows := SearchRows(medications, term, nextMedication);
                |results| == |rows| &&
                forall i :: 0 <= i < |rows| ==> results[i] == MedResultOf(medications[rows[i]])
      ensures |results| <= 15
    {
      if |term| < 2 {
        return [];
      }
      var meds := medications;
      var rows := SearchRows(meds, term, nextMedication);
      results := [];
      for i := 0 to |rows|
        invariant |results| == i
        invariant forall j :: 0 <= j < i ==> results[j] == MedResultOf(meds[rows[j]])
      {
        results := results + [MedResultOf(meds[rows[i]])];
      }
    }
  }

  /** Adding an item does not recompute the status: a dispensed prescription that
      gets a new item stays marked dispensed although one of its items is not. */
  lemma AddItemKeepsStaleStatus(prescriptions: map<nat, Prescription>, items: map<nat, PrescriptionItem>,
                                pid: nat, next: nat, f: ItemForm)
    requires pid in prescriptions && prescriptions[pid].status == Dispensed
    ensures !AllDispensed(items[next := NewItem(next, pid, f)], pid)
  {
    var items' := items[next := NewItem(next, pid, f)];
    assert next in items' && items'[next].prescription == pid && !items'[next].isDispensed;
  }

  /** A new prescription keeps one prescription per consultation when the
      consultation had none. */
  lemma NewPrescriptionKeepsOne(prescriptions: map<nat, Prescription>, id: nat, p: Prescription)
    requires OnePerConsultation(prescriptions) && id !in prescriptions
    requires !HasPrescription(prescriptions, p.consultation)
    ensures OnePerConsultation(prescriptions[id := p])
  {
  }
}
