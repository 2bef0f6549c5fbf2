# Baringo County Hospital management system: a verified model of its rules

baringo_hms is a Django application for a county hospital. Staff log in under one of seven roles. They register patients, who get a medical record number (MRN) of the form `BCH-<year>-<NNNNN>`. They record consultations with vital signs, order lab tests, and write prescriptions that a pharmacist dispenses item by item. There are monthly reports, and every modifying request lands in an audit log.

This project models the rules underneath those views in Dafny and proves what they promise:

- **MRN allocation** (module `Mrn`). The new MRN is one more than the suffix of the text-greatest MRN of the year, or 1 for the first of a year. It is fresh while suffixes stay five digits. N registrations in a new year give 00001..N. A sixth digit breaks the scheme: the allocator repeats BCH-<year>-100000.
- **Patients** (`PatientsModels`, `PatientsViews`):
  - age, age group, full name and the phone validator;
  - registration and editing behind the edit permission, each a method on the `patients` table that keeps MRNs and national ids unique and appends one audit row;
  - the active-only, field-by-field search list, newest first;
  - the ten-result search API.
- **Accounts** (`AccountsModels`, `AccountsViews`, `AccountsForms`):
  - role capabilities;
  - the failed-login counter, which locks an account at five failures;
  - sign-in with its session row, and logout, which closes the latest matching session only;
  - user defaults, reset-token validity and the password confirmation check.
- **Consultations** (`ConsultationsModels`, `ConsultationsViews`):
  - the vital-sign ranges and the BMI computed on save;
  - who becomes the doctor of a new consultation;
  - the vitals prefilled from the latest visit;
  - lab orders;
  - the filtered list of at most 50 rows.
- **Prescriptions** (`PrescriptionsModels`, `PrescriptionsViews`):
  - the status machine of dispensing (an item becomes dispensed once; its prescription becomes `dispensed` or `partial`);
  - adding items;
  - one prescription per consultation;
  - cascade and protect on delete;
  - the medication search in name order.
- **Reports** (`Reports`): the first and last day of a month, and the age histogram of a month's consultations.
- **Audit middleware** (`Middleware`, `Audit`, `Requests`): which requests are logged, how the path is classified as DELETE, CREATE or UPDATE, the row written, and the client address taken from `X-Forwarded-For`.

Database tables are sequences whose position is the row id (patients, consultations, lab orders, users, sessions, audit rows). Tables from which rows are deleted are maps keyed by id (prescriptions, items, medications). A view that changes tables is a method of a class holding them. Its postcondition gives the new state and the response, through pure functions that the lemmas speak about. Clocks are parameters: `today: Date`, `now: int`, `year: nat`.

## Model

| member | source | states |
|---|---|---|
| Strings.ParseNat | patients/views.py:100 | `int()` of a suffix succeeds exactly on a non-empty string of ASCII digits, and gives its decimal value |
| Strings.AfterLast | patients/views.py:100 | `split('-')[-1]` is the longest tail without a '-', preceded by a '-' when it is not the whole string |
| Strings.Format05Facts | patients/views.py:105 | `{n:05d}` is a digit string denoting n; it has exactly five characters iff n < 100000, never fewer |
| Strings.BeforeFirst | accounts/views.py:50 | `split(',')[0]` is the longest prefix without a ',', followed by a ',' when it is not the whole string |
| Mrn.SameYear | patients/views.py:95-96 | the year filter keeps exactly the stored MRNs that start with `BCH-<year>` |
| Mrn.Greatest | patients/views.py:97 | `order_by('-mrn').first()` is a member no other member is above in text order, and is None only for no rows |
| Mrn.FormatMrnParts | patients/views.py:105 | a formatted MRN starts with `BCH-<year>-`, its text after the last '-' parses back to n, and it has a five-digit suffix iff n < 100000 |
| Mrn.FirstOfYear | patients/views.py:95-103 | with no MRN of the year stored, the MRN allocated is `BCH-<year>-00001` |
| Mrn.FromGreatest | patients/views.py:95-102 | otherwise the number is the suffix of the text-greatest MRN of the year plus one |
| Mrn.FromGreatestUnparsable | patients/views.py:99-100 | a non-numeric suffix on that MRN makes allocation fail with the ValueError of `int()` |
| Mrn.OtherYearsIgnored | patients/views.py:95-97 | two tables with the same MRNs of the year allocate the same MRN, whatever else they hold |
| Mrn.NewYearStartsAtOne | patients/views.py:94-105 | after any run of another four-digit year, the new year starts again at 00001 |
| Mrn.Fresh | patients/views.py:93-105 | while every MRN of the year has a five-digit suffix, allocation succeeds and gives an MRN not yet stored |
| Mrn.RunFromEmptyYear | patients/views.py:93-107 | N registrations in a year that had none allocate 00001..N in order, without gaps, for N < 100000 |
| Mrn.SixDigitCollision | patients/views.py:96-105 | after 99999 and 100000 the text-greatest MRN is 99999, so 100000 is allocated again |
| Dates.DaysInMonth | reports/views.py:73-77 | Gregorian month lengths: 29 exactly for February of a leap year, 31 exactly for the seven long months |
| Dates.PrevDay | reports/views.py:75-77 | `- timedelta(days=1)` gives a valid earlier date, and fails only for 1 January of year 1 |
| Dates.PrevDayImmediate | reports/views.py:75-77 | no valid date lies strictly between the day before and the day |
| Requests.ClientIp | accounts/views.py:47-53 | with a non-empty X-Forwarded-For the address is a comma-free prefix of it; otherwise it is REMOTE_ADDR, possibly missing |
| Requests.ClientIpFirstHop | security/middleware.py:45-51 | for a header `a,rest` the address is `a`; for a header without a comma it is the header |
| Requests.StoredIp | accounts/models.py:56 | an address column stores NULL for a missing or empty address and the text otherwise |
| Requests.LeadingCommaStoresNothing | accounts/views.py:47-53 | a client-sent X-Forwarded-For that starts with a comma yields "", which is stored as NULL whatever REMOTE_ADDR is |
| Audit.ActionCodeInjective | security/models.py:8-17 | the eight actions are stored under eight different codes |
| Audit.ViewEntry | patients/views.py:112-118 | a row written by a view records the user and object, with no address and an empty user agent |
| Audit.AuditLog.Create | patients/views.py:112-118 | appending a row keeps every earlier row |
| AccountsModels.Capabilities | accounts/models.py:40-47 | patient view iff admin, doctor, nurse or records officer; patient edit iff admin, doctor or nurse; report view iff admin or records officer |
| AccountsModels.EditImpliesView | accounts/models.py:40-44 | every role that may edit patients may view them |
| AccountsModels.NoCapabilities | accounts/models.py:40-47 | pharmacists, lab technicians and receptionists get none of the three capabilities |
| AccountsModels.NewUser | accounts/models.py:19-27 | a new user is a receptionist with no failed attempts, unlocked and offline |
| AccountsModels.OpenSession | accounts/views.py:31-36 | a new session row is active, with no logout time and the login time `now` |
| AccountsModels.TokenValidity | accounts/models.py:80-81 | a used token is never valid; an unused one is valid exactly while now is before its expiry |
| AccountsModels.ExpiredStaysExpired | accounts/models.py:80-81 | a token that is no longer valid never becomes valid again |
| AccountsViews.Lookup | accounts/views.py:57-59 | `User.objects.get(username=…)` finds the user with that username, or reports that there is none |
| AccountsViews.Failed | accounts/views.py:60-62 | a failure adds exactly one attempt; the account is locked iff it was locked or the count reaches five; nothing else changes |
| AccountsViews.FailedLoginEffect | accounts/views.py:57-66 | a failed login changes only the named user, by one attempt; an unknown username changes nobody |
| AccountsViews.FailedLoginKeepsLocks | accounts/views.py:61-62 | no failed login ever unlocks an account |
| AccountsViews.LockoutAfterFive | accounts/views.py:57-64 | from a fresh account, k failures leave k attempts, and the account is locked iff k ≥ 5 |
| AccountsViews.SignedInUsers | accounts/views.py:39-42 | sign-in sets the user online with that address and zero attempts, keeps the lock and role, and leaves other users alone |
| AccountsViews.LatestActiveSession | accounts/views.py:79-83 | `.latest('login_time')` over this user's active rows under the key: a matching row no matching row is later than, None iff there is none |
| AccountsViews.LogoutClosesOnlyLatest | accounts/views.py:78-88 | logout marks only that session inactive, with logout time now, and leaves every other row and field unchanged |
| AccountsViews.LogoutCount | accounts/views.py:78-88 | logout reduces the user's active sessions under the key by exactly one, or by none when there is none |
| AccountsViews.UserList | accounts/views.py:166-171 | only an administrator gets the list; everyone else is redirected to the dashboard |
| AccountsViews.AccountStore.FormInvalid | accounts/views.py:55-69 | `form_invalid` updates the users table as FailedLogin says and touches no session |
| AccountsViews.AccountStore.FormValid | accounts/views.py:18-45 | locked out exactly when the account is locked; otherwise rejected with nothing changed exactly when the address would be stored as NULL, and signed in exactly when it would not, with one session row appended and the user updated as SignedInUsers says |
| AccountsViews.AccountStore.Logout | accounts/views.py:72-96 | the sessions table becomes LoggedOutSessions and the user goes offline |
| AccountsForms.Clean | accounts/forms.py:53-61 | the mismatch error is raised iff both passwords are non-empty and differ; otherwise the data comes back unchanged |
| AccountsForms.EmptyNeverMismatch | accounts/forms.py:58 | an empty or missing password never raises the mismatch error |
| AccountsForms.OldPasswordIgnored | accounts/forms.py:53-61 | the old password does not affect whether `clean` raises |
| PatientsModels.FromForm | patients/models.py:66-69 | a new record takes the form's fields and is active, with no MRN and no creator yet |
| PatientsModels.ApplyForm | patients/views.py:140-142 | saving an edit replaces the editable fields and keeps id, MRN, creator and active flag |
| PatientsModels.BlankForm | patients/models.py:38-46 | the defaults: blood group UNKNOWN, county Baringo, no national id |
| PatientsModels.MiddleNameIgnored | patients/models.py:83-84 | the middle name is not part of the full name |
| PatientsModels.FullNameSplits | patients/models.py:83-84 | for a first name without a space, the full name splits back into the first and last name |
| PatientsModels.AgeCountsBirthdays | patients/models.py:86-90 | the age is the number of birthdays passed: that birthday is not after today, and the next is after it |
| PatientsModels.AgeOnBirthday | patients/models.py:88-90 | the age is 0 on the birth date and k on the k-th birthday |
| PatientsModels.AgeEveOfBirthday | patients/models.py:88-90 | before this year's birthday the age is one less than the difference of the years |
| PatientsModels.AgeMonotone | patients/models.py:88-90 | the age never decreases as today advances |
| PatientsModels.AgeNonNegative | patients/models.py:88-90 | the age is never negative from the birth date on |
| PatientsModels.GetAgeGroup | patients/models.py:92-105 | each band holds exactly the ages of its bounds (<1, 1-4, 5-12, 13-17, 18-59, ≥60), so every age has exactly one group |
| PatientsModels.AgeGroupMonotone | patients/models.py:92-105 | an older patient is never in a younger group |
| PatientsModels.PhoneAccepted | patients/models.py:41 | every optional '+', "254", nine digits and optional final newline is accepted |
| PatientsModels.PhoneShape | patients/models.py:41 | every accepted number has that shape, with ASCII digits, and nothing else (non-ASCII digits are left out) |
| PatientsViews.FindActive | patients/views.py:132 | `get_object_or_404(mrn=…, is_active=True)` finds an active patient with the MRN, or there is none |
| PatientsViews.Registered | patients/views.py:91-107 | the registered row takes the next id, the allocated MRN and the acting user as creator, and is active |
| PatientsViews.RegisterKeepsValid | patients/models.py:32-62 | a row with a free MRN and national id keeps ids as positions and MRNs and national ids unique |
| PatientsViews.EditKeepsValid | patients/views.py:140-142 | an edit whose national id is free apart from the row keeps the table valid |
| PatientsViews.PatientList | patients/views.py:17-44 | a patient is listed iff active and, for a non-empty term, matching the chosen field(s) case-insensitively |
| PatientsViews.PatientListNewestFirst | patients/models.py:73 | the listed patients come newest registration first |
| PatientsViews.PatientListDecreasing | patients/models.py:73 | along the whole list, patient ids strictly decrease |
| PatientsViews.InactiveNeverListed | patients/views.py:17 | an inactive patient is never listed, whatever the search |
| PatientsViews.ApiRows | patients/views.py:171-175 | the search API's query keeps exactly the patients whose MRN, names or national id contain the term |
| PatientsViews.Take | patients/views.py:176 | a slice `[:n]` is the prefix of min(n, rows) rows |
| PatientsViews.SearchApi | patients/views.py:160-188 | terms under two characters give [], others the first ten matches as id, MRN, full name, age and gender |
| PatientsViews.PatientTable.Register | patients/views.py:83-124 | an invalid form changes nothing; an unparsable suffix or a taken MRN fails with no row and no audit; otherwise one Registered row and one CREATE audit row |
| PatientsViews.PatientTable.Edit | patients/views.py:127-157 | unknown MRN gives 404; without edit permission a redirect and no change; a valid form replaces the row via ApplyForm plus one UPDATE audit row |
| ConsultationsModels.SignInRange | consultations/models.py:39-43 | each validated sign passes exactly inside its inclusive bounds: heart rate 30-200, systolic 70-250, diastolic 40-150, oxygen 50-100 |
| ConsultationsModels.UnvalidatedSignsPass | consultations/models.py:38-45 | unrecorded validated signs and any temperature, respiratory rate, weight or height pass |
| ConsultationsModels.WithSavedBmi | consultations/models.py:77-82 | with a truthy weight and height bmi becomes 10000·w/h²; otherwise the record is unchanged; no other field ever changes |
| ConsultationsModels.BmiDerived | consultations/models.py:80-81 | BMI times the squared height gives 10000 times the weight |
| ConsultationsModels.BmiPositive | consultations/models.py:80-81 | a positive weight gives a positive BMI |
| ConsultationsModels.SaveIdempotent | consultations/models.py:77-82 | saving twice gives what saving once gives |
| ConsultationsModels.BlankLabOrderForm | consultations/models.py:122 | an unbound lab order form starts at priority routine |
| ConsultationsViews.FindByMrn | consultations/views.py:53 | `get_object_or_404(Patient, mrn=…)` finds a patient with the MRN, active or not, or there is none |
| ConsultationsViews.Recorded | consultations/views.py:58-62 | the new consultation has the URL's patient, the user as doctor iff the user is a doctor, the user as creator, today's date and no BMI yet |
| ConsultationsViews.AppendKeepsChronological | consultations/models.py:28-29 | a row stamped no earlier than the last keeps the table in visit order |
| ConsultationsViews.LatestVisit | consultations/views.py:77 | the chosen consultation is the patient's with no later visit date, None iff the patient has none |
| ConsultationsViews.PrefillOf | consultations/views.py:76-88 | the prefill copies the six listed vitals of that consultation, and is empty iff the patient has no consultation |
| ConsultationsViews.PrefillFromPatient | consultations/views.py:79-87 | prefilled weight and height were recorded by a consultation of that patient |
| ConsultationsViews.ConsultationsMatching | consultations/views.py:15-25 | a consultation is a candidate iff it is on the date when one is given and of the doctor when one is given |
| ConsultationsViews.MatchingDecreasing | consultations/views.py:28 | candidates come newest stored first, without repeats |
| ConsultationsViews.MatchingStrictlyDecreasing | consultations/views.py:28 | along the whole candidate list, positions strictly decrease |
| ConsultationsViews.ConsultationList | consultations/views.py:10-31 | a doctor value that is not empty, "all" or a number fails with ValueError; otherwise at most 50 rows |
| ConsultationsViews.ListedRows | consultations/views.py:18-28 | every listed row passes both filters, and all passing rows are listed when there are at most 50 |
| ConsultationsViews.ListedNewest | consultations/views.py:28 | the list holds min(50, passing) rows, and every passing row left out is older than every row shown |
| ConsultationsViews.ListNewestFirst | consultations/views.py:28 | on a table in visit order the list is by (visit_date, visit_time), latest first |
| ConsultationsViews.OrderedLab | consultations/views.py:106-109 | a lab order gets the URL's consultation, the user as orderer and status ordered |
| ConsultationsViews.ConsultationTable.NewConsultation | consultations/views.py:48-93 | unknown MRN gives 404, an invalid form Render; otherwise one saved Recorded row, one CREATE audit row, and a redirect to it |
| ConsultationsViews.ConsultationTable.OrderLabTest | consultations/views.py:96-119 | unknown consultation gives 404, an invalid form Render; otherwise one OrderedLab row and a redirect to the consultation |
| PrescriptionsModels.FrequencyCodeInjective | prescriptions/models.py:83-91 | the seven frequencies have seven different codes |
| PrescriptionsModels.StatusCodeInjective | prescriptions/models.py:56-62 | the five prescription statuses have five different codes |
| PrescriptionsModels.BlankItemForm | prescriptions/models.py:104-108 | an unbound item form starts with route oral, duration unit days and no refills |
| PrescriptionsModels.NewItem | prescriptions/models.py:109-111 | a new item carries the form's data, is not dispensed, and has no dispense date or dispenser |
| PrescriptionsModels.NewItemValid | prescriptions/models.py:103-107 | an item from a valid form has duration and quantity at least 1 and a stored medication |
| PrescriptionsModels.NewPrescriptionRow | prescriptions/views.py:57-61 | a new prescription has the consultation, its patient, the user as prescriber and status active |
| PrescriptionsModels.DeletePrescription | prescriptions/models.py:99 | deleting a prescription deletes exactly its items and keeps the others unchanged |
| PrescriptionsModels.DeletePrescriptionKeepsOwned | prescriptions/models.py:99 | after the cascade every remaining item still has its prescription and medication |
| PrescriptionsModels.DeleteMedication | prescriptions/models.py:100 | deleting a medication is refused with ProtectedError iff some item names it |
| PrescriptionsModels.DeleteMedicationKeepsOwned | prescriptions/models.py:100 | a medication delete that goes through leaves no item without its medication |
| PrescriptionsViews.RecomputedStatus | prescriptions/views.py:129-134 | the status is dispensed iff every item of the prescription is dispensed, partial otherwise |
| PrescriptionsViews.MarkDispensed | prescriptions/views.py:121-126 | a dispensed item is marked, dated now and attributed to the user; nothing else of it changes |
| PrescriptionsViews.DispenseEffect | prescriptions/views.py:119-134 | dispensing an undispensed item marks it, and sets its prescription's status from the new items alone, whatever it was before |
| PrescriptionsViews.LastItemCompletes | prescriptions/views.py:129-134 | the prescription becomes dispensed iff every other item of it was already dispensed |
| PrescriptionsViews.DispenseAgainChangesNothing | prescriptions/views.py:121-138 | dispensing an already dispensed item changes neither the item nor its prescription |
| PrescriptionsViews.DispenseIdempotent | prescriptions/views.py:121-138 | a second dispense of an item, by anyone at any time, keeps the first record |
| PrescriptionsViews.DispenseFrame | prescriptions/views.py:119-134 | no dispense un-dispenses an item, and every other item and prescription stays as it was |
| PrescriptionsViews.DispenseGetFails | prescriptions/views.py:140 | as written, a GET of the dispense URL fails with UnboundLocalError |
| PrescriptionsViews.DispenseResponse | prescriptions/views.py:118-140 | corrected: 404 iff there is no such item, otherwise a redirect to its prescription, never a server error |
| PrescriptionsViews.DispenseResponseAgreesOnPost | prescriptions/views.py:118-140 | the corrected view answers a POST as the original does |
| PrescriptionsViews.LatestFor | prescriptions/models.py:73 | the newest prescription of a consultation by creation order, None iff the consultation has none |
| PrescriptionsViews.RepeatPrescriptionFails | prescriptions/views.py:50-52 | as written, any new request for a consultation that has a prescription fails with AttributeError |
| PrescriptionsViews.ExistingGuard | prescriptions/views.py:49-52 | corrected: a consultation with a prescription is redirected to one of its prescriptions; one without goes on |
| PrescriptionsViews.ExistingGuardsAgree | prescriptions/views.py:50-52 | the corrected and the original check stop on the same requests |
| PrescriptionsViews.SearchFails | prescriptions/views.py:152 | as written, every search term of two or more characters fails with NameError |
| PrescriptionsViews.MatchingIds | prescriptions/views.py:152-156 | the corrected query keeps exactly the active medications whose name, generic or brand name contains the term, in increasing id order |
| PrescriptionsViews.NameOrderTotal | prescriptions/models.py:46 | any two distinct medications are ordered by name (ties broken by id) |
| PrescriptionsViews.NameOrderAsymmetric | prescriptions/models.py:46 | the name order is asymmetric |
| PrescriptionsViews.NameOrderTransitive | prescriptions/models.py:46 | the name order is transitive |
| PrescriptionsViews.Insert | prescriptions/models.py:46 | inserting an id gives the same ids plus that one |
| PrescriptionsViews.InsertSorted | prescriptions/models.py:46 | inserting into a list in name order keeps it in name order |
| PrescriptionsViews.SortByName | prescriptions/models.py:46 | sorting is a permutation of its input |
| PrescriptionsViews.SortByNameSorted | prescriptions/models.py:46 | sorting a list without repeats puts it in name order |
| PrescriptionsViews.SearchRows | prescriptions/views.py:152-157 | the query returns at most 15 stored medications |
| PrescriptionsViews.SearchRowsMeaning | prescriptions/views.py:152-157 | the rows are matching, in name order, and include every match when at most 15 match |
| PrescriptionsViews.SearchRowsFirst | prescriptions/views.py:152-157 | there are min(15, matches) rows, and every match left out comes after every row shown in name order |
| PrescriptionsViews.PrescriptionStore.Dispense | prescriptions/views.py:113-140 | a POST of an undispensed item updates item and prescription as DispenseItems and DispensePrescriptions say; anything else changes nothing |
| PrescriptionsViews.PrescriptionStore.AddItem | prescriptions/views.py:83-110 | unknown prescription gives 404, an invalid form Render; otherwise exactly one NewItem under the next id, with the status left alone |
| PrescriptionsViews.PrescriptionStore.NewPrescription | prescriptions/views.py:42-80 | unknown consultation gives 404; an existing prescription redirects with nothing created; otherwise one NewPrescriptionRow and one CREATE audit row; one prescription per consultation is kept |
| PrescriptionsViews.PrescriptionStore.SearchMedications | prescriptions/views.py:143-169 | terms under two characters give []; others turn the query rows one by one into id, "name strength", strength, unit and route |
| PrescriptionsViews.AddItemKeepsStaleStatus | prescriptions/views.py:93-95 | a new item on a dispensed prescription leaves it marked dispensed while one of its items is not |
| PrescriptionsViews.NewPrescriptionKeepsOne | prescriptions/views.py:49-61 | creating a prescription only for a consultation without one keeps one prescription per consultation |
| Reports.MonthRange | reports/views.py:70-77 | the range exists iff 1 ≤ year ≤ 9999, 1 ≤ month ≤ 12 and not December 9999; otherwise ValueError |
| Reports.MonthRangeEnds | reports/views.py:73-77 | it runs from day 1 to the month's last day; December ends on 31 December of the same year |
| Reports.MonthRangeCovers | reports/views.py:80 | `visit_date__range` keeps exactly the valid dates of that year and month |
| Reports.Bucket | reports/views.py:162-169 | each age has exactly one key: ≤18, 19-35, 36-50, ≥51 |
| Reports.Histogram | reports/views.py:158 | the histogram has exactly the four keys |
| Reports.CountsAddUp | reports/views.py:160-169 | the four counts add up to the number of ages |
| Reports.HistogramEmpty | reports/views.py:158 | before any consultation, each of the four keys counts zero |
| Reports.HistogramSnoc | reports/views.py:160-169 | one more age adds one under its own key and leaves the other keys unchanged |
| Reports.HistogramTotal | reports/views.py:160-169 | the values of the histogram map add up to the number of ages |
| Reports.CountsPerEntry | reports/views.py:160-161 | k more consultations of one age add k to that bucket and nothing to the others |
| Reports.AgesOf | reports/views.py:160-161 | one age per consultation, that of its patient today |
| Reports.GetAgeDistribution | reports/views.py:154-171 | the loop yields the histogram of the consultations' ages, with the four keys, summing to the number of consultations |
| Middleware.Classify | security/middleware.py:27-34 | DELETE iff the lower-cased path contains "delete"; CREATE iff not and it contains "create" or "add"; UPDATE otherwise |
| Middleware.DeleteWins | security/middleware.py:27-28 | "delete" in any letter case anywhere in the path wins over every other keyword |
| Middleware.EntryFor | security/middleware.py:36-43 | the row records the user, the action, the app name or "Unknown", no object, "method path", the client address as the column stores it (NULL when `get_client_ip` gives None or "") and the user agent |
| Middleware.NotLogged | security/middleware.py:16-24 | anonymous requests, GET and HEAD, and /static/ and /media/ paths are never logged |
| Middleware.LogAfter | security/middleware.py:13-19 | a logged request appends exactly its EntryFor row; earlier rows are untouched; otherwise nothing is appended |
| Middleware.MiddlewareActions | security/middleware.py:27-34 | every row the middleware writes is DELETE, CREATE or UPDATE, never VIEW or LOGIN |
| Middleware.LogAction | security/middleware.py:21-43 | outside /static/ and /media/, `log_action` appends exactly EntryFor's row |
| Middleware.Call | security/middleware.py:11-19 | the response comes back unchanged and the log becomes LogAfter of the old log |

## Left out

- The ORM, pagination, templates, flash messages and URL reversal. Tables are sequences or maps, a rendered page is `Render`, and a redirect is a named target.
- Credential checking and password hashing, which belong to Django's authentication form. `FormValid` and `FormInvalid` are the two branches the login view takes once that form has decided.
- Clocks. `timezone.now()` is a parameter (`today`, `now`, `year`). Timestamps that only record when a row was written (`created_at`, `updated_at`, audit `timestamp`) are not modelled.
- Concurrency. The read-then-write MRN race is outside a sequential model.
- The generic field checks of each Django form (required fields, lengths, choices). They are the `fieldsOk` flag of a POST submission. The validators the core defines are checked on the form's data: the phone regex, the vital ranges, item duration and quantity, the active medication, and national id uniqueness.
- ConsultationsModels.WithSavedBmi: Decimal precision and rounding are not modelled. The stored field has two decimal places and overflows from 100. BMI is an exact real, 10000·weight/height², which equals weight/(height/100)².
- `str.lower()` and `icontains` are ASCII-only here. `int()` accepts ASCII digits only, not the leading sign, surrounding whitespace, underscores or Unicode digits Python also takes.
- The parsing of `year`, `month` and `date` query parameters into numbers and dates. `MonthRange` takes the numbers `int()` produced; a non-numeric year or month raising ValueError is not modelled.
- Tie-breaks the database leaves open are fixed:
  - the latest visit is the one stored last among equal dates;
  - the latest session is the one stored last among equal login times;
  - the newest prescription is the one with the largest id;
  - medications with equal names are ordered by id.
- The consultation list is the stored order reversed. `ListNewestFirst` proves it is ordered by (visit_date, visit_time) when rows were stored in visit order (`Chronological`), which `auto_now_add` gives with a clock that does not go back.
- Views that only read and render are not modelled: patient_detail (including its VIEW audit row), dashboard, profile, prescription_list, prescription_detail, consultation_detail and daily_report. The aggregate statistics of monthly_report (counts, distinct patients, gender counts, the float `avg_daily_visits`, the daily trend) are left out too. `get_age_distribution` is modelled over the month's consultations.
- CSV and PDF generation through reportlab, backups, audit-log listing, seed data, front-end scripts and URL configuration are not part of this model.
- AccountsViews.AccountStore.FormValid: a request whose address `get_client_ip` gives as None or "" has the session row rejected, because the address column is not nullable and an empty address is stored as NULL. This is `SessionRejected`, and the users and sessions tables are unchanged. What Django's `login()` has already done to the session and to `last_login` before that error is not modelled.
- Requests.StoredIp: the IPv6 normalisation a `GenericIPAddressField` applies to addresses containing ':' is not modelled. Any non-empty address is stored as text unchanged, and addresses are not validated.
- PatientsModels.PhoneShape: `\d` in the `str` pattern of `ValidPhone` also matches non-ASCII decimal digits such as Arabic-Indic ones. Only ASCII digits are modelled, so `ValidPhone` rejects some numbers the source accepts, and "nothing else" holds only among ASCII-digit strings.
- PatientsViews.PatientTable.Register: a duplicate MRN rejected by the unique index is modelled as `ServerError("IntegrityError")` with nothing saved. `Mrn.Fresh` shows this cannot happen while suffixes stay five digits.

## Findings

| source | as written | input that shows it | evidently intended | confidence | as-written member | corrected member |
|---|---|---|---|---|---|---|
| prescriptions/views.py:52 | redirects via `consultation.prescription.first()`, but the reverse accessor is `prescriptions` (prescriptions/models.py:64) | any request to new_prescription for a consultation that already has a prescription: AttributeError | redirect to the consultation's existing prescription | high, not executed | PrescriptionsViews.RepeatPrescriptionFails | PrescriptionsViews.ExistingGuard |
| prescriptions/views.py:140 | reads `item`, which only the POST branch binds | a GET of the dispense URL of an existing item: UnboundLocalError | look the item up on every request and redirect to its prescription | high, not executed | PrescriptionsViews.DispenseGetFails | PrescriptionsViews.DispenseResponse |
| prescriptions/views.py:152 | calls `models.Q`, but the module never imports `models` | any search term of two or more characters: NameError | filter active medications by name, generic name or brand name, at most 15 | high, not executed | PrescriptionsViews.SearchFails | PrescriptionsViews.SearchRowsMeaning |
