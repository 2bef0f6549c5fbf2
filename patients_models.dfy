/** The `Patient` record: its fields and defaults, `full_name`, `age`,
    `get_age_group` and the phone-number validator. */
module PatientsModels {

  import opened Wrappers
  import opened Strings
  import opened Dates

  datatype Gender = Male | Female | Other

  /** `BLOOD_GROUP_CHOICES`. */
  datatype BloodGroup = APos | ANeg | BPos | BNeg | ABPos | ABNeg | OPos | ONeg | UnknownGroup

  /** The fields of `Patient` the core reads or writes. `nationalId` is nullable and
      unique where present; `mrn` is unique. */
  datatype Patient = Patient(
    id: nat,
    mrn: string,
    firstName: string,
    lastName: string,
    middleName: string,
    dateOfBirth: Date,
    gender: Gender,
    bloodGroup: BloodGroup,
    phoneNumber: string,
    county: string,
    nationalId: Option<string>,
    createdBy: Option<nat>,
    isActive: bool)

  /** The editable fields of `PatientRegistrationForm`: every field but mrn,
      created_by, the timestamps and is_active. */
  datatype PatientForm = PatientForm(
    firstName: string,
    lastName: string,
    middleName: string,
    dateOfBirth: Date,
    gender: Gender,
    bloodGroup: BloodGroup,
    phoneNumber: string,
    county: string,
    nationalId: Option<string>)

  const DefaultBloodGroup: BloodGroup := UnknownGroup
  const DefaultCounty: string := "Baringo"

  /** `form.save(commit=False)` on a new record: the form's fields, the model
      defaults for the rest (is_active true), no MRN and no creator yet. */
  function FromForm(id: nat, f: PatientForm): (p: Patient)
    ensures p.id == id && p.isActive && p.createdBy.None? && p.mrn == ""
    ensures p.firstName == f.firstName && p.lastName == f.lastName && p.middleName == f.middleName
    ensures p.phoneNumber == f.phoneNumber && p.nationalId == f.nationalId
  {
    Patient(id, "", f.firstName, f.lastName, f.middleName, f.dateOfBirth, f.gender,
            f.bloodGroup, f.phoneNumber, f.county, f.nationalId, None, true)
  }

  /** A bound form on an existing record, saved: the form's fields replace the
      editable ones; id, mrn, creator and is_active stay. */
  function ApplyForm(p: Patient, f: PatientForm): (q: Patient)
    ensures q.id == p.id && q.mrn == p.mrn && q.createdBy == p.createdBy && q.isActive == p.isActive
    ensures q.firstName == f.firstName && q.lastName == f.lastName && q.phoneNumber == f.phoneNumber
    ensures q.nationalId == f.nationalId
  {
    p.(firstName := f.firstName, lastName := f.lastName, middleName := f.middleName,
       dateOfBirth := f.dateOfBirth, gender := f.gender, bloodGroup := f.bloodGroup,
       phoneNumber := f.phoneNumber, county := f.county, nationalId := f.nationalId)
  }

  /** The values an unbound registration form starts from: the model defaults. */
  function BlankForm(dateOfBirth: Date): (f: PatientForm)
    ensures f.bloodGroup == DefaultBloodGroup && f.county == DefaultCounty
    ensures f.nationalId.None?
  {
    PatientForm("", "", "", dateOfBirth, Male, DefaultBloodGroup, "", DefaultCounty, None)
  }

  /** `full_name`: first and last name joined by one space. */
  function FullName(p: Patient): string
  {
    p.firstName + " " + p.lastName
  }

  /** The middle name is not part of the full name. */
  lemma MiddleNameIgnored(p: Patient, m: string)
    ensures FullName(p.(middleName := m)) == FullName(p)
  {
  }

  /** When the first name has no space, the full name gives back both names:
      the text before its first space and the text after it. */
  lemma FullNameSplits(p: Patient)
    requires ' ' !in p.firstName
    ensures BeforeFirst(FullName(p), ' ') == p.firstName
    ensures FullName(p)[|p.firstName| + 1..] == p.lastName
  {
    BeforeFirstOf(p.firstName, ' ', p.lastName);
    assert FullName(p) == p.firstName + [' '] + p.lastName;
  }

  /** `age`: the difference of the years, less one when today's (month, day) comes
      before the birthday's. */
  function Age(born: Date, today: Date): int
  {
    today.year - born.year - (if MonthDayBefore(today, born) then 1 else 0)
  }

  /** The birthday of `born` in year y, kept as a (year, month, day) triple; for a
      29 February birth in a common year it is not a valid date, and the lemmas below
      only compare it field by field. */
  function Birthday(born: Date, y: int): Date
  {
    Date(y, born.month, born.day)
  }

  /** The age is the number of birthdays up to today: the birthday of that age has
      passed (or is today) and the next one has not. */
  lemma AgeCountsBirthdays(born: Date, today: Date)
    ensures NotAfter(Birthday(born, born.year + Age(born, today)), today)
    ensures Before(today, Birthday(born, born.year + Age(born, today) + 1))
  {
  }

  /** The age is 0 on the day of birth and k on the k-th birthday. */
  lemma AgeOnBirthday(born: Date, k: int)
    ensures Age(born, born) == 0
    ensures Age(born, Birthday(born, born.year + k)) == k
  {
  }

  /** The day before a birthday is one year short. */
  lemma AgeEveOfBirthday(born: Date, today: Date, k: int)
    requires today.year == born.year + k && MonthDayBefore(today, born)
    ensures Age(born, today) == k - 1
  {
  }

  /** Age never decreases as today advances, and is never negative from the birth
      date on. */
  lemma AgeMonotone(born: Date, t1: Date, t2: Date)
    requires NotAfter(t1, t2)
    ensures Age(born, t1) <= Age(born, t2)
  {
  }

  lemma AgeNonNegative(born: Date, today: Date)
    requires NotAfter(born, today)
    ensures Age(born, today) >= 0
  {
    AgeMonotone(born, born, today);
  }

  datatype AgeGroup = Infant | Toddler | Child | Adolescent | Adult | Elderly

  /** `get_age_group`: the first band whose bound the age is under. */
  function GetAgeGroup(age: int): (g: AgeGroup)
    ensures g == Infant <==> age < 1
    ensures g == Toddler <==> 1 <= age < 5
    ensures g == Child <==> 5 <= age < 13
    ensures g == Adolescent <==> 13 <= age < 18
    ensures g == Adult <==> 18 <= age < 60
    ensures g == Elderly <==> 60 <= age
  {
    if age < 1 then Infant
    else if age < 5 then Toddler
    else if age < 13 then Child
    else if age < 18 then Adolescent
    else if age < 60 then Adult
    else Elderly
  }

  function Rank(g: AgeGroup): nat
  {
    match g
    case Infant => 0
    case Toddler => 1
    case Child => 2
    case Adolescent => 3
    case Adult => 4
    case Elderly => 5
  }

  /** An older patient is never in a younger group. */
  lemma AgeGroupMonotone(a: int, b: int)
    requires a <= b
    ensures Rank(GetAgeGroup(a)) <= Rank(GetAgeGroup(b))
  {
  }

  /** `RegexValidator(r'^\+?254\d{9}$')`, which runs `re.search`: an optional '+',
      "254", nine digits, then the end of the text or a single final newline (the
      way Python's `$` matches). */
  predicate ValidPhone(s: string)
  {
    var rest := if |s| > 0 && s[0] == '+' then s[1..] else s;
    |rest| >= 12 && rest[..3] == "254" && AllDigits(rest[3..12]) &&
    (|rest| == 12 || (|rest| == 13 && rest[12] == '\n'))
  }

  /** The accepted numbers, built up: every optional '+', "254", nine digits and
      optional final newline is accepted. */
  lemma PhoneAccepted(plus: bool, digits: string, newline: bool)
    requires |digits| == 9 && AllDigits(digits)
    ensures ValidPhone((if plus then "+" else "") + "254" + digits + (if newline then "\n" else ""))
  {
    var r := "254" + digits + (if newline then "\n" else "");
    assert |r| == if newline then 13 else 12;
    assert r[..3] == "254" && r[3..12] == digits;
    assert newline ==> r[12] == '\n';
    var s := (if plus then "+" else "") + "254" + digits + (if newline then "\n" else "");
    if plus {
      assert s == "+" + r;
      assert s[0] == '+' && s[1..] == r;
    } else {
      assert s == r && s[0] == '2';
    }
  }

  /** Nothing else is accepted: an accepted number splits into those parts. */
  lemma PhoneShape(s: string) returns (plus: bool, digits: string, newline: bool)
    requires ValidPhone(s)
    ensures |digits| == 9 && AllDigits(digits)
    ensures s == (if plus then "+" else "") + "254" + digits + (if newline then "\n" else "")
  {
    plus := |s| > 0 && s[0] == '+';
    var rest := if plus then s[1..] else s;
    newline := |rest| == 13;
    digits := rest[3..12];
    assert rest == "254" + digits + (if newline then "\n" else "");
    assert s == (if plus then "+" else "") + rest;
  }
}
