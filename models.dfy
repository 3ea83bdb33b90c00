/** Record shapes of the patient-tracking store and the column constraints
    declared on them: primary keys, unique columns, non-null columns (fields
    that are not `Option`) and column defaults. */
module Models {

  /** Primary and foreign keys: the text of a UUID. */
  type Uuid = string
  /** A calendar date, as a day number. */
  type Date = int
  /** A time-zone-aware timestamp, as seconds. */
  type Timestamp = int

  datatype Option<T> = None | Some(value: T)

  /** The largest value a PostgreSQL INTEGER column (32-bit, signed) holds,
      such as CallHistory.call_duration_minutes. */
  const MaxInteger: int := 0x7fff_ffff

  /** Column default of Patient.status. */
  const DefaultPatientStatus: string := "active"

  /** Identity record; `email` is unique and non-null. */
  datatype Person = Person(
    personId: Uuid,
    firstName: string,
    lastName: string,
    email: string,
    phone: Option<string>,
    isActive: bool)

  /** Lookup entity; `name` is unique and non-null. */
  datatype MedicalCondition = MedicalCondition(
    medicalConditionId: Uuid,
    name: string,
    abbreviation: Option<string>,
    description: Option<string>,
    isActive: bool)

  /** A person in a care journey; `personId` is unique, both references are required. */
  datatype Patient = Patient(
    patientId: Uuid,
    personId: Uuid,
    medicalConditionId: Uuid,
    firstContactDate: Option<Date>,
    initialConsultDate: Option<Date>,
    status: string)

  /** One navigator interaction; many per patient. */
  datatype CallHistory = CallHistory(
    callId: Uuid,
    patientId: Uuid,
    pnId: Option<Uuid>,
    bookingDate: Option<Timestamp>,
    callDate: Option<Timestamp>,
    reminderDate: Option<Timestamp>,
    noShow: bool,
    callDurationMinutes: Option<int>,
    outcome: Option<string>,
    notes: Option<string>)

  /** A healthcare provider; `personId` is unique. */
  datatype Physician = Physician(
    physicianId: Uuid,
    personId: Uuid,
    hospitalId: Option<Uuid>,
    jobTitle: Option<string>,
    specializationId: Option<Uuid>,
    medicalLicenseNumber: Option<string>,
    isActive: bool)

  function PersonEmail(p: Person): string { p.email }
  function ConditionName(c: MedicalCondition): string { c.name }
  function PatientPerson(p: Patient): Uuid { p.personId }
  function PhysicianPerson(p: Physician): Uuid { p.personId }

  /** A unique column: no two rows of the table agree on it. */
  predicate Unique<V>(table: map<Uuid, V>, column: V -> string) {
    forall a, b :: a in table && b in table && column(table[a]) == column(table[b]) ==> a == b
  }

  /** The keys of the rows whose `column` holds `x`. */
  function RowsWith<V>(table: map<Uuid, V>, column: V -> string, x: string): set<Uuid> {
    set k | k in table && column(table[k]) == x
  }

  /** A unique column holds each value in at most one row, and conversely. */
  lemma UniqueIffAtMostOne<V>(table: map<Uuid, V>, column: V -> string)
    ensures Unique(table, column) <==> forall x :: |RowsWith(table, column, x)| <= 1
  {
    if Unique(table, column) {
      forall x ensures |RowsWith(table, column, x)| <= 1 {
        var rows := RowsWith(table, column, x);
        if rows != {} {
          var k :| k in rows;
          assert rows == {k};
        }
      }
    }
    if forall x :: |RowsWith(table, column, x)| <= 1 {
      forall a, b | a in table && b in table && column(table[a]) == column(table[b])
        ensures a == b
      {
        var rows := RowsWith(table, column, column(table[a]));
        assert a in rows && b in rows;
        assert |rows - {a}| == |rows| - 1;
      }
    }
  }

  /** person.email is unique: at most one Person per email. */
  lemma AtMostOnePersonPerEmail(persons: map<Uuid, Person>, email: string)
    requires Unique(persons, PersonEmail)
    ensures |set k | k in persons && persons[k].email == email| <= 1
  {
    UniqueIffAtMostOne(persons, PersonEmail);
    assert (set k | k in persons && persons[k].email == email) == RowsWith(persons, PersonEmail, email);
  }

  /** medical_condition.name is unique: at most one MedicalCondition per name. */
  lemma AtMostOneConditionPerName(conditions: map<Uuid, MedicalCondition>, name: string)
    requires Unique(conditions, ConditionName)
    ensures |set k | k in conditions && conditions[k].name == name| <= 1
  {
    UniqueIffAtMostOne(conditions, ConditionName);
    assert (set k | k in conditions && conditions[k].name == name) == RowsWith(conditions, ConditionName, name);
  }

  /** patient.person_id is unique: each Person has at most one Patient. */
  lemma AtMostOnePatientPerPerson(patients: map<Uuid, Patient>, personId: Uuid)
    requires Unique(patients, PatientPerson)
    ensures |set k | k in patients && patients[k].personId == personId| <= 1
  {
    UniqueIffAtMostOne(patients, PatientPerson);
    assert (set k | k in patients && patients[k].personId == personId) == RowsWith(patients, PatientPerson, personId);
  }

  /** physician.person_id is unique: each Person has at most one Physician. */
  lemma AtMostOnePhysicianPerPerson(physicians: map<Uuid, Physician>, personId: Uuid)
    requires Unique(physicians, PhysicianPerson)
    ensures |set k | k in physicians && physicians[k].personId == personId| <= 1
  {
    UniqueIffAtMostOne(physicians, PhysicianPerson);
    assert (set k | k in physicians && physicians[k].personId == personId) == RowsWith(physicians, PhysicianPerson, personId);
  }

  /** Writing row `k` keeps a column unique when no other row holds the new value. */
  lemma UniqueAfterPut<V>(table: map<Uuid, V>, k: Uuid, v: V, column: V -> string)
    requires Unique(table, column)
    requires forall j :: j in table && j != k ==> column(table[j]) != column(v)
    ensures Unique(table[k := v], column)
  {
  }
}
