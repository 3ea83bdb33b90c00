/** The domain exceptions raised by the data-access layer, their fields and
    their message strings, and the result of an operation that may raise. */
module Exceptions {
  import opened Models

  datatype Error =
    | PatientNotFoundError(patientId: string)
    | PersonNotFoundError(personId: Option<string>, email: Option<string>)
    | DuplicatePatientError(duplicateOf: string)
    | MedicalConditionNotFoundError(conditionId: string)
    | DatabaseError(message: string, originalError: Option<Error>)
      /** The store's own constraint-violation exception, where the data-access
          layer lets it escape unwrapped; `detail` names the violated column. */
    | IntegrityError(detail: string)
      /** The store's exception for a value its column cannot hold, such as
          an integer out of the column's range; `detail` names the column. */
    | DataError(detail: string)

  /** The outcome of a call that either returns a value or raises. */
  datatype Result<T> = Success(value: T) | Failure(error: Error)

  /** Python truthiness of an optional string: present and non-empty. */
  predicate Truthy(s: Option<string>) {
    s.Some? && s.value != ""
  }

  /** The identifier named by PersonNotFoundError: `person_id or email or "unknown"`. */
  function PersonIdentifier(personId: Option<string>, email: Option<string>): (r: string)
    ensures r != ""
    ensures Truthy(personId) ==> r == personId.value
    ensures !Truthy(personId) && Truthy(email) ==> r == email.value
    ensures !Truthy(personId) && !Truthy(email) ==> r == "unknown"
  {
    if Truthy(personId) then personId.value
    else if Truthy(email) then email.value
    else "unknown"
  }

  /** `str(e)`: the message each exception passes to its base class. */
  function Message(e: Error): string {
    match e
    case PatientNotFoundError(id) => "Patient " + id + " not found"
    case PersonNotFoundError(id, email) => "Person " + PersonIdentifier(id, email) + " not found"
    case DuplicatePatientError(id) => "Patient already exists for person " + id
    case MedicalConditionNotFoundError(id) => "Medical condition " + id + " not found"
    case DatabaseError(message, _) => message
    case IntegrityError(detail) => detail
    case DataError(detail) => detail
  }

  /** The text between `prefix` and `suffix`, when `msg` has that shape. */
  function Between(msg: string, prefix: string, suffix: string): (r: Option<string>)
    ensures r.Some? ==> msg == prefix + r.value + suffix
  {
    if |prefix| + |suffix| <= |msg| && msg[..|prefix|] == prefix && msg[|msg| - |suffix|..] == suffix
    then
      var middle := msg[|prefix|..|msg| - |suffix|];
      assert msg == msg[..|prefix|] + middle + msg[|msg| - |suffix|..];
      Some(middle)
    else None
  }

  lemma {:induction false} BetweenOfFramed(prefix: string, x: string, suffix: string)
    ensures Between(prefix + x + suffix, prefix, suffix) == Some(x)
  {
    var msg := prefix + x + suffix;
    assert msg[..|prefix|] == prefix;
    assert msg[|msg| - |suffix|..] == suffix;
    assert msg[|prefix|..|msg| - |suffix|] == x;
  }

  /** "Patient {id} not found": the id can be read back from the message. */
  lemma PatientNotFoundMessage(id: string)
    ensures Between(Message(PatientNotFoundError(id)), "Patient ", " not found") == Some(id)
  {
    BetweenOfFramed("Patient ", id, " not found");
  }

  /** "Person {identifier} not found", with the fallback chain's identifier. */
  lemma PersonNotFoundMessage(personId: Option<string>, email: Option<string>)
    ensures Between(Message(PersonNotFoundError(personId, email)), "Person ", " not found")
            == Some(PersonIdentifier(personId, email))
  {
    BetweenOfFramed("Person ", PersonIdentifier(personId, email), " not found");
  }

  /** "Patient already exists for person {id}". */
  lemma DuplicatePatientMessage(id: string)
    ensures Between(Message(DuplicatePatientError(id)), "Patient already exists for person ", "") == Some(id)
  {
    BetweenOfFramed("Patient already exists for person ", id, "");
    assert "Patient already exists for person " + id + "" == "Patient already exists for person " + id;
  }

  /** "Medical condition {id} not found". */
  lemma MedicalConditionNotFoundMessage(id: string)
    ensures Between(Message(MedicalConditionNotFoundError(id)), "Medical condition ", " not found") == Some(id)
  {
    BetweenOfFramed("Medical condition ", id, " not found");
  }

  /** Two exceptions of one of the kinds PatientNotFoundError,
      DuplicatePatientError or MedicalConditionNotFoundError have the same
      message exactly when they name the same subject. PersonNotFoundError is
      not among them: its message shows only the identifier the fallback
      chain picks, so a person id and an email with the same text give one
      message. */
  lemma MessagesIdentifySubjects(e1: Error, e2: Error)
    requires e1.PatientNotFoundError? || e1.DuplicatePatientError? || e1.MedicalConditionNotFoundError?
    requires e1.PatientNotFoundError? ==> e2.PatientNotFoundError?
    requires e1.DuplicatePatientError? ==> e2.DuplicatePatientError?
    requires e1.MedicalConditionNotFoundError? ==> e2.MedicalConditionNotFoundError?
    ensures Message(e1) == Message(e2) <==> e1 == e2
  {
    match e1
    case PatientNotFoundError(a) =>
      PatientNotFoundMessage(a);
      PatientNotFoundMessage(e2.patientId);
    case DuplicatePatientError(a) =>
      DuplicatePatientMessage(a);
      DuplicatePatientMessage(e2.duplicateOf);
    case MedicalConditionNotFoundError(a) =>
      MedicalConditionNotFoundMessage(a);
      MedicalConditionNotFoundMessage(e2.conditionId);
  }

  /** DatabaseError's message is exactly the one given, and the original error is kept. */
  lemma DatabaseErrorKeepsMessage(message: string, original: Option<Error>)
    ensures var e := DatabaseError(message, original);
            Message(e) == message && e.originalError == original
  {
  }
}
