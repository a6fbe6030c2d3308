/**
 * The patient registry: the orchestration that guards every write to the
 * patient store with the email-uniqueness rule and, on creation, provisions
 * a billing account and publishes a lifecycle event.
 */
module Registry {
  import opened Repository

  /** A create or update request, already validated by the web layer. */
  datatype PatientRequest = PatientRequest(
    name: string,
    email: string,
    address: string,
    dateOfBirth: Date,
    registeredDate: Date)

  /** One `createBillingAccount` call made to the billing service. */
  datatype BillingRequest = BillingRequest(patientId: Uuid, name: string, email: string)

  /** One lifecycle event accepted by the message bus on the `Patient` topic. */
  datatype PatientEvent = PatientEvent(patientId: Uuid, name: string, email: string, eventType: string)

  const PatientCreated: string := "PATIENT_CREATED"

  /** What an operation reports in place of the exceptions the service throws. */
  datatype Outcome =
    | Ok(patient: Patient)
    | EmailConflict
    | NotFound
    | BillingFailure

  /** The row `save` stores for a new request once the generator has chosen `id`. */
  function NewPatient(req: PatientRequest, id: Uuid): Patient
  {
    Patient(id, req.name, req.email, req.address, req.dateOfBirth, req.registeredDate)
  }

  /** The row after an update: the four editable fields come from the
      request, the id and the registration date are kept. */
  function Updated(p: Patient, req: PatientRequest): Patient
  {
    p.(name := req.name, email := req.email, address := req.address, dateOfBirth := req.dateOfBirth)
  }

  /** The event the producer builds for a newly saved patient. */
  function CreatedEvent(p: Patient): PatientEvent
  {
    PatientEvent(p.id, p.name, p.email, PatientCreated)
  }

  /** The billing request made for a newly saved patient. */
  function BillingRequestFor(p: Patient): BillingRequest
  {
    BillingRequest(p.id, p.name, p.email)
  }

  class PatientService {
    /** The patient table. */
    var patients: Store
    /** Every `createBillingAccount` call made, in order. */
    var billingRequests: seq<BillingRequest>
    /** Every lifecycle event the bus accepted, in order. */
    var events: seq<PatientEvent>

    ghost predicate Valid()
      reads this
    {
      WellKeyed(patients) && UniqueEmails(patients)
    }

    /** The service is handed a repository that may already hold rows;
        no billing call has been made and no event sent through it yet. */
    constructor (initial: Store)
      requires WellKeyed(initial) && UniqueEmails(initial)
      ensures Valid()
      ensures patients == initial && billingRequests == [] && events == []
    {
      patients := initial;
      billingRequests := [];
      events := [];
    }

    /** `getPatients`: every stored patient exactly once. */
    method GetPatients() returns (all: seq<Patient>)
      requires Valid()
      ensures |all| == |patients|
      ensures forall i :: 0 <= i < |all| ==> all[i].id in patients && patients[all[i].id] == all[i]
      ensures forall id :: id in patients ==> patients[id] in all
      ensures forall i, j :: 0 <= i < j < |all| ==> all[i].id != all[j].id
    {
      all := FindAll(patients);
    }

    /**
     * `createPatients`. `billingSucceeds` is the outcome of the billing
     * call and `sendSucceeds` that of handing the event to the bus; both are
     * decided by the remote side. A fresh id is any id not yet in the table.
     */
    method CreatePatients(req: PatientRequest, billingSucceeds: bool, sendSucceeds: bool)
      returns (r: Outcome)
      requires Valid()
      modifies this
      ensures Valid()
      // a taken email is refused before anything is written, called or sent
      ensures ExistsByEmail(old(patients), req.email) ==>
        r == EmailConflict && patients == old(patients)
        && billingRequests == old(billingRequests) && events == old(events)
      // otherwise exactly one new row under a fresh id, then exactly one
      // billing call for it; the row stays even when that call fails, and
      // the event follows only a successful call and only if the bus takes it
      ensures !ExistsByEmail(old(patients), req.email) ==>
        exists id :: id !in old(patients)
          && patients == old(patients)[id := NewPatient(req, id)]
          && billingRequests == old(billingRequests) + [BillingRequestFor(NewPatient(req, id))]
          && r == (if billingSucceeds then Ok(NewPatient(req, id)) else BillingFailure)
          && events == old(events)
             + (if billingSucceeds && sendSucceeds then [CreatedEvent(NewPatient(req, id))] else [])
    {
      if ExistsByEmail(patients, req.email) {
        return EmailConflict;
      }
      ghost var bound := IdBound(patients.Keys);
      assert bound !in patients;
      var id :| id !in patients;
      var saved := NewPatient(req, id);
      InsertKeepsInvariant(patients, saved);
      patients := patients[id := saved];

      billingRequests := billingRequests + [BillingRequestFor(saved)];
      if !billingSucceeds {
        return BillingFailure;
      }

      if sendSucceeds {
        events := events + [CreatedEvent(saved)];
      }
      r := Ok(saved);
    }

    /** `updatePatient`: look the row up, refuse an email another patient
        holds, then overwrite the four editable fields. */
    method UpdatePatient(id: Uuid, req: PatientRequest) returns (r: Outcome)
      requires Valid()
      modifies this
      ensures Valid()
      ensures billingRequests == old(billingRequests) && events == old(events)
      ensures id !in old(patients) ==> r == NotFound && patients == old(patients)
      ensures id in old(patients) && ExistsByEmailAndIdNot(old(patients), req.email, id) ==>
        r == EmailConflict && patients == old(patients)
      ensures id in old(patients) && !ExistsByEmailAndIdNot(old(patients), req.email, id) ==>
        r == Ok(Updated(old(patients)[id], req))
        && patients == old(patients)[id := Updated(old(patients)[id], req)]
        && r.patient.id == id && r.patient.registeredDate == old(patients)[id].registeredDate
        && r.patient.name == req.name && r.patient.email == req.email
        && r.patient.address == req.address && r.patient.dateOfBirth == req.dateOfBirth
    {
      if id !in patients {
        return NotFound;
      }
      var patient := patients[id];
      if ExistsByEmailAndIdNot(patients, req.email, id) {
        return EmailConflict;
      }
      var updated := Updated(patient, req);
      OverwriteKeepsInvariant(patients, updated);
      patients := patients[id := updated];
      r := Ok(updated);
    }

    /** `deletePatient`: remove the row if present, otherwise do nothing. */
    method DeletePatient(id: Uuid)
      requires Valid()
      modifies this
      ensures Valid()
      ensures patients == old(patients) - {id}
      ensures billingRequests == old(billingRequests) && events == old(events)
    {
      DeleteKeepsInvariant(patients, id);
      patients := patients - {id};
    }
  }

  /**
   * A run of registrations against a registry over the table `initial`. The
   * i-th call sees billing outcome `billingSucceeds[i]` and send outcome
   * `sendSucceeds[i]`. Each registration that succeeds stored the requested
   * email, which no row of `initial` holds, and no two registrations that
   * succeed end up with the same email.
   */
  method RegisterAll(
    initial: Store, reqs: seq<PatientRequest>, billingSucceeds: seq<bool>, sendSucceeds: seq<bool>)
    returns (outcomes: seq<Outcome>)
    requires WellKeyed(initial) && UniqueEmails(initial)
    requires |billingSucceeds| == |reqs| && |sendSucceeds| == |reqs|
    ensures |outcomes| == |reqs|
    ensures forall i :: 0 <= i < |outcomes| && outcomes[i].Ok? ==>
      billingSucceeds[i] && outcomes[i].patient.email == reqs[i].email
      && outcomes[i].patient.id !in initial && !ExistsByEmail(initial, outcomes[i].patient.email)
    ensures forall i, j :: 0 <= i < j < |outcomes| && outcomes[i].Ok? && outcomes[j].Ok? ==>
      outcomes[i].patient.email != outcomes[j].patient.email
  {
    var service := new PatientService(initial);
    outcomes := [];
    while |outcomes| < |reqs|
      invariant |outcomes| <= |reqs|
      invariant service.Valid()
      invariant forall id :: id in initial ==> id in service.patients && service.patients[id] == initial[id]
      invariant forall i :: 0 <= i < |outcomes| && outcomes[i].Ok? ==>
        billingSucceeds[i] && outcomes[i].patient.email == reqs[i].email
        && outcomes[i].patient.id !in initial
      invariant forall i :: 0 <= i < |outcomes| && outcomes[i].Ok? ==>
        outcomes[i].patient.id in service.patients
        && service.patients[outcomes[i].patient.id] == outcomes[i].patient
      invariant forall i, j :: 0 <= i < j < |outcomes| && outcomes[i].Ok? && outcomes[j].Ok? ==>
        outcomes[i].patient.id != outcomes[j].patient.id
      decreases |reqs| - |outcomes|
    {
      var k := |outcomes|;
      var r := service.CreatePatients(reqs[k], billingSucceeds[k], sendSucceeds[k]);
      outcomes := outcomes + [r];
    }
    forall i | 0 <= i < |outcomes| && outcomes[i].Ok?
      ensures !ExistsByEmail(initial, outcomes[i].patient.email)
    {
      var p := outcomes[i].patient;
      forall id | id in initial
        ensures initial[id].email != p.email
      {
        assert service.patients[id] == initial[id] && service.patients[p.id] == p;
      }
    }
  }

  /** Updating any registered patient with its own current email, whatever
      the other fields, succeeds: the patient's own row is no conflict. */
  method UpdateWithOwnEmail(service: PatientService, id: Uuid, change: PatientRequest)
    returns (r: Outcome)
    requires service.Valid() && id in service.patients
    requires change.email == service.patients[id].email
    modifies service
    ensures r == Ok(Updated(old(service.patients)[id], change))
    ensures service.patients == old(service.patients)[id := r.patient]
    ensures service.billingRequests == old(service.billingRequests)
    ensures service.events == old(service.events)
    ensures service.Valid()
  {
    OwnEmailIsNoConflict(service.patients, id);
    r := service.UpdatePatient(id, change);
  }
}
