# Patient management: registry orchestration and login decision

This project models two parts of the Patient Management System in Dafny.

The first is the patient registry of `patient-service`. Its `PatientService` runs every create and update of a patient row through an email-uniqueness guard. On creation it also asks the billing service for an account and publishes a `PATIENT_CREATED` event to the message bus. The model is a class `Registry.PatientService` with three fields:

- `patients`: the JPA table, a map from patient id to patient row;
- `billingRequests`: the log of `createBillingAccount` calls;
- `events`: the log of lifecycle events the bus accepted.

Its methods return a tagged `Outcome` (`Ok`, `EmailConflict`, `NotFound`, `BillingFailure`) where the service throws. The object invariant `Valid()` says two things: every row is stored under its own id, and no two rows share an email. Every method keeps it.

The store and its two derived queries, `existsByEmail` and `existsByEmailAndIdNot`, are in module `Repository`, together with `findAll`.

The second part is the login decision of `auth-service` (`AuthService.authenticate`), in module `Auth`. It is a lookup in the credential store, then a filter by the password encoder's `matches`, then a map into a token. The encoder's check and the token issuer are function parameters left abstract.

Remote outcomes are inputs chosen by the environment:

- `CreatePatients` takes `billingSucceeds`, the outcome of the billing call;
- it also takes `sendSucceeds`, the outcome of handing the event to the bus.

A newly saved patient gets an arbitrary id that is not yet in the table. The model picks it with `:|`, so the proofs hold for every such id.

Behaviour kept from the code:

- The email check runs before the save. A conflict writes, calls and sends nothing.
- The billing call happens after the save. When it fails, the row stays and no event is sent: the code has no rollback.
- An event the bus refuses is lost, and the result of the create does not change. The producer catches the send failure.
- `updatePatient` looks the id up first, so an unknown id gives `NotFound` even when the email would also conflict.
- An update replaces name, email, address and date of birth. It keeps the id and the registration date, and it calls neither billing nor the bus.
- `deletePatient` removes the row if it exists and does nothing otherwise.

## Model

| member | source | states |
|---|---|---|
| `Repository.ExistsByEmail` | patient-service/src/main/java/com/pm/patientservice/repository/PatientRepository.java:12 | true exactly when some stored patient has the given email |
| `Repository.ExistsByEmailAndIdNot` | patient-service/src/main/java/com/pm/patientservice/repository/PatientRepository.java:13 | true exactly when some stored patient with a different id has the given email |
| `Repository.ExistsByEmailAndIdNotImpliesExistsByEmail` | patient-service/src/main/java/com/pm/patientservice/repository/PatientRepository.java:12-13 | a conflict with another patient is a conflict with the table |
| `Repository.SoleHolderHasNoConflict` | patient-service/src/main/java/com/pm/patientservice/repository/PatientRepository.java:13 | if `id` is the only holder of email `e`, `existsByEmail(e)` holds and `existsByEmailAndIdNot(e, id)` does not |
| `Repository.OwnEmailIsNoConflict` | patient-service/src/main/java/com/pm/patientservice/service/PatientService.java:55-57 | with unique emails, a patient's own current email never conflicts in an update |
| `Repository.InsertKeepsInvariant` | patient-service/src/main/java/com/pm/patientservice/service/PatientService.java:40-43 | saving a row under an unused id after `existsByEmail` was false keeps the table well keyed and its emails unique |
| `Repository.OverwriteKeepsInvariant` | patient-service/src/main/java/com/pm/patientservice/service/PatientService.java:55-63 | saving over an existing row after `existsByEmailAndIdNot` was false keeps the table well keyed and its emails unique |
| `Repository.DeleteKeepsInvariant` | patient-service/src/main/java/com/pm/patientservice/service/PatientService.java:68-70 | deleting by id keeps the table well keyed and its emails unique |
| `Repository.IdBound` | patient-service/src/main/java/com/pm/patientservice/service/PatientService.java:43 | gives a value above every id in use, so the generator always has an unused id to hand out |
| `Repository.FindAll` | patient-service/src/main/java/com/pm/patientservice/repository/PatientRepository.java:11 | `findAll` lists every stored row exactly once: as many rows as the table, each one the row stored under its id, every stored row present, no id twice |
| `Registry.PatientService.constructor` | patient-service/src/main/java/com/pm/patientservice/service/PatientService.java:24-29 | the service is handed a repository whose table may already hold rows (well keyed, emails unique). It keeps that table as it is, starts with empty billing and event logs, and the invariant holds |
| `Registry.PatientService.GetPatients` | patient-service/src/main/java/com/pm/patientservice/service/PatientService.java:31-36 | returns every stored patient exactly once: as many rows as the table, each the row stored under its id, every stored row present, no id twice. It changes nothing |
| `Registry.PatientService.CreatePatients` | patient-service/src/main/java/com/pm/patientservice/service/PatientService.java:38-50 | a taken email gives `EmailConflict` with table and both logs unchanged. Otherwise there is exactly one new row under an id not used before, and all other rows are unchanged. Exactly one billing request is logged, carrying that row's id, name and email. The result is `Ok(row)` if billing succeeds and `BillingFailure` otherwise, and the row is kept either way. One `PATIENT_CREATED` event for the row is logged only when billing succeeded and the bus took it. The result does not depend on the send. The invariant is kept |
| `Registry.PatientService.UpdatePatient` | patient-service/src/main/java/com/pm/patientservice/service/PatientService.java:53-65 | an unknown id gives `NotFound` with nothing changed. An email held by another patient gives `EmailConflict` with nothing changed. Otherwise that one row gets the request's name, email, address and date of birth and keeps its id and registration date, and the result is `Ok` of the new row. Other rows and both logs are unchanged, and the invariant is kept |
| `Registry.PatientService.DeletePatient` | patient-service/src/main/java/com/pm/patientservice/service/PatientService.java:68-70 | removes the id's row if present and is a no-op otherwise. No other row and no log changes, and the invariant is kept |
| `Registry.RegisterAll` | patient-service/src/main/java/com/pm/patientservice/service/PatientService.java:38-50 | across any run of creates on a registry that starts from any valid table, each successful create stored the requested email after a successful billing call. That email is held by no row of the starting table and the new id is not in it, and no two successful creates share an email |
| `Registry.UpdateWithOwnEmail` | patient-service/src/main/java/com/pm/patientservice/service/PatientService.java:53-63 | on any valid registry, updating any stored patient with a request that carries its own current email gives `Ok` of the updated row. Only that row changes, the billing and event logs stay as they were, and the invariant is kept |
| `Auth.Option.Filter` | auth-service/src/main/java/com/pm/authservice/service/AuthService.java:32-33 | `Optional.filter` keeps a present value exactly when the predicate accepts it |
| `Auth.Option.Map` | auth-service/src/main/java/com/pm/authservice/service/AuthService.java:35 | `Optional.map` is present exactly when its input is, and holds the function applied to its value |
| `Auth.Authenticate` | auth-service/src/main/java/com/pm/authservice/service/AuthService.java:25-38 | a token is returned exactly when the email is in the credential store and `matches(password, storedHash)` holds. The token is `generateToken(email, storedRole)` |
| `Auth.UnknownEmailAndWrongPasswordAgree` | auth-service/src/main/java/com/pm/authservice/service/AuthService.java:30-37 | an unknown email and a known email with a wrong password both give the same empty result |
| `Auth.AuthenticateDependsOnlyOnOwnCredential` | auth-service/src/main/java/com/pm/authservice/service/AuthService.java:30-35 | the decision depends only on the requesting email's own entry in the credential store |

## Left out

- Patient ids are modelled as unbounded naturals, not 128-bit UUIDs. The registry only compares ids and asks for an unused one. `id.toString()` in the billing request is the id itself.
- `PatientMapper` and the response DTO are not part of this model. Operations return the stored row itself.
- `LocalDate.parse` is not modelled. Dates are opaque text. Validation only checks that they are not blank, and both default to "1970-01-01". So a malformed date of birth passes validation and makes `updatePatient` throw at the parse. That happens after the NotFound and EmailConflict checks and before `save`, so nothing is written. The model drops this error path: `UpdatePatient` always succeeds once both checks pass. `PatientMapper.toModel`, which builds the new row on create, is not part of this model, so any failure it raises is not modelled either.
- The store operations (`save`, `findById`, `findAll`, `deleteById`, `existsByEmail`, `existsByEmailAndIdNot`) never fail in the model. In the source their exceptions propagate to the caller. On create that happens before any billing call.
- Request validation (the Bean Validation annotations on `PatientRequestDTO`) is not modelled. Requests are treated as already valid.
- The billing service's reply (account id "12345", status "ACTIVE") is not modelled. Only the success or failure of the call reaches the registry.
- The protobuf encoding of the event and the Kafka topic `Patient` are not modelled. The event log stands for that one topic.
- The analytics consumer (`KafkaConsumer`), which decodes events on the other side of the bus, is not part of this model. It has no logic beyond the protobuf library's parser.
- Concurrency is not modelled. Under concurrent creates, two requests with the same email can both pass `existsByEmail` before either saves. The model runs one operation at a time, so the race cannot happen in it.
- Logging, the Spring and gRPC wiring, and the HTTP status mapping (409, 404, 401) are not modelled.
- `UserService`, `PasswordEncoder` and `JwtUtil` are not part of this model. Lookup is a map from email to (hash, role), and it matches the email exactly, so the token carries the request email. `matches` and `generateToken` are abstract function parameters.
- Java nulls are not modelled. `Optional.map` would return empty if its mapper returned null, and here `generateToken` is taken never to return null. So a token is present exactly when the user exists and the password matches.
- `generateToken` stands for the token issuer at one instant. A real token also carries its issue and expiry times. So the equalities between results of `Authenticate`, such as in `AuthenticateDependsOnlyOnOwnCredential`, compare decisions made at the same instant, not calls made at different times.
