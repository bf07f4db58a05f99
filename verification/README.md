# Clinical record orchestration — a Dafny model

This project models the core of a small cardiovascular-risk application. A
web form's flat payload is turned into HL7 FHIR R4 resources on a record
server: one Patient, nine Observations, zero to three Conditions and one
MedicationStatement. A model service then reads the stored record back,
extracts the fifteen features of a risk classifier, scores them and stores a
RiskAssessment. A patient can be listed, and deleted together with every
resource that refers to it.

The record server is modelled as a pure state: a map from serials to
resource bodies, the next serial to issue, the log of every call made so
far, and a table of injected failures keyed by call number. A resource's id
is the decimal text of its serial. Every remote call appends one exchange
(the request and whether it succeeded) to the log. "Stops at the first
failure, and nothing is rolled back" is stated over that log. `Followed(s, r, plan)`
says the calls from `s` to `r` are `plan` in order, all successful when `r`
succeeded, and up to and including the first failed call when it failed.

Modules, one per file:

- `wrappers.dfy`: `Option` and `Result`.
- `decimal.dfy`: decimal text of numbers, and the year prefix of a date.
- `resources.dfy`: resource bodies, bundles and the form payload.
- `server.dfy`: the record server (create, search, read, delete, the last being `deleteResource`) and call sequencing.
- `assembler.dfy`: `createPatient`, `createObservations`, `createConditions` and `createMedicationStatement`, with their composition in a submission.
- `aggregator.dfy`: `getAllPatients`.
- `purger.dfy`: `deletePatient` and `searchRiskAssessments`.
- `riskservice.dfy`: the model service's `predict_risk` and its helpers.
- `routes.dfy`: the `/patients`, `/submit` and `/delete-patient/:id` routes.
- `roundtrips.dfy`: what each read operation finds after a submission, and that deleting undoes it.

Each submission posts nine Observations: BMI, cholesterol, both blood
pressures, glucose, heart rate, smoking status, education and cigarettes per
day (`webapp/services/fhirService.js:27-44`).

## Model

| member | source | states |
|---|---|---|
| Decimal.ParseShow | model-service/main.py:80 | Reading back the decimal text of a number gives that number. |
| Decimal.BeforeDash | model-service/main.py:80 | The part before the first `-` is a prefix of the date with no `-` in it. When it is shorter than the date, a `-` follows it. |
| Decimal.ShowInjective | webapp/services/fhirService.js:12 | Distinct serials are rendered as distinct ids. |
| Decimal.YearOfShow | model-service/main.py:80 | A date written `<year>-<rest>` reads as that year. |
| Resources.ResourcesOf | webapp/services/fhirService.js:18 | The resources of the entries have the same length as the entries and sit in the same order. |
| Server.SerialOfIdOf | webapp/services/fhirService.js:12 | The id the server answers for a serial reads back as exactly that serial. |
| Server.Locate | webapp/services/fhirService.js:21-24 | A type and an id resolve to the serial of a stored resource of that type, and only to such a serial. |
| Server.Create | webapp/services/fhirService.js:5-13 | A POST is logged. It succeeds exactly when no failure is injected. On success the body is stored under a fresh serial and its id is answered. On failure nothing is stored. |
| Server.CreateLocates | webapp/services/fhirService.js:12 | The id a successful POST answers locates the new resource under its own type. |
| Server.Matches | webapp/services/fhirService.js:103-104 | Every entry of a search reports a stored resource that the search selects. Every such resource is reported. No id is reported twice. |
| Server.Search | webapp/services/fhirService.js:15-19 | A search is logged and succeeds exactly when no failure is injected. Its entries are the matching resources. Its Bundle has no `entry` key exactly when nothing matches. |
| Server.Fetch | model-service/main.py:62-70 | A read answers the resource of that type and id. A missing resource gives NotFound. |
| Server.Delete | webapp/services/fhirService.js:21-24 | A DELETE removes exactly the resource of that type and id, which is then no longer found. A missing resource gives NotFound. On failure nothing changes. |
| Server.FollowedThen | webapp/routes/form.js:28-31 | An operation that completed its plan, followed by one that followed a second plan, together followed the concatenation. |
| Server.FollowedStop | webapp/routes/form.js:24-44 | An operation that aborted part way through its plan also aborted any longer plan that starts with it. |
| Server.MatchesFrame | webapp/services/fhirService.js:100-139 | Deleting resources the search does not select leaves that search's answer unchanged. |
| Assembler.CreatePatient | webapp/services/fhirService.js:5-13 | One POST of a Patient whose official name, gender and birth date are the form's. It succeeds exactly when no failure is injected, and then answers the new Patient's id. |
| Assembler.ObservationBodies | webapp/services/fhirService.js:26-59 | There are nine final LOINC-coded Observations with pairwise distinct codes, each about the patient. Only smoking status carries a coded value: current smoker exactly when `is_smoking` is "true". Education has a quantity with no unit. Every other Observation has a unit. |
| Assembler.ObservationCatalogue | webapp/services/fhirService.js:27-44 | Row by row, the nine Observations are final, about the patient and carry one LOINC coding. In order, the code, display and value are: 39156-5 BMI in kg/m2, 2093-3 Total Cholesterol in mg/dL, 8480-6 Systolic Blood Pressure in mmHg, 8462-4 Diastolic Blood Pressure in mmHg, 15074-8 Glucose in mg/dL, 8867-4 Heart Rate in bpm, 72166-2 Smoking Status coded "Current smoker" exactly when `is_smoking` is "true" and "Non-smoker" otherwise, `edu` Education with no unit, and `cig` Cigarettes Per Day in cig/day. Each value is the form's field for that row. |
| Assembler.CreateObservations | webapp/services/fhirService.js:46-61 | The nine Observation POSTs are issued in order and stop at the first failure. Success means exactly nine calls, all successful. |
| Assembler.FlagCondition | webapp/services/fhirService.js:66-72 | One Condition is posted for a flag that is exactly "true", and none otherwise. |
| Assembler.ConditionBodies | webapp/services/fhirService.js:65-79 | One Condition per "true" flag. Each is about the patient and carries one SNOMED CT coding. |
| Assembler.ConditionBodiesFlags | webapp/services/fhirService.js:64-72 | A stroke, hypertension or diabetes Condition is posted exactly when that flag is "true". |
| Assembler.ConditionBodiesOrdered | webapp/services/fhirService.js:65-79 | Conditions are posted stroke first, then hypertension, then diabetes. |
| Assembler.CreateConditions | webapp/services/fhirService.js:71-79 | One POST per "true" flag, in order, stopping at the first failure. Success means as many calls as "true" flags. |
| Assembler.MedicationBody | webapp/services/fhirService.js:82-97 | A MedicationStatement about the patient coded as blood-pressure medication. Its status is "active" exactly when `BPMeds` is "true", and "stopped" otherwise. |
| Assembler.CreateMedicationStatement | webapp/services/fhirService.js:82-98 | Exactly one POST. On success that one body is added under the next serial. On failure nothing is stored. |
| Assembler.CreateAll | webapp/services/fhirService.js:46-61 | Posting a list of bodies uses at most one new serial per body. |
| Assembler.CreateAllFollows | webapp/services/fhirService.js:46-61 | Posting a list of bodies issues their POSTs in order, up to and including the first that fails. |
| Assembler.CreateAllIssues | webapp/services/fhirService.js:46-61 | When every POST of a list succeeds, each body has been given a serial. |
| Assembler.CreateAllRecords | webapp/services/fhirService.js:46-61 | What a list of POSTs leaves in the store: the bodies it managed to post, one by one under consecutive serials, and nothing else. |
| Assembler.CreateAllReliable | webapp/services/fhirService.js:46-61 | On a server that answers every call, posting a list of bodies succeeds. |
| Assembler.RecordGraph | webapp/routes/form.js:28-31 | A submission's resources in creation order: the Patient, the nine Observations, one Condition per "true" flag, then the MedicationStatement. |
| Assembler.GraphDependents | webapp/routes/form.js:29-31 | Everything after the Patient refers to the id the Patient was given, and none of it is a Patient. |
| Assembler.Assemble | webapp/routes/form.js:28-31 | A successful submission answers the id of the Patient it created. |
| Assembler.CreateDependents | webapp/routes/form.js:29-31 | The Observations, then the Conditions, then the MedicationStatement are posted in that order, stopping at the first failure. Success means every one of them was posted. |
| Assembler.CreateDependentsIsCreateAll | webapp/routes/form.js:29-31 | Creating the Observations, then the Conditions, then the MedicationStatement is one sequence of POSTs of their bodies in that order. |
| Assembler.AssembleIsCreateAll | webapp/routes/form.js:28-31 | The four creation steps run exactly as one sequence of POSTs of the whole record graph. |
| Assembler.AssembleFollowsPlan | webapp/routes/form.js:28-31 | The submission's POSTs are the record graph's, in order, stopping at the first failure. On success every one was made, and the answer is the Patient's id. |
| Assembler.AssembleRecords | webapp/routes/form.js:28-31 | After a submission the store holds what it held before, plus the record graph up to the first failed POST under fresh serials. |
| Assembler.AssembleReliable | webapp/routes/form.js:28-31 | On a server that answers every call, the whole record graph is created. |
| Aggregator.DisplayName | webapp/services/fhirService.js:169 | A list row's name is the first name's text when that is non-empty, and "Unknown" otherwise. A Patient without a `name` array makes the listing fail. |
| Aggregator.ListAge | webapp/services/fhirService.js:156 | The age is the current year minus the birth year, and is absent when the birth date has no readable year. |
| Aggregator.AnyCode | webapp/services/fhirService.js:163-165 | The scan reads entries in order and stops at the first whose first code is that code. It answers true exactly when such an entry comes before any entry without a code. It fails exactly when an entry without a code comes before any match. It answers false exactly when every entry has a first code and none matches. |
| Aggregator.AnyCodeMeansCondition | webapp/services/fhirService.js:159-165 | A successful scan of a patient's Conditions answers whether the store holds a Condition about that patient with that code. |
| Aggregator.Summarize | webapp/services/fhirService.js:154-176 | One Condition search per patient. A row is the patient's id, name and age and its three condition flags as stored, with `tenYearCHD` false. |
| Aggregator.SummarizeAll | webapp/services/fhirService.js:153-177 | One row per Patient entry, in order, each the summary of that entry. The store is not changed. |
| Aggregator.ScanShift | webapp/services/fhirService.js:163-165 | Past a coded entry that does not match, the scan's outcome is decided by the remaining entries. |
| Aggregator.SummarizeReliable | webapp/services/fhirService.js:154-176 | On a server that answers, with every stored Patient named and every stored Condition coded, a patient's summary succeeds. |
| Aggregator.SummarizeAllReliable | webapp/services/fhirService.js:153-177 | Under the same conditions, summarising any list of named Patient entries succeeds. |
| Aggregator.ListReliable | webapp/services/fhirService.js:148-184 | On a server that answers, with every stored Patient named and every stored Condition coded, the listing succeeds. |
| Aggregator.ListPatients | webapp/services/fhirService.js:148-184 | The listing has one row per stored Patient, each summarising that Patient. It writes nothing. |
| Purger.DeleteEntries | webapp/services/fhirService.js:104-108 | The DELETEs are issued in order and stop at the first failure. Only resources of that type named by the entries disappear. On success all of them are gone. |
| Purger.IdsOfMatches | webapp/services/fhirService.js:103-106 | A stored resource's id is among the ids a search answered exactly when the search selects that resource. |
| Purger.PurgeCategory | webapp/services/fhirService.js:103-108 | One search, then one DELETE per match. Only resources of that type about the patient are removed. On success all of them are gone. |
| Purger.PurgeCategorySucceeds | webapp/services/fhirService.js:103-108 | On a server that answers, clearing one type of a patient's dependents succeeds. |
| Purger.PlanFromFrame | webapp/services/fhirService.js:100-139 | Removing resources of types that no later step searches for leaves the rest of the plan unchanged. |
| Purger.PurgeFrom | webapp/services/fhirService.js:100-145 | The cascade from a given step follows its plan. It never removes anything but the patient's dependents and, on success, the Patient. On success all of those are gone and the Patient existed. |
| Purger.PurgePlan | webapp/services/fhirService.js:100-139 | The plan makes one search per dependent type plus one DELETE per match, then one DELETE of the Patient. It starts with the Observation search and ends with the Patient's DELETE. |
| Purger.PlanFromZero | webapp/services/fhirService.js:102-139 | The full cascade's calls: search and delete Observations, Conditions, MedicationStatements and RiskAssessments, then DELETE the Patient. |
| Purger.Purge | webapp/services/fhirService.js:100-145 | `deletePatient` follows its plan and stops at the first failure. On success the Patient existed and the store is left without it and without everything that referred to it. On failure only resources that referred to it may be gone. |
| Purger.DeleteEntriesSucceeds | webapp/services/fhirService.js:105-107 | On a server that answers, deleting entries that name distinct stored resources succeeds. |
| Purger.PurgeFromReliable | webapp/services/fhirService.js:100-145 | On a server that answers, the cascade from any step succeeds exactly when the Patient exists, and otherwise answers NotFound. |
| Purger.PurgeReliable | webapp/services/fhirService.js:100-145 | On a server that answers, deletion succeeds exactly when the Patient exists, and otherwise answers NotFound. |
| Purger.PurgeGone | webapp/services/fhirService.js:100-145 | Deleting a patient that is gone: four empty searches, the Patient's DELETE, NotFound, and nothing changed. |
| Purger.PurgeTwice | webapp/services/fhirService.js:100-145 | Deleting the same patient twice: the second attempt makes five calls, answers NotFound and changes nothing. |
| Purger.SearchRiskAssessments | webapp/services/fhirService.js:15-19 | The result is one resource per entry of the patient's RiskAssessment search, in order. So it holds only RiskAssessments about the patient, and every such stored RiskAssessment once. It succeeds exactly when the search is answered. |
| Purger.RisksFound | webapp/services/fhirService.js:18 | The resources of a RiskAssessment search are exactly the patient's stored RiskAssessments. |
| RiskService.CalculateAge | model-service/main.py:73-82 | A missing or empty birth date fails. Otherwise the age succeeds exactly when the text before the first `-` is a number, and age plus birth year is the current year. |
| RiskService.CalculateAgeOfYear | model-service/main.py:80-82 | A date written `<year>-<rest>` gives the current year minus that year. |
| RiskService.MedicationCode | model-service/main.py:142 | Reading a statement's code fails exactly for a MedicationStatement with an empty coding list. It yields a code exactly when there is a first coding, and then it is that coding's code. |
| RiskService.TakesBpMeds | model-service/main.py:142-144 | A statement counts as taken exactly when it is a MedicationStatement whose first code is BP_MEDS and whose status is "active". |
| RiskService.BpMedsFlag | model-service/main.py:140-145 | The flag is set exactly when some statement has code BP_MEDS and status "active", with a missing status read as "stopped". A statement with an empty coding list fails the whole scan. |
| RiskService.ExtractPatientData | model-service/main.py:117-147 | It fails exactly when some statement has a concept with an empty coding list. The age is as given. Gender is 1 exactly for "male". BPMeds is 1 exactly when some statement records the medication as taken. Education is 1, and every other feature is 0. |
| RiskService.FeatureVector | model-service/main.py:187-205 | The classifier is given fifteen columns. |
| RiskService.FeatureVectorColumns | model-service/main.py:187-205 | Column `i` of the classifier's row holds the feature under the `i`-th key it lists: age, gender, BPMeds, BMI, totChol, sysBP, diaBP, glucose, heartRate, is_smoking, education, cigsPerDay, prevalentStroke, prevalentHyp, diabetes. |
| RiskService.FeatureVectorInjective | model-service/main.py:187-205 | Distinct feature records give distinct column vectors, so every feature reaches the classifier. |
| RiskService.StoredFeatures | model-service/main.py:28-43 | A patient that is not stored gives NotFound. |
| RiskService.StoredFeaturesOf | model-service/main.py:117-147 | The stored record yields features exactly when the Patient is stored, its birth date has a readable year and every MedicationStatement about it can be read. They then carry that age, gender 1 exactly for "male", BPMeds 1 exactly when some statement records the medication as taken, and the defaults. |
| RiskService.ExtractIgnoresObservations | model-service/main.py:117-147 | The extracted features do not depend on the Observations or Conditions passed in. |
| RiskService.RiskClass | model-service/main.py:54 | The class is "High" exactly when the score is above 0.5, and "Low" otherwise. |
| RiskService.RiskBody | model-service/main.py:226-235 | A RiskAssessment about the patient with one TenYearCHD prediction carrying the score. |
| RiskService.SaveRiskAssessment | model-service/main.py:221-241 | One POST. It succeeds exactly when no failure is injected, and then the RiskAssessment is stored under the next serial and its id is answered. |
| RiskService.GetPatient | model-service/main.py:62-70 | One read. It answers the stored Patient with that id, and an absent one as NotFound. |
| RiskService.SearchEntries | model-service/main.py:85-93 | One search. Its entries are the matching resources, and an answer without entries is the empty list. A failed search gives NotFound or Unreachable. |
| RiskService.ReadDependents | model-service/main.py:33-40 | Three searches in order. It writes nothing, and on success it answers the patient's stored Observations, Conditions and MedicationStatements. |
| RiskService.GatherFeatures | model-service/main.py:28-43 | It makes the Patient read and then the three searches, and writes nothing. On success its features are those of the stored record. It fails whenever the stored record yields no features. |
| RiskService.PredictRisk | model-service/main.py:19-59 | The score is the classifier's score of the stored record's features, in the classifier's column order. The class is High exactly above 0.5. The answered id is the new RiskAssessment's. Any failure is one 500 error, and nothing is stored. |
| RiskService.GatherReliable | model-service/main.py:28-43 | On a server that answers, reading the features succeeds exactly when the stored record yields features. |
| RiskService.PredictReliable | model-service/main.py:19-59 | On a server that answers, a prediction succeeds exactly when the stored record yields features. |
| Routes.PatientsRoute | webapp/routes/form.js:12-20 | The response is the listing as JSON, or a 500 with "Error fetching patient list.". The store is not changed. |
| Routes.PatientsRouteReliable | webapp/routes/form.js:12-20 | On a server that answers, with every stored Patient named and every stored Condition coded, the route answers the listing as JSON. |
| Routes.SubmitRoute | webapp/routes/form.js:23-45 | The response is the result page for the new Patient's id, or a 500 with "An error occurred while processing the data.". |
| Routes.PredictionPage | webapp/routes/form.js:34-40 | On success the page shows the prediction for this patient, after the reads and the one RiskAssessment POST. On a 500 nothing was stored. |
| Routes.SubmitFollowsPlan | webapp/routes/form.js:27-34 | The four creation steps run in order. A failure ends the request with a 500 and no prediction is requested. Otherwise the prediction is requested for the Patient's id on the store the creation left. |
| Routes.DeletePatientRoute | webapp/routes/form.js:48-57 | A redirect to `/patients` means the Patient and everything about it are gone. A 500 with "Error deleting patient" means every Patient is still there. |
| RoundTrips.AssembledStore | webapp/routes/form.js:28-31 | A successful submission adds the whole record graph under fresh serials and changes nothing else. |
| RoundTrips.FlagsOfGraph | webapp/services/fhirService.js:64-80 | After a submission, the patient's stored Conditions say exactly which of the three flags were "true". |
| RoundTrips.MedicationsOfGraph | webapp/services/fhirService.js:82-98 | After a submission, the patient has at least one MedicationStatement, and every one of them is the body that was posted. |
| RoundTrips.ListableAfterGraph | webapp/services/fhirService.js:148-184 | A submission's record graph keeps every stored Patient named and every stored Condition coded. |
| RoundTrips.AssembleThenList | webapp/services/fhirService.js:148-184 | After a submission, a listing that succeeds has a row for the new patient. The row's flags are the form's "true" flags, its age comes from the form's birth date, and its name is the form's name or "Unknown". On a server that answers, when every earlier Patient is named and every earlier Condition coded, the listing succeeds. |
| RoundTrips.AssembleThenExtract | model-service/main.py:117-147 | After a submission, the new patient's features exist exactly when the birth date has a readable year. They then carry that age, gender 1 exactly for "male", BPMeds 1 exactly when the form's flag was "true", and the defaults. |
| RoundTrips.WithoutGraph | webapp/services/fhirService.js:100-139 | Removing the new patient and everything about it from the assembled store gives back the store as it was before. |
| RoundTrips.AssembleThenPurge | webapp/services/fhirService.js:100-145 | Submitting and then deleting on a server that answers: the deletion completes its plan and leaves the store as it was before the submission. |
| RoundTrips.SubmitOnReliable | webapp/routes/form.js:23-45 | On a server that answers, a submission shows a prediction exactly when the birth date has a readable year. The prediction is for the new patient and scores the form's features. |
| RoundTrips.JaneDoeAge | model-service/main.py:73-82 | Born "1970-05-01", the sample is 54 in 2024. |
| RoundTrips.JaneDoeGraph | webapp/services/fhirService.js:64-98 | The sample's record graph holds twelve resources: one hypertension Condition and a stopped MedicationStatement. |
| RoundTrips.JaneDoeSubmission | model-service/main.py:187-205 | The sample is scored on `[54, 0, 0, 0, 0, 0, 0, 0, 0, 0, 1, 0, 0, 0, 0]`, in the classifier's column order. |

## Left out

- HTTP transport, status codes other than the ones the routes send, headers and URLs: every remote call is one logged exchange that either succeeds or fails with an error.
- Which call fails is a parameter of the server state, a table of failures by call number. Nothing models why a call fails.
- A failed call is assumed to have changed nothing on the record server. A reply lost after the server committed a POST or DELETE (a timeout, a dropped connection) is not modelled. The "nothing stored on failure" and "still there after a 500" clauses rest on this. They appear in Server.Create, Server.Delete, RiskService.SaveRiskAssessment, RiskService.PredictRisk, Assembler.AssembleRecords and Routes.DeletePatientRoute.
- The webapp's call to the model service (`webapp/services/predictionService.js:5-8`) is not itself subject to failure. Only the record-server calls inside `predict_risk` are.
- Search results come in serial order. The record server's real order is unspecified, and FHIR paging is not modelled: a search answers every match.
- `Promise.all` in `getAllPatients` runs its Condition searches concurrently. The model runs them one after another and stops at the first failure, which gives the same outcome when any of them fails.
- Dates: JavaScript `Date` parsing and time zones are not modelled. Both the listing's age and `calculate_age` read the year as the digits before the first `-`, and the current year is a parameter.
- Python `int()` also accepts signs, surrounding blanks and underscores. The model reads only plain digit strings as numbers.
- The random-forest classifier is an opaque parameter from the fifteen-feature vector to a score. Loading the model file is not modelled.
- Logging, `console` output and the rendering of the result page are left out.
- A DELETE of an absent resource answers NotFound. The record server's own behaviour is not part of this model.
- RiskService.PredictRisk: every error of `predict_risk` becomes the one Rejected (500) error, as the endpoint's `except` clause does. The detail texts are not kept.
- RoundTrips.AssembleThenPurge, RoundTrips.AssembleThenList, RoundTrips.AssembleThenExtract, RoundTrips.FlagsOfGraph, RoundTrips.MedicationsOfGraph, RoundTrips.WithoutGraph, RoundTrips.SubmitOnReliable, RoundTrips.JaneDoeSubmission: these assume nothing in the store referred to the new patient's id before the submission. An id is fresh, but a stale reference could name it.
- Aggregator.ListReliable, Aggregator.SummarizeReliable, Aggregator.SummarizeAllReliable, Routes.PatientsRouteReliable: named Patients and coded Conditions are a sufficient condition for the listing to succeed, not an exact one. The exact per-patient outcome of a Condition scan is the one Aggregator.AnyCode states.
- The root route `/`, the browser-side `webapp/public/js/form.js`, `webapp/app.js`, `webapp/routes/fhir.js`, `webapp/routes/prediction.js` and `webapp/to-delete` are not part of this model.
