/**
 * The HL7 FHIR R4 resources this system writes and reads, reduced to the
 * fields it sets or inspects, and the flat form payload they are built from.
 */
module Resources {
  import opened Wrappers

  /** A server-assigned, opaque resource id. */
  type Id = string

  datatype ResourceType =
    | PatientType
    | ObservationType
    | ConditionType
    | MedicationStatementType
    | RiskAssessmentType

  /** One entry of a CodeableConcept's `coding` list; `system` is absent in the smoking-status value. */
  datatype Coding = Coding(system: Option<string>, code: string, display: string)

  datatype HumanName = HumanName(use: string, text: Option<string>)

  /** A `valueQuantity`; both parts are copied from the form, so either may be absent. */
  datatype Quantity = Quantity(value: Option<string>, unit: Option<string>)

  datatype ObservationValue =
    | ValueQuantity(quantity: Quantity)
    | ValueCodeableConcept(coding: seq<Coding>)

  /** One element of a RiskAssessment's `prediction` list. */
  datatype RiskPrediction = RiskPrediction(outcome: string, probability: real)

  /**
   * A resource body as posted to, and returned by, the record server. `code` holds
   * the `code.coding` list; `subject` holds the text of `subject.reference`. A
   * Patient's `name` is None when the resource has no `name` array at all; a
   * MedicationStatement's `medication` holds `medicationCodeableConcept.coding`
   * and is None when there is no `medicationCodeableConcept`, and its
   * `medicationStatus` is its `status`, None when absent.
   */
  datatype Resource =
    | Patient(name: Option<seq<HumanName>>, gender: Option<string>, birthDate: Option<string>)
    | Observation(status: string, code: seq<Coding>, subject: string, value: ObservationValue)
    | Condition(code: seq<Coding>, subject: string)
    | MedicationStatement(medication: Option<seq<Coding>>, medicationStatus: Option<string>, subject: string)
    | RiskAssessment(subject: string, prediction: seq<RiskPrediction>)

  function TypeOf(r: Resource): ResourceType {
    match r
    case Patient(_, _, _) => PatientType
    case Observation(_, _, _, _) => ObservationType
    case Condition(_, _) => ConditionType
    case MedicationStatement(_, _, _) => MedicationStatementType
    case RiskAssessment(_, _) => RiskAssessmentType
  }

  /** The patient reference a resource carries; a Patient carries none. */
  function SubjectOf(r: Resource): Option<string> {
    if r.Patient? then None else Some(r.subject)
  }

  /** The reference text that points at the Patient with id `id`. */
  function Reference(id: Id): string {
    "Patient/" + id
  }

  /** The code of the first coding, which is the one every reader of the record inspects. */
  function FirstCode(codes: seq<Coding>): Option<string> {
    if |codes| == 0 then None else Some(codes[0].code)
  }

  /** A Patient's `birthDate`, absent for any other resource. */
  function BirthDateOf(p: Resource): Option<string> {
    if p.Patient? then p.birthDate else None
  }

  /** A Patient's `gender`, absent for any other resource. */
  function GenderOf(p: Resource): Option<string> {
    if p.Patient? then p.gender else None
  }

  /** One `entry` of a search Bundle: the resource and the id the server gave it. */
  datatype Entry = Entry(id: Id, resource: Resource)

  /** A search result set; `entry` is absent, not empty, when nothing matched. */
  datatype Bundle = Bundle(entry: Option<seq<Entry>>)

  /** The entries of a Bundle, or none when it has no `entry` key. */
  function EntriesOf(b: Bundle): (es: seq<Entry>)
    ensures b.entry.Some? ==> es == b.entry.value
    ensures b.entry.None? ==> es == []
  {
    b.entry.GetOr([])
  }

  /** The resources of a list of entries, in order (`entries.map(e => e.resource)`). */
  function ResourcesOf(es: seq<Entry>): (r: seq<Resource>)
    ensures |r| == |es|
    ensures forall i | 0 <= i < |es| :: r[i] == es[i].resource
  {
    if |es| == 0 then [] else [es[0].resource] + ResourcesOf(es[1..])
  }

  /**
   * The flat payload of the patient form. Every field is the string the browser
   * sent, or None when the field was not sent at all.
   */
  datatype Form = Form(
    name: Option<string>,
    gender: Option<string>,
    birthDate: Option<string>,
    education: Option<string>,
    cigsPerDay: Option<string>,
    totChol: Option<string>,
    sysBP: Option<string>,
    diaBP: Option<string>,
    bmi: Option<string>,
    heartRate: Option<string>,
    glucose: Option<string>,
    isSmoking: Option<string>,
    bpMeds: Option<string>,
    prevalentStroke: Option<string>,
    prevalentHyp: Option<string>,
    diabetes: Option<string>)

  /** A form flag is set only when it is exactly the string "true" (`flag === "true"`). */
  predicate IsTrue(flag: Option<string>) {
    flag == Some("true")
  }

  // Fixed vocabularies, shared by the side that writes the record and the sides that read it.
  const LoincSystem := "http://loinc.org"
  const SnomedSystem := "http://snomed.info/sct"
  const NdcSystem := "http://hl7.org/fhir/sid/ndc"
  const SmokingStatusCode := "72166-2"
  const CurrentSmokerCode := "LA18976-3"
  const NonSmokerCode := "LA15920-4"
  const StrokeCode := "160245001"
  const HypertensionCode := "59621000"
  const DiabetesCode := "44054006"
  const BpMedsCode := "BP_MEDS"
}
