/**
 * The risk model service: it reads a patient's record back from the record
 * server, derives the classifier's fifteen input features, scores them, and
 * stores the score as a RiskAssessment. The classifier itself is a parameter.
 */
module RiskService {
  import opened Wrappers
  import opened Decimal
  import opened Resources
  import opened Server

  /**
   * `calculate_age`: the current year minus the number before the first `-` of
   * the birth date, ignoring month and day; a missing or empty birth date, or
   * one without a number there, is an error.
   */
  function CalculateAge(birthDate: Option<string>, currentYear: int): (r: Result<int, Error>)
    ensures birthDate.None? || birthDate == Some("") ==> r.Failure?
    ensures r.Success? <==> birthDate.Some? && YearOf(birthDate.value).Some?
    ensures r.Success? ==> r.value + YearOf(birthDate.value).value == currentYear
  {
    match birthDate
    case None => Failure(BadData("Birth date is missing"))
    case Some(d) =>
      if d == "" then Failure(BadData("Birth date is missing"))
      else
        match YearOf(d)
        case None => Failure(BadData("invalid literal for int()"))
        case Some(y) => Success(currentYear - y)
  }

  /** A birth date written as a year, a dash and anything else gives the difference of the years. */
  lemma CalculateAgeOfYear(y: nat, rest: string, currentYear: int)
    ensures CalculateAge(Some(Show(y) + "-" + rest), currentYear) == Success(currentYear - y)
  {
    YearOfShow(y, rest);
  }

  /** The fifteen classifier inputs `extract_patient_data` produces. */
  datatype Features = Features(
    age: int,
    gender: int,
    bpMeds: int,
    bmi: int,
    totChol: int,
    sysBP: int,
    diaBP: int,
    glucose: int,
    heartRate: int,
    isSmoking: int,
    education: int,
    cigsPerDay: int,
    prevalentStroke: int,
    prevalentHyp: int,
    diabetes: int)

  /** The feature row in the column order the classifier is given it. */
  function FeatureVector(d: Features): (r: seq<int>)
    ensures |r| == 15
  {
    [d.age, d.gender, d.bpMeds, d.bmi, d.totChol, d.sysBP, d.diaBP, d.glucose, d.heartRate,
     d.isSmoking, d.education, d.cigsPerDay, d.prevalentStroke, d.prevalentHyp, d.diabetes]
  }

  /** The classifier's columns by name, in the order its input row lists them. */
  const ClassifierColumns: seq<string> := ["age", "gender", "BPMeds", "BMI", "totChol", "sysBP", "diaBP",
    "glucose", "heartRate", "is_smoking", "education", "cigsPerDay", "prevalentStroke", "prevalentHyp", "diabetes"]

  /** The feature stored under the data dictionary's key `name`. */
  function Feature(d: Features, name: string): int {
    match name
    case "age" => d.age
    case "gender" => d.gender
    case "BPMeds" => d.bpMeds
    case "BMI" => d.bmi
    case "totChol" => d.totChol
    case "sysBP" => d.sysBP
    case "diaBP" => d.diaBP
    case "glucose" => d.glucose
    case "heartRate" => d.heartRate
    case "is_smoking" => d.isSmoking
    case "education" => d.education
    case "cigsPerDay" => d.cigsPerDay
    case "prevalentStroke" => d.prevalentStroke
    case "prevalentHyp" => d.prevalentHyp
    case _ => d.diabetes
  }

  /** Column `i` of the row holds the feature the classifier's `i`-th column names. */
  lemma FeatureVectorColumns(d: Features)
    ensures |ClassifierColumns| == |FeatureVector(d)|
    ensures forall i | 0 <= i < |ClassifierColumns| :: FeatureVector(d)[i] == Feature(d, ClassifierColumns[i])
  {
  }

  /** Every feature has its own column: two feature sets with the same row are the same. */
  lemma FeatureVectorInjective(d1: Features, d2: Features)
    ensures FeatureVector(d1) == FeatureVector(d2) ==> d1 == d2
  {
    if FeatureVector(d1) == FeatureVector(d2) {
      var v1, v2 := FeatureVector(d1), FeatureVector(d2);
      assert v1[0] == v2[0] && v1[1] == v2[1] && v1[2] == v2[2] && v1[3] == v2[3] && v1[4] == v2[4];
      assert v1[5] == v2[5] && v1[6] == v2[6] && v1[7] == v2[7] && v1[8] == v2[8] && v1[9] == v2[9];
      assert v1[10] == v2[10] && v1[11] == v2[11] && v1[12] == v2[12] && v1[13] == v2[13] && v1[14] == v2[14];
    }
  }

  /**
   * `medicationCodeableConcept.coding[0].code` as the service reads it: no
   * concept at all reads as no code, while a concept with an empty coding
   * list makes the read fail.
   */
  function MedicationCode(r: Resource): (c: Result<Option<string>, Error>)
    ensures c.Failure? <==> r.MedicationStatement? && r.medication == Some([])
    ensures c.Success? && c.value.Some? <==>
      r.MedicationStatement? && r.medication.Some? && |r.medication.value| > 0
    ensures c.Success? && c.value.Some? ==> c.value.value == r.medication.value[0].code
  {
    match r
    case MedicationStatement(Some(codes), _, _) =>
      if |codes| == 0 then Failure(BadData("list index out of range")) else Success(Some(codes[0].code))
    case _ => Success(None)
  }

  /** A MedicationStatement's status, read as "stopped" when absent. */
  function MedicationStatusOf(r: Resource): string {
    if r.MedicationStatement? && r.medicationStatus.Some? then r.medicationStatus.value else "stopped"
  }

  /** The statement records the blood-pressure medication as being taken. */
  predicate TakesBpMeds(r: Resource)
    ensures TakesBpMeds(r) <==>
      && r.MedicationStatement? && r.medication.Some? && |r.medication.value| > 0
      && r.medication.value[0].code == BpMedsCode && r.medicationStatus == Some("active")
  {
    MedicationCode(r) == Success(Some(BpMedsCode)) && MedicationStatusOf(r) == "active"
  }

  /**
   * Whether some entry records the blood-pressure medication as taken, every
   * entry being read; any unreadable entry fails the whole scan.
   */
  function BpMedsFlag(meds: seq<Entry>): (r: Result<bool, Error>)
    ensures r.Failure? <==> exists i | 0 <= i < |meds| :: MedicationCode(meds[i].resource).Failure?
    ensures r.Success? ==> (r.value <==> exists i | 0 <= i < |meds| :: TakesBpMeds(meds[i].resource))
    decreases |meds|
  {
    if |meds| == 0 then Success(false)
    else
      var rest := BpMedsFlag(meds[1..]);
      assert forall i | 1 <= i < |meds| :: meds[i] == meds[1..][i - 1];
      match MedicationCode(meds[0].resource)
      case Failure(e) => Failure(e)
      case Success(_) =>
        if rest.Failure? then rest
        else Success(TakesBpMeds(meds[0].resource) || rest.value)
  }

  /** Every feature the extraction does not compute keeps its default: 0, except education 1. */
  predicate Defaults(d: Features) {
    && d.bmi == 0 && d.totChol == 0 && d.sysBP == 0 && d.diaBP == 0 && d.glucose == 0
    && d.heartRate == 0 && d.isSmoking == 0 && d.cigsPerDay == 0
    && d.prevalentStroke == 0 && d.prevalentHyp == 0 && d.diabetes == 0
    && d.education == 1
  }

  function Indicator(b: bool): int {
    if b then 1 else 0
  }

  /**
   * `extract_patient_data`: the age as given, gender 1 exactly for "male",
   * BPMeds 1 exactly when some MedicationStatement records the medication as
   * taken, every other feature at its default. The Observations and
   * Conditions are accepted but not read.
   */
  function ExtractPatientData(age: int, gender: Option<string>, observations: seq<Entry>, conditions: seq<Entry>, meds: seq<Entry>): (r: Result<Features, Error>)
    ensures r.Failure? <==> exists i | 0 <= i < |meds| :: MedicationCode(meds[i].resource).Failure?
    ensures r.Success? ==>
      && r.value.age == age
      && r.value.gender in {0, 1} && (r.value.gender == 1 <==> gender == Some("male"))
      && r.value.bpMeds in {0, 1} && (r.value.bpMeds == 1 <==> exists i | 0 <= i < |meds| :: TakesBpMeds(meds[i].resource))
      && Defaults(r.value)
  {
    match BpMedsFlag(meds)
    case Failure(e) => Failure(e)
    case Success(taking) =>
      Success(Features(
        age := age,
        gender := Indicator(gender == Some("male")),
        bpMeds := Indicator(taking),
        bmi := 0, totChol := 0, sysBP := 0, diaBP := 0, glucose := 0, heartRate := 0,
        isSmoking := 0, education := 1, cigsPerDay := 0,
        prevalentStroke := 0, prevalentHyp := 0, diabetes := 0))
  }

  /** The extraction does not depend on the Observations and Conditions it is given. */
  lemma ExtractIgnoresObservations(age: int, gender: Option<string>, o1: seq<Entry>, c1: seq<Entry>, o2: seq<Entry>, c2: seq<Entry>, meds: seq<Entry>)
    ensures ExtractPatientData(age, gender, o1, c1, meds) == ExtractPatientData(age, gender, o2, c2, meds)
  {
  }

  /** The class reported with a score. */
  function RiskClass(score: real): (r: string)
    ensures r in {"High", "Low"}
    ensures r == "High" <==> score > 0.5
  {
    if score > 0.5 then "High" else "Low"
  }

  const TenYearChd := "TenYearCHD"

  /** The RiskAssessment `save_risk_assessment` posts for a score. */
  function RiskBody(pid: Id, score: real): (r: Resource)
    ensures r.RiskAssessment? && r.subject == Reference(pid)
    ensures |r.prediction| == 1 && r.prediction[0].outcome == TenYearChd && r.prediction[0].probability == score
  {
    RiskAssessment(Reference(pid), [RiskPrediction(TenYearChd, score)])
  }

  /**
   * `save_risk_assessment`: posts the score as a RiskAssessment about the
   * patient and answers the id the server assigned.
   */
  function SaveRiskAssessment(s: Server, pid: Id, score: real): (r: Reply<Id>)
    ensures r.server.log == s.log + [Exchange(Post(RiskBody(pid, score)), r.result.Success?)]
    ensures r.result.Success? <==> Fault(s).None?
    ensures r.result.Success? ==>
      && r.result.value == IdOf(s.next)
      && r.server.records == s.records[s.next := RiskBody(pid, score)]
      && r.server.next == s.next + 1
    ensures r.result.Failure? ==> r.server.records == s.records && r.server.next == s.next
  {
    Create(s, RiskBody(pid, score))
  }

  /** An error as the service reports it after checking the status code: anything but a transport failure is a 404. */
  function NotFoundUnlessUnreachable(e: Error): Error {
    if e == Unreachable then Unreachable else NotFound
  }

  /**
   * `get_patient`: the Patient with id `pid`; a non-200 answer is reported as
   * NotFound.
   */
  function GetPatient(s: Server, pid: Id): (r: Reply<Resource>)
    ensures r.server == Logged(s, Read(PatientType, pid), r.result.Success?)
    ensures r.result.Success? <==> Fault(s).None? && Locate(s.records, PatientType, pid).Some?
    ensures r.result.Success? ==> r.result.value.Patient? && r.result.value == s.records[Locate(s.records, PatientType, pid).value]
    ensures Fault(s).None? && Locate(s.records, PatientType, pid).None? ==> r.result == Failure(NotFound)
  {
    var q := Fetch(s, PatientType, pid);
    if q.result.Failure? then Reply(q.server, Failure(NotFoundUnlessUnreachable(q.result.error)))
    else q
  }

  /**
   * `get_observations`, `get_conditions`, `get_medication_status`: the entries
   * of a search of type `t` about the patient, the empty list when the answer
   * has none, and an error (a 404) when the search fails.
   */
  function SearchEntries(s: Server, t: ResourceType, pid: Id): (r: Reply<seq<Entry>>)
    ensures r.server == Logged(s, Query(t, Some(Reference(pid))), r.result.Success?)
    ensures r.result.Success? <==> Fault(s).None?
    ensures r.result.Success? ==> r.result.value == Matches(s, t, Some(Reference(pid)))
    ensures r.result.Success? && (forall k | k in s.records :: !Selected(s.records[k], t, Some(Reference(pid)))) ==> r.result.value == []
    ensures r.result.Failure? ==> r.result.error in {Unreachable, NotFound}
  {
    var q := Search(s, t, Some(Reference(pid)));
    if q.result.Failure? then Reply(q.server, Failure(NotFoundUnlessUnreachable(q.result.error)))
    else Reply(q.server, Success(EntriesOf(q.result.value)))
  }

  /** The entries of the three dependent searches about one patient. */
  datatype Dependents = Dependents(observations: seq<Entry>, conditions: seq<Entry>, medications: seq<Entry>)

  function StoredDependents(s: Server, pid: Id): Dependents {
    Dependents(
      Matches(s, ObservationType, Some(Reference(pid))),
      Matches(s, ConditionType, Some(Reference(pid))),
      Matches(s, MedicationStatementType, Some(Reference(pid))))
  }

  /** The three dependent searches of a prediction run, in order. */
  function DependentQueries(pid: Id): seq<Request> {
    [Query(ObservationType, Some(Reference(pid))),
     Query(ConditionType, Some(Reference(pid))),
     Query(MedicationStatementType, Some(Reference(pid)))]
  }

  /**
   * Searches the patient's Observations, Conditions and MedicationStatements
   * one after another, stopping at the first failure; it writes nothing, and
   * on success it answers what the store holds.
   */
  function ReadDependents(s: Server, pid: Id): (r: Reply<Dependents>)
    ensures Extends(s, r.server) && r.server.records == s.records && r.server.next == s.next
    ensures r.result.Success? ==>
      Completed(Calls(s, r.server), DependentQueries(pid)) && r.result.value == StoredDependents(s, pid)
  {
    var o := SearchEntries(s, ObservationType, pid);
    if o.result.Failure? then Reply(o.server, Failure(o.result.error))
    else
      var c := SearchEntries(o.server, ConditionType, pid);
      if c.result.Failure? then Reply(c.server, Failure(c.result.error))
      else
        var m := SearchEntries(c.server, MedicationStatementType, pid);
        if m.result.Failure? then Reply(m.server, Failure(m.result.error))
        else
          MatchesSameStore(s, o.server);
          MatchesSameStore(s, c.server);
          ThreeCompleted(s, o.server, c.server, m.server, DependentQueries(pid));
          Reply(m.server, Success(Dependents(o.result.value, c.result.value, m.result.value)))
  }

  lemma ThreeCompleted(s0: Server, s1: Server, s2: Server, s3: Server, qs: seq<Request>)
    requires |qs| == 3 && s1.faults == s0.faults && s2.faults == s1.faults && s3.faults == s2.faults
    requires s1.log == s0.log + [Exchange(qs[0], true)]
    requires s2.log == s1.log + [Exchange(qs[1], true)]
    requires s3.log == s2.log + [Exchange(qs[2], true)]
    ensures Extends(s0, s3) && Completed(Calls(s0, s3), qs)
  {
    var tail := [Exchange(qs[0], true), Exchange(qs[1], true), Exchange(qs[2], true)];
    assert s3.log == s0.log + tail;
    assert Calls(s0, s3) == tail;
  }

  /**
   * The features the service derives for patient `pid` from the store as it
   * stands, when every call is answered: the reference for what a run computes.
   */
  function StoredFeatures(s: Server, pid: Id, currentYear: int): (r: Result<Features, Error>)
    ensures Locate(s.records, PatientType, pid).None? ==> r == Failure(NotFound)
  {
    match Locate(s.records, PatientType, pid)
    case None => Failure(NotFound)
    case Some(k) =>
      match CalculateAge(BirthDateOf(s.records[k]), currentYear)
      case Failure(e) => Failure(e)
      case Success(age) =>
        var d := StoredDependents(s, pid);
        ExtractPatientData(age, GenderOf(s.records[k]), d.observations, d.conditions, d.medications)
  }

  /**
   * What the stored record yields: features exist exactly when the Patient is
   * stored, its birth date has a readable year and every MedicationStatement
   * about it can be read; they then carry that age, gender 1 exactly for
   * "male", BPMeds 1 exactly when some statement records the medication as
   * taken, and the defaults.
   */
  lemma StoredFeaturesOf(s: Server, pid: Id, currentYear: int)
    ensures var r := StoredFeatures(s, pid, currentYear);
      var meds := Matches(s, MedicationStatementType, Some(Reference(pid)));
      r.Success? <==>
        && Locate(s.records, PatientType, pid).Some?
        && CalculateAge(BirthDateOf(s.records[Locate(s.records, PatientType, pid).value]), currentYear).Success?
        && forall i | 0 <= i < |meds| :: MedicationCode(meds[i].resource).Success?
    ensures var r := StoredFeatures(s, pid, currentYear);
      r.Success? ==>
        var p := s.records[Locate(s.records, PatientType, pid).value];
        var meds := Matches(s, MedicationStatementType, Some(Reference(pid)));
        && r.value.age == CalculateAge(BirthDateOf(p), currentYear).value
        && (r.value.gender == 1 <==> GenderOf(p) == Some("male"))
        && (r.value.bpMeds == 1 <==> exists i | 0 <= i < |meds| :: TakesBpMeds(meds[i].resource))
        && Defaults(r.value)
  {
  }

  /** The reads of a prediction run: the Patient, then its Observations, Conditions and MedicationStatements. */
  function ReadPlan(pid: Id): seq<Request> {
    [Read(PatientType, pid)] + DependentQueries(pid)
  }

  /**
   * The reading half of `predict_risk`: fetch the Patient, compute the age,
   * search the three dependent types, extract the features. It writes
   * nothing; when it succeeds it made exactly the reads of `ReadPlan`, and
   * its features are the ones the stored record yields.
   */
  function GatherFeatures(s: Server, pid: Id, currentYear: int): (r: Reply<Features>)
    ensures Extends(s, r.server) && r.server.records == s.records && r.server.next == s.next
    ensures r.result.Success? ==>
      && Completed(Calls(s, r.server), ReadPlan(pid))
      && StoredFeatures(s, pid, currentYear) == Success(r.result.value)
    ensures StoredFeatures(s, pid, currentYear).Failure? ==> r.result.Failure?
  {
    var p := GetPatient(s, pid);
    if p.result.Failure? then Reply(p.server, Failure(p.result.error))
    else
      match CalculateAge(BirthDateOf(p.result.value), currentYear)
      case Failure(e) => Reply(p.server, Failure(e))
      case Success(age) =>
        var ds := ReadDependents(p.server, pid);
        if ds.result.Failure? then Reply(ds.server, Failure(ds.result.error))
        else
          var d := ds.result.value;
          FollowedAfter(s, p.server, Read(PatientType, pid), ds, DependentQueries(pid));
          assert StoredDependents(p.server, pid) == StoredDependents(s, pid);
          Reply(ds.server, ExtractPatientData(age, GenderOf(p.result.value), d.observations, d.conditions, d.medications))
  }

  /** What `predict_risk` answers. */
  datatype Prediction = Prediction(patientId: Id, riskScore: real, riskClass: string, riskAssessmentId: Id)

  /**
   * `predict_risk`: gathers the features, scores them with `scorer` (the
   * trained classifier's probability of the positive class), and saves the
   * score. Any failure on the way is answered as one internal error, and then
   * nothing was written. On success exactly one RiskAssessment about the
   * patient was added, holding the score computed from the stored record.
   */
  function PredictRisk(s: Server, pid: Id, currentYear: int, scorer: seq<int> -> real): (r: Reply<Prediction>)
    ensures Extends(s, r.server)
    ensures r.result.Failure? ==> r.result.error == Rejected && r.server.records == s.records && r.server.next == s.next
    ensures r.result.Success? ==>
      var v := r.result.value;
      && StoredFeatures(s, pid, currentYear).Success?
      && v.riskScore == scorer(FeatureVector(StoredFeatures(s, pid, currentYear).value))
      && v.patientId == pid
      && (v.riskClass == "High" <==> v.riskScore > 0.5)
      && v.riskAssessmentId == IdOf(s.next)
      && r.server.records == s.records[s.next := RiskBody(pid, v.riskScore)]
      && r.server.next == s.next + 1
      && Completed(Calls(s, r.server), ReadPlan(pid) + [Post(RiskBody(pid, v.riskScore))])
    ensures StoredFeatures(s, pid, currentYear).Failure? ==> r.result.Failure?
  {
    var g := GatherFeatures(s, pid, currentYear);
    if g.result.Failure? then Reply(g.server, Failure(Rejected))
    else
      var score := scorer(FeatureVector(g.result.value));
      var saved := SaveRiskAssessment(g.server, pid, score);
      if saved.result.Failure? then Reply(saved.server, Failure(Rejected))
      else
        PredictCalls(s, g.server, saved.server, ReadPlan(pid), Post(RiskBody(pid, score)));
        Reply(saved.server, Success(Prediction(pid, score, RiskClass(score), saved.result.value)))
  }

  /** Completing the reads and then making one successful POST completes the reads followed by that POST. */
  lemma PredictCalls(s: Server, read: Server, saved: Server, plan: seq<Request>, post: Request)
    requires Extends(s, read) && Completed(Calls(s, read), plan)
    requires saved.log == read.log + [Exchange(post, true)] && saved.faults == read.faults
    ensures Extends(s, saved) && Completed(Calls(s, saved), plan + [post])
  {
    assert Extends(read, saved) && Calls(read, saved) == [Exchange(post, true)];
    CallsAppend(s, read, saved);
    CompletedThen(Calls(s, read), plan, Calls(read, saved), [post]);
  }

  /** On a server that answers every call, the three dependent searches succeed. */
  lemma ReadDependentsReliable(s: Server, pid: Id)
    requires Reliable(s)
    ensures ReadDependents(s, pid).result.Success?
  {
    var o := SearchEntries(s, ObservationType, pid);
    ReliableLater(s, o.server);
    var c := SearchEntries(o.server, ConditionType, pid);
    ReliableLater(o.server, c.server);
  }

  /**
   * On a server that answers every call, reading a patient's features fails
   * exactly when the stored record yields none.
   */
  lemma GatherReliable(s: Server, pid: Id, currentYear: int)
    requires Reliable(s)
    ensures GatherFeatures(s, pid, currentYear).result.Success? <==> StoredFeatures(s, pid, currentYear).Success?
  {
    var p := GetPatient(s, pid);
    if p.result.Success? {
      ReliableLater(s, p.server);
      ReadDependentsReliable(p.server, pid);
    }
  }

  /**
   * On a server that answers every call, a prediction run succeeds exactly
   * when the stored record yields the features.
   */
  lemma PredictReliable(s: Server, pid: Id, currentYear: int, scorer: seq<int> -> real)
    requires Reliable(s)
    ensures PredictRisk(s, pid, currentYear, scorer).result.Success? <==> StoredFeatures(s, pid, currentYear).Success?
  {
    GatherReliable(s, pid, currentYear);
    var g := GatherFeatures(s, pid, currentYear);
    ReliableLater(s, g.server);
  }
}
