/**
 * What reading a freshly assembled record graph gives back: the listing shows
 * the form's condition flags, the risk service extracts the form's
 * blood-pressure medication flag, and deleting the patient restores the store
 * as it was before the form was submitted.
 *
 * Each property assumes that nothing already in the store refers to the id the
 * new Patient is given. The record server does not check references, so a
 * stale `Patient/<id>` reference could otherwise be picked up by the readers.
 */
module RoundTrips {
  import opened Wrappers
  import opened Decimal
  import opened Resources
  import opened Server
  import opened Assembler
  import opened Aggregator
  import opened Purger
  import opened RiskService
  import opened Routes

  /**
   * The features a form's patient is scored on: the age, gender 1 exactly for
   * "male", BPMeds 1 exactly when the form's flag is "true", and every other
   * feature at its default, whatever else the form recorded.
   */
  function FormFeatures(f: Form, age: int): Features {
    Features(
      age := age,
      gender := Indicator(f.gender == Some("male")),
      bpMeds := Indicator(IsTrue(f.bpMeds)),
      bmi := 0, totChol := 0, sysBP := 0, diaBP := 0, glucose := 0, heartRate := 0,
      isSmoking := 0, education := 1, cigsPerDay := 0,
      prevalentStroke := 0, prevalentHyp := 0, diabetes := 0)
  }

  /** No resource in `records` refers to patient `pid`. */
  ghost predicate Unreferenced(records: map<nat, Resource>, pid: Id) {
    forall k | k in records :: SubjectOf(records[k]) != Some(Reference(pid))
  }

  /** A successful assembly added the record graph under fresh serials and changed nothing else. */
  lemma AssembledStore(s: Server, f: Form)
    requires Assemble(s, f).result.Success?
    ensures var a := Assemble(s, f);
      var graph := RecordGraph(IdOf(s.next), f);
      && a.result.value == IdOf(s.next)
      && a.server.next == s.next + |graph|
      && a.server.records == s.records + Fresh(s.next, graph)
      && Extends(s, a.server)
  {
    AssembleFollowsPlan(s, f);
    AssembleRecords(s, f);
    var graph := RecordGraph(IdOf(s.next), f);
    assert graph[..|graph|] == graph;
  }

  /** A serial of the assembled store holds either what it held before or one element of the graph. */
  lemma StoredAt(prior: map<nat, Resource>, start: nat, graph: seq<Resource>, records: map<nat, Resource>, k: nat)
    requires records == prior + Fresh(start, graph)
    requires k in records
    ensures start <= k < start + |graph| ==> records[k] == graph[k - start]
    ensures !(start <= k < start + |graph|) ==> k in prior && records[k] == prior[k]
  {
  }

  /** Each element of the graph is stored under its serial. */
  lemma InStore(prior: map<nat, Resource>, start: nat, graph: seq<Resource>, records: map<nat, Resource>, j: nat)
    requires records == prior + Fresh(start, graph)
    requires j < |graph|
    ensures start + j in records && records[start + j] == graph[j]
  {
  }

  /** Where each kind of resource sits in the record graph. */
  lemma GraphKinds(pid: Id, f: Form, j: nat)
    requires j < |RecordGraph(pid, f)|
    ensures var graph := RecordGraph(pid, f);
      && (graph[j].Patient? <==> j == 0)
      && (graph[j].Condition? <==> 10 <= j < |graph| - 1)
      && (graph[j].MedicationStatement? <==> j == |graph| - 1)
      && (j == 0 ==> graph[j] == PatientBody(f))
      && (10 <= j < |graph| - 1 ==> graph[j] == ConditionBodies(pid, f)[j - 10])
      && (j == |graph| - 1 ==> graph[j] == MedicationBody(pid, f))
  {
    var graph := RecordGraph(pid, f);
    if 1 <= j < 10 {
      assert graph[j] == graph[1..10][j - 1] == ObservationBodies(pid, f)[j - 1];
    } else if 10 <= j < |graph| - 1 {
      assert graph[j] == graph[10..|graph| - 1][j - 10];
    }
  }

  /** A Condition about the new patient in the assembled store is one of the posted Condition bodies. */
  lemma ConditionFound(prior: map<nat, Resource>, start: nat, f: Form, records: map<nat, Resource>, code: string, k: nat)
    requires records == prior + Fresh(start, RecordGraph(IdOf(start), f))
    requires Unreferenced(prior, IdOf(start))
    requires k in records && Selected(records[k], ConditionType, Some(Reference(IdOf(start)))) && CodeOf(records[k]) == Some(code)
    ensures var cs := ConditionBodies(IdOf(start), f);
      exists i | 0 <= i < |cs| :: cs[i].code[0].code == code
  {
    var pid := IdOf(start);
    var graph := RecordGraph(pid, f);
    var cs := ConditionBodies(pid, f);
    StoredAt(prior, start, graph, records, k);
    if start <= k < start + |graph| {
      var j := k - start;
      GraphKinds(pid, f, j);
      assert records[k] == graph[j] && graph[j].Condition?;
      var c := cs[j - 10];
      assert records[k] == c;
      ConditionSelected(c, pid, c.code[0].code);
    }
  }

  /** Each posted Condition body is a Condition about the new patient in the assembled store. */
  lemma ConditionStored(prior: map<nat, Resource>, start: nat, f: Form, records: map<nat, Resource>, code: string, i: nat)
    requires records == prior + Fresh(start, RecordGraph(IdOf(start), f))
    requires i < |ConditionBodies(IdOf(start), f)| && ConditionBodies(IdOf(start), f)[i].code[0].code == code
    ensures HasCondition(records, IdOf(start), code)
  {
    var pid := IdOf(start);
    var graph := RecordGraph(pid, f);
    var j := 10 + i;
    GraphKinds(pid, f, j);
    InStore(prior, start, graph, records, j);
    var c := ConditionBodies(pid, f)[i];
    assert records[start + j] == c by {
      assert j - 10 == i;
    }
    ConditionSelected(c, pid, code);
  }

  /** A posted Condition body is what a search of the patient's Conditions selects, under its first code. */
  lemma ConditionSelected(c: Resource, pid: Id, code: string)
    requires c.Condition? && c.subject == Reference(pid) && |c.code| == 1 && c.code[0].code == code
    ensures Selected(c, ConditionType, Some(Reference(pid))) && CodeOf(c) == Some(code)
  {
  }

  /**
   * In the assembled store, the patient has a Condition with first code
   * `code` exactly when one of the Condition bodies posted for the form has it.
   */
  lemma ConditionsOfGraph(prior: map<nat, Resource>, start: nat, f: Form, records: map<nat, Resource>, code: string)
    requires records == prior + Fresh(start, RecordGraph(IdOf(start), f))
    requires Unreferenced(prior, IdOf(start))
    ensures var cs := ConditionBodies(IdOf(start), f);
      HasCondition(records, IdOf(start), code) <==> exists i | 0 <= i < |cs| :: cs[i].code[0].code == code
  {
    var pid := IdOf(start);
    var cs := ConditionBodies(pid, f);
    if HasCondition(records, pid, code) {
      var k :| k in records && Selected(records[k], ConditionType, Some(Reference(pid))) && CodeOf(records[k]) == Some(code);
      ConditionFound(prior, start, f, records, code, k);
    }
    if exists i | 0 <= i < |cs| :: cs[i].code[0].code == code {
      var i :| 0 <= i < |cs| && cs[i].code[0].code == code;
      ConditionStored(prior, start, f, records, code, i);
    }
  }

  /** The Conditions of the assembled store say exactly which of the form's three flags were "true". */
  lemma FlagsOfGraph(prior: map<nat, Resource>, start: nat, f: Form, records: map<nat, Resource>)
    requires records == prior + Fresh(start, RecordGraph(IdOf(start), f))
    requires Unreferenced(prior, IdOf(start))
    ensures HasCondition(records, IdOf(start), DiabetesCode) <==> IsTrue(f.diabetes)
    ensures HasCondition(records, IdOf(start), StrokeCode) <==> IsTrue(f.prevalentStroke)
    ensures HasCondition(records, IdOf(start), HypertensionCode) <==> IsTrue(f.prevalentHyp)
  {
    ConditionBodiesFlags(IdOf(start), f);
    ConditionsOfGraph(prior, start, f, records, DiabetesCode);
    ConditionsOfGraph(prior, start, f, records, StrokeCode);
    ConditionsOfGraph(prior, start, f, records, HypertensionCode);
  }

  /** The new Patient is found under its id in the assembled store. */
  lemma NewPatientLocated(prior: map<nat, Resource>, start: nat, f: Form, records: map<nat, Resource>)
    requires records == prior + Fresh(start, RecordGraph(IdOf(start), f))
    ensures start in records && records[start] == PatientBody(f)
    ensures Locate(records, PatientType, IdOf(start)) == Some(start)
  {
    SerialOfIdOf(start);
    GraphKinds(IdOf(start), f, 0);
    InStore(prior, start, RecordGraph(IdOf(start), f), records, 0);
  }

  /**
   * Assemble, then list: when the listing succeeds it has a row for the new
   * patient whose three condition flags are the form's "true" flags, whose
   * age is the year difference from the form's birth date, and whose name is
   * the form's name, or "Unknown" when that is missing or empty. On a server
   * that answers, the listing does succeed as long as the records already
   * there were listable.
   */
  lemma AssembleThenList(s: Server, f: Form, currentYear: int)
    requires Assemble(s, f).result.Success?
    requires Unreferenced(s.records, IdOf(s.next))
    ensures var l := ListPatients(Assemble(s, f).server, currentYear);
      l.result.Success? ==> exists i | 0 <= i < |l.result.value| ::
        && l.result.value[i].id == Assemble(s, f).result.value
        && (l.result.value[i].diabetes <==> IsTrue(f.diabetes))
        && (l.result.value[i].prevalentStroke <==> IsTrue(f.prevalentStroke))
        && (l.result.value[i].prevalentHyp <==> IsTrue(f.prevalentHyp))
        && l.result.value[i].age == ListAge(currentYear, f.birthDate)
        && l.result.value[i].name == (if f.name.Some? && f.name.value != "" then f.name.value else "Unknown")
        && !l.result.value[i].tenYearCHD
    ensures Reliable(s) && Listable(s.records) ==> ListPatients(Assemble(s, f).server, currentYear).result.Success?
  {
    var a := Assemble(s, f);
    AssembledStore(s, f);
    var l := ListPatients(a.server, currentYear);
    if l.result.Success? {
      var patients := Matches(a.server, PatientType, None);
      PatientListed(s.records, s.next, f, a.server);
      var i :| 0 <= i < |patients| && patients[i] == Entry(IdOf(s.next), PatientBody(f));
      FlagsOfGraph(s.records, s.next, f, a.server.records);
      ListedRow(a.server.records, s.next, f, currentYear, l.result.value[i]);
    }
    if Reliable(s) && Listable(s.records) {
      ReliableLater(s, a.server);
      ListableAfterGraph(s.records, s.next, f, a.server.records);
      ListReliable(a.server, currentYear);
    }
  }

  /** The record graph has a `name` array on its Patient and a code on every Condition, so it keeps a store listable. */
  lemma ListableAfterGraph(prior: map<nat, Resource>, start: nat, f: Form, records: map<nat, Resource>)
    requires records == prior + Fresh(start, RecordGraph(IdOf(start), f))
    requires Listable(prior)
    ensures Listable(records)
  {
    var graph := RecordGraph(IdOf(start), f);
    forall k | k in records
      ensures records[k].Patient? ==> records[k].name.Some?
      ensures records[k].Condition? ==> CodeOf(records[k]).Some?
    {
      StoredAt(prior, start, graph, records, k);
      if start <= k < start + |graph| {
        GraphKinds(IdOf(start), f, k - start);
      }
    }
  }

  /** The new Patient is among the Patients the listing searches. */
  lemma PatientListed(prior: map<nat, Resource>, start: nat, f: Form, after: Server)
    requires after.records == prior + Fresh(start, RecordGraph(IdOf(start), f))
    ensures Entry(IdOf(start), PatientBody(f)) in Matches(after, PatientType, None)
  {
    NewPatientLocated(prior, start, f, after.records);
    assert Selected(after.records[start], PatientType, None);
  }

  /** The list row of the new Patient carries the form's name, birth year and condition flags. */
  lemma ListedRow(records: map<nat, Resource>, start: nat, f: Form, currentYear: int, v: Summary)
    requires Summarized(records, currentYear, Entry(IdOf(start), PatientBody(f)), v)
    requires HasCondition(records, IdOf(start), DiabetesCode) <==> IsTrue(f.diabetes)
    requires HasCondition(records, IdOf(start), StrokeCode) <==> IsTrue(f.prevalentStroke)
    requires HasCondition(records, IdOf(start), HypertensionCode) <==> IsTrue(f.prevalentHyp)
    ensures v.id == IdOf(start)
    ensures (v.diabetes <==> IsTrue(f.diabetes)) && (v.prevalentStroke <==> IsTrue(f.prevalentStroke))
    ensures v.prevalentHyp <==> IsTrue(f.prevalentHyp)
    ensures v.age == ListAge(currentYear, f.birthDate)
    ensures v.name == (if f.name.Some? && f.name.value != "" then f.name.value else "Unknown")
    ensures !v.tenYearCHD
  {
  }

  /**
   * The MedicationStatements the risk service finds for the new patient are
   * the one the assembly posted.
   */
  lemma MedicationsOfGraph(prior: map<nat, Resource>, start: nat, f: Form, after: Server)
    requires after.records == prior + Fresh(start, RecordGraph(IdOf(start), f))
    requires Unreferenced(prior, IdOf(start))
    ensures var meds := Matches(after, MedicationStatementType, Some(Reference(IdOf(start))));
      && |meds| > 0
      && forall i | 0 <= i < |meds| :: meds[i].resource == MedicationBody(IdOf(start), f)
  {
    var pid := IdOf(start);
    var meds := Matches(after, MedicationStatementType, Some(Reference(pid)));
    forall i | 0 <= i < |meds|
      ensures meds[i].resource == MedicationBody(pid, f)
    {
      assert meds[i] in meds;
      MedicationFound(prior, start, f, after.records, SerialOf(meds[i].id).value);
    }
    MedicationStored(prior, start, f, after);
  }

  /** A MedicationStatement about the new patient in the assembled store is the one posted. */
  lemma MedicationFound(prior: map<nat, Resource>, start: nat, f: Form, records: map<nat, Resource>, k: nat)
    requires records == prior + Fresh(start, RecordGraph(IdOf(start), f))
    requires Unreferenced(prior, IdOf(start))
    requires k in records && Selected(records[k], MedicationStatementType, Some(Reference(IdOf(start))))
    ensures records[k] == MedicationBody(IdOf(start), f)
  {
    var graph := RecordGraph(IdOf(start), f);
    StoredAt(prior, start, graph, records, k);
    if start <= k < start + |graph| {
      GraphKinds(IdOf(start), f, k - start);
    }
  }

  /** The posted MedicationStatement is found by the search for the new patient's statements. */
  lemma MedicationStored(prior: map<nat, Resource>, start: nat, f: Form, after: Server)
    requires after.records == prior + Fresh(start, RecordGraph(IdOf(start), f))
    ensures |Matches(after, MedicationStatementType, Some(Reference(IdOf(start))))| > 0
  {
    var pid := IdOf(start);
    var graph := RecordGraph(pid, f);
    var j := |graph| - 1;
    GraphKinds(pid, f, j);
    InStore(prior, start, graph, after.records, j);
    var m := MedicationBody(pid, f);
    assert after.records[start + j] == m;
    assert Selected(m, MedicationStatementType, Some(Reference(pid)));
    assert Entry(IdOf(start + j), m) in Matches(after, MedicationStatementType, Some(Reference(pid)));
  }

  /**
   * Assemble, then extract: the features the risk service derives for the new
   * patient exist exactly when its birth date has a readable year, and then
   * carry that age, gender 1 exactly for "male", BPMeds 1 exactly when the
   * form's flag was "true", and every other feature at its default.
   */
  lemma AssembleThenExtract(s: Server, f: Form, currentYear: int)
    requires Assemble(s, f).result.Success?
    requires Unreferenced(s.records, IdOf(s.next))
    ensures var d := StoredFeatures(Assemble(s, f).server, Assemble(s, f).result.value, currentYear);
      && (d.Success? <==> CalculateAge(f.birthDate, currentYear).Success?)
      && (d.Success? ==>
            && d.value.age == CalculateAge(f.birthDate, currentYear).value
            && (d.value.gender == 1 <==> f.gender == Some("male"))
            && (d.value.bpMeds == 1 <==> IsTrue(f.bpMeds))
            && Defaults(d.value)
            && d.value == FormFeatures(f, d.value.age))
  {
    var a := Assemble(s, f);
    AssembledStore(s, f);
    NewPatientLocated(s.records, s.next, f, a.server.records);
    MedicationsOfGraph(s.records, s.next, f, a.server);
    FeaturesOfPatient(a.server, IdOf(s.next), s.next, f, currentYear);
  }

  /**
   * The features stored for a patient whose record is the form's Patient and
   * whose only MedicationStatement is the one posted for the form.
   */
  lemma FeaturesOfPatient(after: Server, pid: Id, k: nat, f: Form, currentYear: int)
    requires Locate(after.records, PatientType, pid) == Some(k) && after.records[k] == PatientBody(f)
    requires var meds := Matches(after, MedicationStatementType, Some(Reference(pid)));
      && |meds| > 0
      && forall i | 0 <= i < |meds| :: meds[i].resource == MedicationBody(pid, f)
    ensures var d := StoredFeatures(after, pid, currentYear);
      && (d.Success? <==> CalculateAge(f.birthDate, currentYear).Success?)
      && (d.Success? ==>
            && d.value.age == CalculateAge(f.birthDate, currentYear).value
            && (d.value.gender == 1 <==> f.gender == Some("male"))
            && (d.value.bpMeds == 1 <==> IsTrue(f.bpMeds))
            && Defaults(d.value)
            && d.value == FormFeatures(f, d.value.age))
  {
    var meds := Matches(after, MedicationStatementType, Some(Reference(pid)));
    MedicationsFlag(meds, pid, f);
  }

  /** A non-empty list of copies of the posted MedicationStatement reads as the form's BPMeds flag. */
  lemma {:induction false} MedicationsFlag(meds: seq<Entry>, pid: Id, f: Form)
    requires |meds| > 0 && forall i | 0 <= i < |meds| :: meds[i].resource == MedicationBody(pid, f)
    ensures BpMedsFlag(meds) == Success(IsTrue(f.bpMeds))
  {
    assert TakesBpMeds(meds[0].resource) <==> IsTrue(f.bpMeds);
    assert forall i | 0 <= i < |meds| :: MedicationCode(meds[i].resource).Success?;
  }

  /** Nothing of the graph survives `Without`, and nothing older is lost. */
  lemma WithoutGraph(prior: map<nat, Resource>, start: nat, f: Form, records: map<nat, Resource>)
    requires records == prior + Fresh(start, RecordGraph(IdOf(start), f))
    requires forall k | k in prior :: k < start
    requires Unreferenced(prior, IdOf(start))
    ensures Without(records, IdOf(start)) == prior
  {
    var pid := IdOf(start);
    var graph := RecordGraph(pid, f);
    GraphDependents(pid, f);
    forall k | k in records
      ensures k in prior <==> SubjectOf(records[k]) != Some(Reference(pid)) && !IsPatient(records, k, pid)
    {
      StoredAt(prior, start, graph, records, k);
      ShowInjective(k, start);
      if start <= k < start + |graph| {
        GraphKinds(pid, f, k - start);
      }
    }
  }

  /**
   * Assemble, then delete the new patient from a reliable server: the
   * deletion follows its plan to the end and leaves the store exactly as it
   * was before the form was submitted.
   */
  lemma AssembleThenPurge(s: Server, f: Form)
    requires Reliable(s)
    requires Unreferenced(s.records, IdOf(s.next))
    ensures Assemble(s, f).result.Success?
    ensures var a := Assemble(s, f);
      var p := Purge(a.server, a.result.value);
      && p.result == Success(())
      && p.server.records == s.records
      && Completed(Calls(a.server, p.server), PurgePlan(a.server, a.result.value))
  {
    var a := Assemble(s, f);
    AssembleReliable(s, f);
    AssembledStore(s, f);
    ReliableLater(s, a.server);
    NewPatientLocated(s.records, s.next, f, a.server.records);
    PurgeReliable(a.server, a.result.value);
    IssuedBelow(s);
    WithoutGraph(s.records, s.next, f, a.server.records);
  }

  /**
   * A submission to a reliable server: it shows a prediction exactly when the
   * form's birth date has a readable year, and then the prediction is for
   * the new patient and its score is the classifier's score of the features
   * the form yields.
   */
  lemma SubmitOnReliable(s: Server, f: Form, currentYear: int, scorer: seq<int> -> real)
    requires Reliable(s)
    requires Unreferenced(s.records, IdOf(s.next))
    ensures var r := SubmitRoute(s, f, currentYear, scorer);
      var age := CalculateAge(f.birthDate, currentYear);
      && (r.response.ResultPage? <==> age.Success?)
      && (r.response.ResultPage? ==>
            && r.response.patientId == IdOf(s.next)
            && r.response.prediction.riskScore == scorer(FeatureVector(FormFeatures(f, age.value))))
  {
    var a := Assemble(s, f);
    var pid := IdOf(s.next);
    AssembleReliable(s, f);
    AssembledStore(s, f);
    SubmitFollowsPlan(s, f, currentYear, scorer);
    ReliableLater(s, a.server);
    PredictReliable(a.server, pid, currentYear, scorer);
    AssembleThenExtract(s, f, currentYear);
  }

  /** A sample submission: a 1970-born non-smoking woman with hypertension only, not on blood-pressure medication. */
  const JaneDoe := Form(
    name := Some("Jane Doe"), gender := Some("female"), birthDate := Some("1970-05-01"),
    education := Some("2"), cigsPerDay := Some("0"), totChol := Some("210"), sysBP := Some("130"),
    diaBP := Some("85"), bmi := Some("26.5"), heartRate := Some("72"), glucose := Some("90"),
    isSmoking := Some("false"), bpMeds := Some("false"),
    prevalentStroke := Some("false"), prevalentHyp := Some("true"), diabetes := Some("false"))

  /** The sample's birth year is 1970. */
  lemma JaneDoeAge()
    ensures CalculateAge(JaneDoe.birthDate, 2024) == Success(54)
  {
    JaneDoeBirthDate();
    CalculateAgeOfYear(1970, "05-01", 2024);
  }

  /** The sample's birth date is the year 1970 written out, a dash, and "05-01". */
  lemma JaneDoeBirthDate()
    ensures JaneDoe.birthDate == Some(Show(1970) + "-" + "05-01")
  {
    assert Show(1) == "1";
    assert Show(19) == Show(1) + "9";
    assert Show(197) == Show(19) + "7";
    assert Show(1970) == Show(197) + "0";
    assert Show(1970) + "-" + "05-01" == "1970-05-01";
  }

  /**
   * The sample's record graph holds twelve resources: the Patient, nine
   * Observations, one hypertension Condition and a stopped MedicationStatement.
   */
  lemma JaneDoeGraph(pid: Id)
    ensures |RecordGraph(pid, JaneDoe)| == 12
    ensures ConditionBodies(pid, JaneDoe) == [ConditionBody(pid, HypertensionCode, "Hypertension")]
    ensures MedicationBody(pid, JaneDoe).medicationStatus == Some("stopped")
  {
  }

  /**
   * Submitted to a reliable server in 2024, the sample is scored on age 54,
   * gender 0, BPMeds 0, and the defaults for everything else it recorded.
   */
  lemma JaneDoeSubmission(s: Server, scorer: seq<int> -> real)
    requires Reliable(s)
    requires Unreferenced(s.records, IdOf(s.next))
    ensures var r := SubmitRoute(s, JaneDoe, 2024, scorer);
      && r.response.ResultPage?
      && r.response.prediction.riskScore == scorer([54, 0, 0, 0, 0, 0, 0, 0, 0, 0, 1, 0, 0, 0, 0])
  {
    JaneDoeAge();
    SubmitOnReliable(s, JaneDoe, 2024, scorer);
    assert FeatureVector(FormFeatures(JaneDoe, 54)) == [54, 0, 0, 0, 0, 0, 0, 0, 0, 0, 1, 0, 0, 0, 0];
  }
}
