/**
 * The Record Assembler: the four creation steps of the patient service, and
 * their composition in the order the form submission runs them.
 */
module Assembler {
  import opened Wrappers
  import opened Resources
  import opened Server

  /** The Patient posted for a form: one official name holding the form's name, gender and birth date as sent. */
  function PatientBody(f: Form): Resource {
    Patient(Some([HumanName("official", f.name)]), f.gender, f.birthDate)
  }

  /** `createPatient`: posts the Patient and answers the id the server assigned it. */
  function CreatePatient(s: Server, f: Form): (r: Reply<Id>)
    ensures |r.server.log| == |s.log| + 1 && r.server.log[..|s.log|] == s.log
    ensures var q := r.server.log[|s.log|].request;
      && q.Post? && q.body.Patient?
      && q.body.name == Some([HumanName("official", f.name)])
      && q.body.gender == f.gender && q.body.birthDate == f.birthDate
    ensures r.result.Success? <==> Fault(s).None?
    ensures r.result.Success? ==>
      && r.result.value == IdOf(s.next)
      && Locate(r.server.records, PatientType, r.result.value) == Some(s.next)
      && r.server.records[s.next] == r.server.log[|s.log|].request.body
  {
    var r := Create(s, PatientBody(f));
    if r.result.Success? then CreateLocates(s, PatientBody(f)); r else r
  }

  /** One row of the fixed observation catalogue: its code, its display text and the value recorded. */
  datatype ObservationRow = ObservationRow(code: string, display: string, value: ObservationValue)

  function Measured(value: Option<string>, unit: Option<string>): ObservationValue {
    ValueQuantity(Quantity(value, unit))
  }

  /** Smoking status is the one categorical observation: a current-smoker or a non-smoker concept. */
  function SmokingValue(f: Form): ObservationValue {
    if IsTrue(f.isSmoking) then
      ValueCodeableConcept([Coding(None, CurrentSmokerCode, "Current smoker")])
    else
      ValueCodeableConcept([Coding(None, NonSmokerCode, "Non-smoker")])
  }

  /** The nine observations recorded for every form, in the order they are created. */
  function ObservationRows(f: Form): seq<ObservationRow> {
    [ ObservationRow("39156-5", "BMI", Measured(f.bmi, Some("kg/m2"))),
      ObservationRow("2093-3", "Total Cholesterol", Measured(f.totChol, Some("mg/dL"))),
      ObservationRow("8480-6", "Systolic Blood Pressure", Measured(f.sysBP, Some("mmHg"))),
      ObservationRow("8462-4", "Diastolic Blood Pressure", Measured(f.diaBP, Some("mmHg"))),
      ObservationRow("15074-8", "Glucose", Measured(f.glucose, Some("mg/dL"))),
      ObservationRow("8867-4", "Heart Rate", Measured(f.heartRate, Some("bpm"))),
      ObservationRow(SmokingStatusCode, "Smoking Status", SmokingValue(f)),
      ObservationRow("edu", "Education", Measured(f.education, None)),
      ObservationRow("cig", "Cigarettes Per Day", Measured(f.cigsPerDay, Some("cig/day"))) ]
  }

  function ObservationBody(pid: Id, row: ObservationRow): Resource {
    Observation("final", [Coding(Some(LoincSystem), row.code, row.display)], Reference(pid), row.value)
  }

  /** The Observation bodies posted for patient `pid`. */
  function ObservationBodies(pid: Id, f: Form): (r: seq<Resource>)
    ensures |r| == 9
    ensures forall i | 0 <= i < |r| ::
      && r[i].Observation? && r[i].status == "final" && r[i].subject == Reference(pid)
      && |r[i].code| == 1 && r[i].code[0].system == Some(LoincSystem)
    ensures forall i, j | 0 <= i < j < |r| :: r[i].code[0].code != r[j].code[0].code
    ensures forall i | 0 <= i < |r| :: r[i].value.ValueCodeableConcept? <==> r[i].code[0].code == SmokingStatusCode
    ensures r[6].code[0].code == SmokingStatusCode
    ensures r[6].value.coding == [Coding(None, if IsTrue(f.isSmoking) then CurrentSmokerCode else NonSmokerCode,
                                           if IsTrue(f.isSmoking) then "Current smoker" else "Non-smoker")]
    ensures r[7].code[0].code == "edu" && r[7].value == ValueQuantity(Quantity(f.education, None))
    ensures forall i | 0 <= i < |r| && i != 6 :: r[i].value.quantity.unit.Some? <==> i != 7
  {
    var rows := ObservationRows(f);
    seq(|rows|, i requires 0 <= i < |rows| => ObservationBody(pid, rows[i]))
  }

  /**
   * Each of the nine Observations, in creation order: its LOINC coding, and the
   * form field and unit its `valueQuantity` carries, or for smoking status the
   * coded concept chosen by the form's flag.
   */
  lemma ObservationCatalogue(pid: Id, f: Form)
    ensures var r := ObservationBodies(pid, f);
      && r[0] == Observation("final", [Coding(Some(LoincSystem), "39156-5", "BMI")], Reference(pid),
                             ValueQuantity(Quantity(f.bmi, Some("kg/m2"))))
      && r[1] == Observation("final", [Coding(Some(LoincSystem), "2093-3", "Total Cholesterol")], Reference(pid),
                             ValueQuantity(Quantity(f.totChol, Some("mg/dL"))))
      && r[2] == Observation("final", [Coding(Some(LoincSystem), "8480-6", "Systolic Blood Pressure")], Reference(pid),
                             ValueQuantity(Quantity(f.sysBP, Some("mmHg"))))
      && r[3] == Observation("final", [Coding(Some(LoincSystem), "8462-4", "Diastolic Blood Pressure")], Reference(pid),
                             ValueQuantity(Quantity(f.diaBP, Some("mmHg"))))
      && r[4] == Observation("final", [Coding(Some(LoincSystem), "15074-8", "Glucose")], Reference(pid),
                             ValueQuantity(Quantity(f.glucose, Some("mg/dL"))))
      && r[5] == Observation("final", [Coding(Some(LoincSystem), "8867-4", "Heart Rate")], Reference(pid),
                             ValueQuantity(Quantity(f.heartRate, Some("bpm"))))
      && r[6] == Observation("final", [Coding(Some(LoincSystem), SmokingStatusCode, "Smoking Status")], Reference(pid),
                             if IsTrue(f.isSmoking) then ValueCodeableConcept([Coding(None, CurrentSmokerCode, "Current smoker")])
                             else ValueCodeableConcept([Coding(None, NonSmokerCode, "Non-smoker")]))
      && r[7] == Observation("final", [Coding(Some(LoincSystem), "edu", "Education")], Reference(pid),
                             ValueQuantity(Quantity(f.education, None)))
      && r[8] == Observation("final", [Coding(Some(LoincSystem), "cig", "Cigarettes Per Day")], Reference(pid),
                             ValueQuantity(Quantity(f.cigsPerDay, Some("cig/day"))))
  {
  }

  /** `createObservations`: posts the nine Observations one after another, stopping at the first failure. */
  function CreateObservations(s: Server, pid: Id, f: Form): (r: Reply<()>)
    ensures Followed(s, r, Posts(ObservationBodies(pid, f)))
    ensures r.result.Success? ==> |Calls(s, r.server)| == 9
    ensures s.next <= r.server.next <= s.next + 9
  {
    var bodies := ObservationBodies(pid, f);
    assert |Posts(bodies)| == 9;
    CreateAllFollows(s, bodies);
    CreateAll(s, bodies)
  }

  function ConditionBody(pid: Id, code: string, display: string): Resource {
    Condition([Coding(Some(SnomedSystem), code, display)], Reference(pid))
  }

  /** Where a condition code sits in the order the conditions are created. */
  function ConditionRank(code: string): nat {
    if code == StrokeCode then 0 else if code == HypertensionCode then 1 else 2
  }

  /** How many of the three condition flags are exactly "true". */
  function TrueFlags(f: Form): nat {
    (if IsTrue(f.prevalentStroke) then 1 else 0)
    + (if IsTrue(f.prevalentHyp) then 1 else 0)
    + (if IsTrue(f.diabetes) then 1 else 0)
  }

  /** The Condition bodies posted for patient `pid`: one per condition flag that is exactly "true". */
  function ConditionBodies(pid: Id, f: Form): (r: seq<Resource>)
    ensures |r| == TrueFlags(f)
    ensures forall i | 0 <= i < |r| ::
      && r[i].Condition? && r[i].subject == Reference(pid)
      && |r[i].code| == 1 && r[i].code[0].system == Some(SnomedSystem)
  {
    var a := FlagCondition(f.prevalentStroke, pid, StrokeCode, "Stroke");
    var b := FlagCondition(f.prevalentHyp, pid, HypertensionCode, "Hypertension");
    var c := FlagCondition(f.diabetes, pid, DiabetesCode, "Diabetes");
    assert forall i | 0 <= i < |a + b + c| :: (a + b + c)[i] in a || (a + b + c)[i] in b || (a + b + c)[i] in c;
    a + b + c
  }

  /** The Condition posted for one flag: one when it is exactly "true", none otherwise. */
  function FlagCondition(flag: Option<string>, pid: Id, code: string, display: string): (r: seq<Resource>)
    ensures |r| == if IsTrue(flag) then 1 else 0
    ensures forall i | 0 <= i < |r| :: r[i] == ConditionBody(pid, code, display)
  {
    if IsTrue(flag) then [ConditionBody(pid, code, display)] else []
  }

  /** A Condition with the stroke, hypertension or diabetes code is posted exactly when that flag is "true". */
  lemma ConditionBodiesFlags(pid: Id, f: Form)
    ensures var r := ConditionBodies(pid, f);
      && ((exists i | 0 <= i < |r| :: r[i].code[0].code == StrokeCode) <==> IsTrue(f.prevalentStroke))
      && ((exists i | 0 <= i < |r| :: r[i].code[0].code == HypertensionCode) <==> IsTrue(f.prevalentHyp))
      && ((exists i | 0 <= i < |r| :: r[i].code[0].code == DiabetesCode) <==> IsTrue(f.diabetes))
  {
    var a, b, c := ConditionParts(pid, f);
    var r := a + b + c;
    if IsTrue(f.prevalentStroke) {
      assert r[0].code[0].code == StrokeCode;
    }
    if IsTrue(f.prevalentHyp) {
      assert r[|a|].code[0].code == HypertensionCode;
    }
    if IsTrue(f.diabetes) {
      assert r[|a| + |b|].code[0].code == DiabetesCode;
    }
  }

  /** The Conditions are posted stroke first, then hypertension, then diabetes. */
  lemma ConditionBodiesOrdered(pid: Id, f: Form)
    ensures var r := ConditionBodies(pid, f);
      forall i, j | 0 <= i < j < |r| :: ConditionRank(r[i].code[0].code) < ConditionRank(r[j].code[0].code)
  {
    var a, b, c := ConditionParts(pid, f);
  }

  /** `ConditionBodies` as its three flag parts, indexed. */
  lemma ConditionParts(pid: Id, f: Form) returns (a: seq<Resource>, b: seq<Resource>, c: seq<Resource>)
    ensures a == FlagCondition(f.prevalentStroke, pid, StrokeCode, "Stroke")
    ensures b == FlagCondition(f.prevalentHyp, pid, HypertensionCode, "Hypertension")
    ensures c == FlagCondition(f.diabetes, pid, DiabetesCode, "Diabetes")
    ensures ConditionBodies(pid, f) == a + b + c
    ensures forall i | 0 <= i < |a + b + c| ::
      && (i < |a| ==> (a + b + c)[i] == a[i])
      && (|a| <= i < |a| + |b| ==> (a + b + c)[i] == b[i - |a|])
      && (|a| + |b| <= i ==> (a + b + c)[i] == c[i - |a| - |b|])
  {
    a := FlagCondition(f.prevalentStroke, pid, StrokeCode, "Stroke");
    b := FlagCondition(f.prevalentHyp, pid, HypertensionCode, "Hypertension");
    c := FlagCondition(f.diabetes, pid, DiabetesCode, "Diabetes");
  }

  /** `createConditions`: posts one Condition per "true" flag, stroke first, then hypertension, then diabetes. */
  function CreateConditions(s: Server, pid: Id, f: Form): (r: Reply<()>)
    ensures Followed(s, r, Posts(ConditionBodies(pid, f)))
    ensures r.result.Success? ==> |Calls(s, r.server)| == TrueFlags(f)
    ensures s.next <= r.server.next <= s.next + TrueFlags(f)
  {
    var bodies := ConditionBodies(pid, f);
    assert |Posts(bodies)| == TrueFlags(f);
    CreateAllFollows(s, bodies);
    CreateAll(s, bodies)
  }

  /** The MedicationStatement posted for patient `pid`: blood-pressure medication, active or stopped. */
  function MedicationBody(pid: Id, f: Form): (r: Resource)
    ensures r.MedicationStatement? && r.subject == Reference(pid)
    ensures r.medication == Some([Coding(Some(NdcSystem), BpMedsCode, "Blood Pressure Medication")])
    ensures r.medicationStatus == Some("active") <==> IsTrue(f.bpMeds)
    ensures r.medicationStatus == Some("active") || r.medicationStatus == Some("stopped")
  {
    MedicationStatement(
      Some([Coding(Some(NdcSystem), BpMedsCode, "Blood Pressure Medication")]),
      Some(if IsTrue(f.bpMeds) then "active" else "stopped"),
      Reference(pid))
  }

  /** `createMedicationStatement`: posts exactly one MedicationStatement. */
  function CreateMedicationStatement(s: Server, pid: Id, f: Form): (r: Reply<()>)
    ensures Followed(s, r, [Post(MedicationBody(pid, f))])
    ensures r.result.Success? ==> r.server.records == s.records[s.next := MedicationBody(pid, f)]
    ensures r.result.Failure? ==> r.server.records == s.records
  {
    var c := Create(s, MedicationBody(pid, f));
    assert Calls(s, c.server) == [Exchange(Post(MedicationBody(pid, f)), c.result.Success?)];
    Reply(c.server, if c.result.Success? then Success(()) else Failure(c.result.error))
  }

  /** The resources stored under serials `start`, `start + 1`, ... for `bodies`, in order. */
  function Fresh(start: nat, bodies: seq<Resource>): (m: map<nat, Resource>)
    ensures forall k: nat :: k in m <==> start <= k < start + |bodies|
    ensures forall i | 0 <= i < |bodies| :: m[start + i] == bodies[i]
    decreases |bodies|
  {
    if |bodies| == 0 then map[] else Fresh(start + 1, bodies[1..])[start := bodies[0]]
  }

  /** Posts `bodies` one after another, stopping at the first failure; what was created stays created. */
  function CreateAll(s: Server, bodies: seq<Resource>): (r: Reply<()>)
    ensures s.next <= r.server.next <= s.next + |bodies|
    decreases |bodies|
  {
    if |bodies| == 0 then Reply(s, Success(()))
    else
      var c := Create(s, bodies[0]);
      if c.result.Failure? then Reply(c.server, Failure(c.result.error))
      else CreateAll(c.server, bodies[1..])
  }

  /** When `CreateAll` succeeds, every body was given a serial. */
  lemma {:induction false} CreateAllIssues(s: Server, bodies: seq<Resource>)
    ensures CreateAll(s, bodies).result.Success? ==> CreateAll(s, bodies).server.next == s.next + |bodies|
    decreases |bodies|
  {
    if |bodies| > 0 {
      var c := Create(s, bodies[0]);
      if c.result.Success? {
        CreateAllIssues(c.server, bodies[1..]);
      }
    }
  }

  /** `CreateAll` issues the posts of `bodies` in order, up to and including the first that fails. */
  lemma {:induction false} CreateAllFollows(s: Server, bodies: seq<Resource>)
    ensures Followed(s, CreateAll(s, bodies), Posts(bodies))
    decreases |bodies|
  {
    if |bodies| == 0 {
      assert Calls(s, s) == [];
    } else {
      var c := Create(s, bodies[0]);
      if c.result.Failure? {
        CreateAllStop(s, bodies, c);
      } else {
        CreateAllFollows(c.server, bodies[1..]);
        CreateAllStep(s, bodies, c.server, CreateAll(c.server, bodies[1..]));
      }
    }
  }

  /**
   * What `CreateAll` leaves on the server: the bodies it managed to post, one
   * by one under consecutive fresh serials.
   */
  lemma {:induction false} CreateAllRecords(s: Server, bodies: seq<Resource>)
    ensures var r := CreateAll(s, bodies);
      r.server.records == Stored(s.records, s.next, bodies, r.server.next - s.next)
    decreases |bodies|
  {
    if |bodies| == 0 || Create(s, bodies[0]).result.Failure? {
      CreateAllNone(s, bodies);
    } else {
      CreateAllRecords(Create(s, bodies[0]).server, bodies[1..]);
      CreateAllMore(s, bodies);
    }
  }

  lemma CreateAllNone(s: Server, bodies: seq<Resource>)
    requires |bodies| == 0 || Create(s, bodies[0]).result.Failure?
    ensures var r := CreateAll(s, bodies);
      r.server.records == Stored(s.records, s.next, bodies, r.server.next - s.next)
  {
  }

  lemma CreateAllMore(s: Server, bodies: seq<Resource>)
    requires |bodies| > 0 && Create(s, bodies[0]).result.Success?
    requires var c := Create(s, bodies[0]); var rest := CreateAll(c.server, bodies[1..]);
      rest.server.records == Stored(c.server.records, c.server.next, bodies[1..], rest.server.next - c.server.next)
    ensures var r := CreateAll(s, bodies);
      r.server.records == Stored(s.records, s.next, bodies, r.server.next - s.next)
  {
    var c := Create(s, bodies[0]);
    var rest := CreateAll(c.server, bodies[1..]);
    assert CreateAll(s, bodies) == rest;
    var n := rest.server.next - c.server.next;
    assert c.server.records == s.records[s.next := bodies[0]] && c.server.next == s.next + 1;
    StoredShift(s.records, s.next, bodies, n);
    assert rest.server.next - s.next == n + 1;
  }

  /** `records` after storing the first `n` of `bodies` one by one under serials `start`, `start + 1`, ... */
  function Stored(records: map<nat, Resource>, start: nat, bodies: seq<Resource>, n: nat): map<nat, Resource>
    requires n <= |bodies|
  {
    if n == 0 then records else Stored(records, start, bodies, n - 1)[start + n - 1 := bodies[n - 1]]
  }

  /** Storing the first body and then the next `n` is storing the first `n + 1`. */
  lemma {:induction false} StoredShift(records: map<nat, Resource>, start: nat, bodies: seq<Resource>, n: nat)
    requires n < |bodies|
    ensures Stored(records[start := bodies[0]], start + 1, bodies[1..], n) == Stored(records, start, bodies, n + 1)
  {
    if n > 0 {
      StoredShift(records, start, bodies, n - 1);
    }
  }

  /** Storing one by one is adding the fresh serials: `Stored` overwrites nothing it did not add. */
  lemma {:induction false} StoredIsFresh(records: map<nat, Resource>, start: nat, bodies: seq<Resource>, n: nat)
    requires n <= |bodies|
    ensures Stored(records, start, bodies, n) == records + Fresh(start, bodies[..n])
  {
    if n == 0 {
      assert bodies[..0] == [];
      assert records + Fresh(start, []) == records;
    } else {
      StoredIsFresh(records, start, bodies, n - 1);
      StoredIsFreshStep(records, start, bodies, n);
    }
  }

  /** The inductive step of `StoredIsFresh`: storing body `n - 1` adds serial `start + n - 1`. */
  lemma StoredIsFreshStep(records: map<nat, Resource>, start: nat, bodies: seq<Resource>, n: nat)
    requires 0 < n <= |bodies|
    requires Stored(records, start, bodies, n - 1) == records + Fresh(start, bodies[..n - 1])
    ensures Stored(records, start, bodies, n) == records + Fresh(start, bodies[..n])
  {
    var prefix, last, key := bodies[..n - 1], bodies[n - 1], start + n - 1;
    StoredLast(records, start, bodies, n, key, last);
    PrefixSnoc(bodies, n);
    FreshUnionSnoc(records, start, prefix, last);
    var grown := records + Fresh(start, prefix + [last]);
    assert Stored(records, start, bodies, n) == grown;
  }

  /** A prefix of length `n` is the prefix of length `n - 1` followed by element `n - 1`. */
  lemma PrefixSnoc<T>(s: seq<T>, n: nat)
    requires 0 < n <= |s|
    ensures s[..n - 1] + [s[n - 1]] == s[..n]
    ensures |s[..n - 1]| == n - 1
  {
  }

  /** Adding one more fresh serial to a store extended by fresh serials is extending it by one more. */
  lemma FreshUnionSnoc(records: map<nat, Resource>, start: nat, prefix: seq<Resource>, last: Resource)
    ensures (records + Fresh(start, prefix))[start + |prefix| := last] == records + Fresh(start, prefix + [last])
  {
    FreshSnoc(start, prefix, last);
    UnionUpdate(records, Fresh(start, prefix), start + |prefix|, last);
  }

  lemma StoredLast(records: map<nat, Resource>, start: nat, bodies: seq<Resource>, n: nat, key: nat, last: Resource)
    requires 0 < n <= |bodies| && key == start + n - 1 && last == bodies[n - 1]
    ensures Stored(records, start, bodies, n) == Stored(records, start, bodies, n - 1)[key := last]
  {
  }

  /** Giving one more body the next serial extends the fresh map by that one entry. */
  lemma FreshSnoc(start: nat, bodies: seq<Resource>, b: Resource)
    ensures Fresh(start, bodies + [b]) == Fresh(start, bodies)[start + |bodies| := b]
  {
    var after, before := Fresh(start, bodies + [b]), Fresh(start, bodies)[start + |bodies| := b];
    forall k | k in after
      ensures k in before && after[k] == before[k]
    {
      assert after[start + (k - start)] == (bodies + [b])[k - start];
      if k < start + |bodies| {
        assert Fresh(start, bodies)[start + (k - start)] == bodies[k - start];
      }
    }
  }

  lemma UnionUpdate(records: map<nat, Resource>, m: map<nat, Resource>, k: nat, v: Resource)
    ensures (records + m)[k := v] == records + m[k := v]
  {
  }

  /** A first post that fails ends `CreateAll` with nothing created. */
  lemma CreateAllStop(s: Server, bodies: seq<Resource>, c: Reply<Id>)
    requires |bodies| > 0 && c.result.Failure?
    requires c.server.log == s.log + [Exchange(Post(bodies[0]), false)] && c.server.faults == s.faults
    requires c.server.records == s.records && c.server.next == s.next
    ensures var r: Reply<()> := Reply(c.server, Failure(c.result.error)); Followed(s, r, Posts(bodies))
  {
    assert Calls(s, c.server) == [Exchange(Post(bodies[0]), false)];
  }

  /** A first post that succeeds, followed by `CreateAll` of the rest, follows the plan of the whole. */
  lemma CreateAllStep(s: Server, bodies: seq<Resource>, mid: Server, rest: Reply<()>)
    requires |bodies| > 0
    requires mid.log == s.log + [Exchange(Post(bodies[0]), true)] && mid.faults == s.faults
    requires Followed(mid, rest, Posts(bodies[1..]))
    ensures Followed(s, rest, Posts(bodies))
  {
    assert Extends(s, mid) && Calls(s, mid) == [Exchange(Post(bodies[0]), true)];
    assert Posts(bodies) == [Post(bodies[0])] + Posts(bodies[1..]);
    FollowedAfter(s, mid, Post(bodies[0]), rest, Posts(bodies[1..]));
  }

  // ---------------------------------------------------------------------------
  // The whole record graph

  /**
   * The resources one form becomes, in creation order: the Patient, then its
   * nine Observations, its Conditions and its one MedicationStatement.
   */
  function RecordGraph(pid: Id, f: Form): (r: seq<Resource>)
    ensures |r| == 11 + TrueFlags(f)
    ensures r[0] == PatientBody(f)
    ensures r[1..10] == ObservationBodies(pid, f)
    ensures r[10..|r| - 1] == ConditionBodies(pid, f)
    ensures r[|r| - 1] == MedicationBody(pid, f)
  {
    var r := [PatientBody(f)] + (ObservationBodies(pid, f) + (ConditionBodies(pid, f) + [MedicationBody(pid, f)]));
    assert r[1..10] == ObservationBodies(pid, f);
    assert r[10..|r| - 1] == ConditionBodies(pid, f);
    r
  }

  /** Everything in the record graph after the Patient is a dependent that refers to it. */
  lemma GraphDependents(pid: Id, f: Form)
    ensures var r := RecordGraph(pid, f);
      forall i | 1 <= i < |r| :: SubjectOf(r[i]) == Some(Reference(pid)) && TypeOf(r[i]) != PatientType
  {
    var r := RecordGraph(pid, f);
    forall i | 1 <= i < |r|
      ensures SubjectOf(r[i]) == Some(Reference(pid)) && TypeOf(r[i]) != PatientType
    {
      if i < 10 {
        assert r[i] == r[1..10][i - 1];
      } else if i < |r| - 1 {
        assert r[i] == r[10..|r| - 1][i - 10];
      }
    }
  }

  /**
   * The creation half of the form submission: the Patient first, then the
   * Observations, Conditions and MedicationStatement for the id the server gave
   * it. The first failing step ends the sequence; nothing is rolled back.
   */
  function Assemble(s: Server, f: Form): (r: Reply<Id>)
    ensures r.result.Success? ==> r.result.value == IdOf(s.next)
  {
    var p := CreatePatient(s, f);
    if p.result.Failure? then Reply(p.server, Failure(p.result.error))
    else
      var d := CreateDependents(p.server, p.result.value, f);
      Reply(d.server, if d.result.Success? then Success(p.result.value) else Failure(d.result.error))
  }

  /**
   * The steps after the Patient exists: Observations, then Conditions, then the
   * MedicationStatement, each only once the previous step succeeded.
   */
  function CreateDependents(s: Server, pid: Id, f: Form): (r: Reply<()>)
    ensures Followed(s, r, Posts(ObservationBodies(pid, f)) + (Posts(ConditionBodies(pid, f)) + [Post(MedicationBody(pid, f))]))
  {
    var obs, conds, med := Posts(ObservationBodies(pid, f)), Posts(ConditionBodies(pid, f)), [Post(MedicationBody(pid, f))];
    var o := CreateObservations(s, pid, f);
    if o.result.Failure? then
      FollowedStop(s, o, obs, o, conds + med);
      o
    else
      var c := CreateConditions(o.server, pid, f);
      if c.result.Failure? then
        FollowedStop(o.server, c, conds, c, med);
        FollowedThen(s, o, obs, c, conds + med);
        c
      else
        var m := CreateMedicationStatement(c.server, pid, f);
        FollowedThen(o.server, c, conds, m, med);
        FollowedThen(s, o, obs, m, conds + med);
        m
  }

  /** Posting `a + b` is posting `a` and then, if that succeeded, posting `b`. */
  lemma {:induction false} CreateAllAppend(s: Server, a: seq<Resource>, b: seq<Resource>)
    ensures CreateAll(s, a + b) ==
      (var r := CreateAll(s, a); if r.result.Failure? then r else CreateAll(r.server, b))
    decreases |a|
  {
    if |a| == 0 {
      assert a + b == b;
    } else {
      assert (a + b)[0] == a[0] && (a + b)[1..] == a[1..] + b;
      var c := Create(s, a[0]);
      if c.result.Success? {
        CreateAllAppend(c.server, a[1..], b);
      }
    }
  }

  /** Creating the dependents is posting their bodies in one sequence. */
  lemma CreateDependentsIsCreateAll(s: Server, pid: Id, f: Form)
    ensures CreateDependents(s, pid, f) == CreateAll(s, ObservationBodies(pid, f) + (ConditionBodies(pid, f) + [MedicationBody(pid, f)]))
  {
    var obs, conds, med := ObservationBodies(pid, f), ConditionBodies(pid, f), [MedicationBody(pid, f)];
    CreateAllAppend(s, obs, conds + med);
    var o := CreateAll(s, obs);
    if o.result.Success? {
      CreateAllAppend(o.server, conds, med);
      var c := CreateAll(o.server, conds);
      if c.result.Success? {
        assert med[1..] == [];
      }
    }
  }

  lemma CreateAllCons(s: Server, b: Resource, rest: seq<Resource>)
    ensures var c := Create(s, b);
      CreateAll(s, [b] + rest) == if c.result.Failure? then Reply(c.server, Failure(c.result.error)) else CreateAll(c.server, rest)
  {
    assert ([b] + rest)[0] == b && ([b] + rest)[1..] == rest;
  }

  /** The four creation steps run exactly as posting the whole record graph in one sequence. */
  lemma AssembleIsCreateAll(s: Server, f: Form)
    ensures var a := Assemble(s, f);
      var c := CreateAll(s, RecordGraph(IdOf(s.next), f));
      a.server == c.server && (a.result.Success? <==> c.result.Success?)
  {
    var pid := IdOf(s.next);
    var rest := ObservationBodies(pid, f) + (ConditionBodies(pid, f) + [MedicationBody(pid, f)]);
    GraphIsPatientThenRest(pid, f);
    CreateAllCons(s, PatientBody(f), rest);
    var p := CreatePatient(s, f);
    if p.result.Success? {
      AssembleAfterPatient(s, f);
      CreateDependentsIsCreateAll(p.server, pid, f);
    } else {
      AssembleStopsAtPatient(s, f);
    }
  }

  lemma GraphIsPatientThenRest(pid: Id, f: Form)
    ensures RecordGraph(pid, f) == [PatientBody(f)] + (ObservationBodies(pid, f) + (ConditionBodies(pid, f) + [MedicationBody(pid, f)]))
  {
  }

  lemma AssembleStopsAtPatient(s: Server, f: Form)
    requires CreatePatient(s, f).result.Failure?
    ensures Assemble(s, f).server == Create(s, PatientBody(f)).server && Assemble(s, f).result.Failure?
  {
  }

  lemma AssembleAfterPatient(s: Server, f: Form)
    requires CreatePatient(s, f).result.Success?
    ensures var d := CreateDependents(Create(s, PatientBody(f)).server, IdOf(s.next), f);
      Assemble(s, f).server == d.server && (Assemble(s, f).result.Success? <==> d.result.Success?)
  {
  }

  /**
   * A submission issues the Patient post, then the nine Observation posts, the
   * Condition posts and the MedicationStatement post, every dependent naming the
   * id the Patient was given; it stops at the first failed post, and what was
   * created before it stays on the server.
   */
  lemma AssembleFollowsPlan(s: Server, f: Form)
    ensures var r := Assemble(s, f);
      var graph := RecordGraph(IdOf(s.next), f);
      && Followed(s, r, Posts(graph))
      && (r.result.Success? ==> r.result.value == IdOf(s.next) && r.server.next == s.next + |graph|)
  {
    AssembleIsCreateAll(s, f);
    var graph := RecordGraph(IdOf(s.next), f);
    CreateAllFollows(s, graph);
    CreateAllIssues(s, graph);
    FollowedSame(s, CreateAll(s, graph), Assemble(s, f), Posts(graph));
  }

  /**
   * What a submission leaves on the server: the record graph, up to the
   * first failed post, under fresh serials; nothing else changes.
   */
  lemma AssembleRecords(s: Server, f: Form)
    ensures var r := Assemble(s, f);
      var graph := RecordGraph(IdOf(s.next), f);
      && s.next <= r.server.next <= s.next + |graph|
      && r.server.records == s.records + Fresh(s.next, graph[..r.server.next - s.next])
  {
    var graph := RecordGraph(IdOf(s.next), f);
    AssembleIsCreateAll(s, f);
    var c := CreateAllFresh(s, graph);
    SameServer(s, c, Assemble(s, f).server, graph);
  }

  lemma SameServer(s: Server, c: Server, a: Server, bodies: seq<Resource>)
    requires s.next <= c.next <= s.next + |bodies|
    requires c.records == s.records + Fresh(s.next, bodies[..c.next - s.next])
    requires a == c
    ensures s.next <= a.next <= s.next + |bodies|
    ensures a.records == s.records + Fresh(s.next, bodies[..a.next - s.next])
  {
  }

  /** What `CreateAll` leaves on the server, as fresh serials added to what was there. */
  lemma CreateAllFresh(s: Server, bodies: seq<Resource>) returns (c: Server)
    ensures c == CreateAll(s, bodies).server
    ensures s.next <= c.next <= s.next + |bodies|
    ensures c.records == s.records + Fresh(s.next, bodies[..c.next - s.next])
  {
    c := CreateAll(s, bodies).server;
    CreateAllRecords(s, bodies);
    StoredIsFresh(s.records, s.next, bodies, c.next - s.next);
  }


  /** Two replies that leave the same server and agree on success followed the same plan. */
  lemma FollowedSame<T, U>(s: Server, c: Reply<T>, a: Reply<U>, plan: seq<Request>)
    requires Followed(s, c, plan)
    requires a.server == c.server && (a.result.Success? <==> c.result.Success?)
    ensures Followed(s, a, plan)
  {
  }

  /** On a server that answers every call, every post succeeds. */
  lemma {:induction false} CreateAllReliable(s: Server, bodies: seq<Resource>)
    requires Reliable(s)
    ensures CreateAll(s, bodies).result.Success?
    decreases |bodies|
  {
    if |bodies| > 0 {
      var c := Create(s, bodies[0]);
      ReliableLater(s, c.server);
      CreateAllReliable(c.server, bodies[1..]);
    }
  }

  /** On a server that answers every call, the whole record graph is created. */
  lemma AssembleReliable(s: Server, f: Form)
    requires Reliable(s)
    ensures Assemble(s, f).result.Success?
  {
    AssembleIsCreateAll(s, f);
    CreateAllReliable(s, RecordGraph(IdOf(s.next), f));
  }
}
