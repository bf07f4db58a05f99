/**
 * The Record Aggregator: the patient list, each Patient joined with its
 * Conditions to derive three condition flags and a year-difference age.
 */
module Aggregator {
  import opened Wrappers
  import opened Decimal
  import opened Resources
  import opened Server

  /** One row of the patient list. */
  datatype Summary = Summary(
    id: Id,
    name: string,
    age: Option<int>,
    diabetes: bool,
    prevalentStroke: bool,
    prevalentHyp: bool,
    tenYearCHD: bool)

  /**
   * The text of the Patient's first name, or "Unknown" when there is no first
   * name or its text is missing or empty; a Patient without a `name` array
   * cannot be listed.
   */
  function DisplayName(p: Resource): (r: Result<string, Error>)
    ensures r.Success? <==> p.Patient? && p.name.Some?
    ensures r.Success? ==> r.value != ""
    ensures r.Success? && r.value != "Unknown" ==>
      |p.name.value| > 0 && p.name.value[0].text == Some(r.value)
    ensures r.Success? && |p.name.value| > 0 && p.name.value[0].text.Some? && p.name.value[0].text.value != "" ==>
      r.value == p.name.value[0].text.value
  {
    match p
    case Patient(Some(names), _, _) =>
      if |names| > 0 && names[0].text.Some? && names[0].text.value != "" then Success(names[0].text.value)
      else Success("Unknown")
    case _ => Failure(BadData("patient has no name array"))
  }

  /**
   * The listed age: the current year minus the year of the birth date; absent
   * (NaN in the listing) when the birth date is missing or has no readable year.
   */
  function ListAge(currentYear: int, birthDate: Option<string>): (r: Option<int>)
    ensures r.Some? <==> birthDate.Some? && YearOf(birthDate.value).Some?
    ensures r.Some? ==> r.value + YearOf(birthDate.value).value == currentYear
  {
    match birthDate
    case None => None
    case Some(d) =>
      match YearOf(d)
      case None => None
      case Some(y) => Some(currentYear - y)
  }

  /** `resource.code.coding[0].code`, or None where evaluating it would throw. */
  function CodeOf(r: Resource): Option<string> {
    match r
    case Condition(code, _) => FirstCode(code)
    case Observation(_, code, _, _) => FirstCode(code)
    case _ => None
  }

  /** `some` stops at entry `i` with a match: every entry before it has a first code, and entry `i`'s is `code`. */
  predicate MatchAt(conds: seq<Entry>, code: string, i: int)
    requires 0 <= i < |conds|
  {
    CodeOf(conds[i].resource) == Some(code) && forall j | 0 <= j < i :: CodeOf(conds[j].resource).Some?
  }

  /** `some` throws at entry `i`: it has no first code, and no entry before it matched. */
  predicate ThrowAt(conds: seq<Entry>, code: string, i: int)
    requires 0 <= i < |conds|
  {
    CodeOf(conds[i].resource).None? && forall j | 0 <= j < i :: CodeOf(conds[j].resource) != Some(code)
  }

  /**
   * Whether some entry's first code is `code`, scanning in order and stopping at
   * the first match (`Array.prototype.some`); an entry without a first code
   * reached before any match makes the scan throw, one after a match is never read.
   */
  function AnyCode(conds: seq<Entry>, code: string): (r: Result<bool, Error>)
    ensures r == Success(true) <==> exists i | 0 <= i < |conds| :: MatchAt(conds, code, i)
    ensures r.Failure? <==> exists i | 0 <= i < |conds| :: ThrowAt(conds, code, i)
    ensures r == Success(false) <==>
      forall i | 0 <= i < |conds| :: CodeOf(conds[i].resource).Some? && CodeOf(conds[i].resource) != Some(code)
    ensures (forall i | 0 <= i < |conds| :: CodeOf(conds[i].resource).Some?) ==> r.Success?
    decreases |conds|
  {
    if |conds| == 0 then Success(false)
    else
      match CodeOf(conds[0].resource)
      case None =>
        assert ThrowAt(conds, code, 0);
        assert forall i | 0 <= i < |conds| :: !MatchAt(conds, code, i);
        Failure(BadData("condition without a coding"))
      case Some(c) =>
        if c == code then
          assert MatchAt(conds, code, 0);
          assert forall i | 0 <= i < |conds| :: !ThrowAt(conds, code, i);
          Success(true)
        else
          var rest := AnyCode(conds[1..], code);
          ScanShift(conds, code);
          assert forall i | 1 <= i < |conds| :: conds[i] == conds[1..][i - 1];
          rest
  }

  /** Past a first entry that is coded and does not match, the scan's outcome is decided by the rest. */
  lemma ScanShift(conds: seq<Entry>, code: string)
    requires |conds| > 0 && CodeOf(conds[0].resource).Some? && CodeOf(conds[0].resource) != Some(code)
    ensures (exists i | 0 <= i < |conds| :: MatchAt(conds, code, i)) <==> (exists i | 0 <= i < |conds| - 1 :: MatchAt(conds[1..], code, i))
    ensures (exists i | 0 <= i < |conds| :: ThrowAt(conds, code, i)) <==> (exists i | 0 <= i < |conds| - 1 :: ThrowAt(conds[1..], code, i))
  {
    var rest := conds[1..];
    forall i | 1 <= i < |conds|
      ensures MatchAt(conds, code, i) <==> MatchAt(rest, code, i - 1)
      ensures ThrowAt(conds, code, i) <==> ThrowAt(rest, code, i - 1)
    {
      assert forall j | 1 <= j <= i :: conds[j] == rest[j - 1];
    }
    assert !MatchAt(conds, code, 0) && !ThrowAt(conds, code, 0);
    if exists i | 0 <= i < |rest| :: MatchAt(rest, code, i) {
      var i :| 0 <= i < |rest| && MatchAt(rest, code, i);
      assert MatchAt(conds, code, i + 1);
    }
    if exists i | 0 <= i < |rest| :: ThrowAt(rest, code, i) {
      var i :| 0 <= i < |rest| && ThrowAt(rest, code, i);
      assert ThrowAt(conds, code, i + 1);
    }
  }

  /** The server holds a Condition about patient `pid` whose first code is `code`. */
  ghost predicate HasCondition(records: map<nat, Resource>, pid: Id, code: string) {
    exists k | k in records :: Selected(records[k], ConditionType, Some(Reference(pid))) && CodeOf(records[k]) == Some(code)
  }

  /** `v` is the list row for the Patient entry `e`, given the Conditions the server holds. */
  ghost predicate Summarized(records: map<nat, Resource>, currentYear: int, e: Entry, v: Summary) {
    && v.id == e.id
    && DisplayName(e.resource) == Success(v.name)
    && v.age == ListAge(currentYear, BirthDateOf(e.resource))
    && (v.diabetes <==> HasCondition(records, e.id, DiabetesCode))
    && (v.prevalentStroke <==> HasCondition(records, e.id, StrokeCode))
    && (v.prevalentHyp <==> HasCondition(records, e.id, HypertensionCode))
    && !v.tenYearCHD
  }

  /** A successful scan of the Conditions found for `pid` answers whether the server holds such a Condition. */
  lemma AnyCodeMeansCondition(s: Server, pid: Id, code: string, b: bool)
    requires AnyCode(Matches(s, ConditionType, Some(Reference(pid))), code) == Success(b)
    ensures b <==> HasCondition(s.records, pid, code)
  {
    var conds := Matches(s, ConditionType, Some(Reference(pid)));
    if b {
      var i :| 0 <= i < |conds| && CodeOf(conds[i].resource) == Some(code);
      assert conds[i] in conds;
      var k := SerialOf(conds[i].id).value;
      assert k in s.records && Selected(s.records[k], ConditionType, Some(Reference(pid)));
    }
  }

  /** The list row for one Patient entry: its Conditions are searched, then the flags and name derived. */
  function Summarize(s: Server, currentYear: int, e: Entry): (r: Reply<Summary>)
    ensures r.server == Logged(s, Query(ConditionType, Some(Reference(e.id))), Fault(s).None?)
    ensures r.result.Success? ==> Summarized(s.records, currentYear, e, r.result.value)
  {
    var q := Search(s, ConditionType, Some(Reference(e.id)));
    if q.result.Failure? then Reply(q.server, Failure(q.result.error))
    else
      var conds := EntriesOf(q.result.value);
      var age := ListAge(currentYear, BirthDateOf(e.resource));
      match (AnyCode(conds, DiabetesCode), AnyCode(conds, StrokeCode), AnyCode(conds, HypertensionCode), DisplayName(e.resource))
      case (Success(diabetes), Success(stroke), Success(hyp), Success(name)) =>
        AnyCodeMeansCondition(s, e.id, DiabetesCode, diabetes);
        AnyCodeMeansCondition(s, e.id, StrokeCode, stroke);
        AnyCodeMeansCondition(s, e.id, HypertensionCode, hyp);
        Reply(q.server, Success(Summary(e.id, name, age, diabetes, stroke, hyp, false)))
      case _ => Reply(q.server, Failure(BadData("patient could not be summarised")))
  }

  /** The list rows for `es`, one after another; the first failure fails the whole list. */
  function SummarizeAll(s: Server, currentYear: int, es: seq<Entry>): (r: Reply<seq<Summary>>)
    ensures Extends(s, r.server) && r.server.records == s.records && r.server.next == s.next
    ensures r.result.Success? ==>
      && |r.result.value| == |es|
      && forall i | 0 <= i < |es| :: Summarized(s.records, currentYear, es[i], r.result.value[i])
    decreases |es|
  {
    if |es| == 0 then Reply(s, Success([]))
    else
      var h := Summarize(s, currentYear, es[0]);
      if h.result.Failure? then Reply(h.server, Failure(h.result.error))
      else
        var t := SummarizeAll(h.server, currentYear, es[1..]);
        CallsAppend(s, h.server, t.server);
        if t.result.Failure? then Reply(t.server, Failure(t.result.error))
        else
          var rows := [h.result.value] + t.result.value;
          assert forall i | 1 <= i < |es| :: es[i] == es[1..][i - 1] && rows[i] == t.result.value[i - 1];
          Reply(t.server, Success(rows))
  }

  /**
   * `getAllPatients`: one row per Patient the server holds, in the order the
   * Patient search answers them (no Patients: an empty list), each with its
   * condition flags read from that Patient's Conditions, its age as a year
   * difference, and `tenYearCHD` always false. The listing only reads.
   */
  function ListPatients(s: Server, currentYear: int): (r: Reply<seq<Summary>>)
    ensures Extends(s, r.server) && r.server.records == s.records && r.server.next == s.next
    ensures r.result.Success? ==>
      var patients := Matches(s, PatientType, None);
      && |r.result.value| == |patients|
      && forall i | 0 <= i < |patients| :: Summarized(s.records, currentYear, patients[i], r.result.value[i])
  {
    var q := Search(s, PatientType, None);
    if q.result.Failure? then Reply(q.server, Failure(q.result.error))
    else
      var r := SummarizeAll(q.server, currentYear, EntriesOf(q.result.value));
      CallsAppend(s, q.server, r.server);
      r
  }

  /**
   * Records the listing can read without throwing: every Patient has a `name`
   * array and every Condition has a first code.
   */
  ghost predicate Listable(records: map<nat, Resource>) {
    && (forall k | k in records && records[k].Patient? :: records[k].name.Some?)
    && (forall k | k in records && records[k].Condition? :: CodeOf(records[k]).Some?)
  }

  /** On a server that answers and holds listable records, a Patient's row is produced. */
  lemma SummarizeReliable(s: Server, currentYear: int, e: Entry)
    requires Reliable(s) && Listable(s.records)
    requires e.resource.Patient? && e.resource.name.Some?
    ensures Summarize(s, currentYear, e).result.Success?
  {
    assert |s.log| !in s.faults;
    var conds := Matches(s, ConditionType, Some(Reference(e.id)));
    forall i | 0 <= i < |conds|
      ensures CodeOf(conds[i].resource).Some?
    {
      assert conds[i] in conds;
      var k := SerialOf(conds[i].id).value;
      assert k in s.records && s.records[k] == conds[i].resource && TypeOf(s.records[k]) == ConditionType;
    }
  }

  /** On a server that answers and holds listable records, every Patient entry gets its row. */
  lemma {:induction false} SummarizeAllReliable(s: Server, currentYear: int, es: seq<Entry>)
    requires Reliable(s) && Listable(s.records)
    requires forall i | 0 <= i < |es| :: es[i].resource.Patient? && es[i].resource.name.Some?
    ensures SummarizeAll(s, currentYear, es).result.Success?
    decreases |es|
  {
    if |es| > 0 {
      SummarizeReliable(s, currentYear, es[0]);
      var h := Summarize(s, currentYear, es[0]);
      ReliableLater(s, h.server);
      assert forall i | 0 <= i < |es| - 1 :: es[1..][i] == es[i + 1];
      SummarizeAllReliable(h.server, currentYear, es[1..]);
    }
  }

  /** On a server that answers and holds listable records, the patient list is produced. */
  lemma ListReliable(s: Server, currentYear: int)
    requires Reliable(s) && Listable(s.records)
    ensures ListPatients(s, currentYear).result.Success?
  {
    assert |s.log| !in s.faults;
    var q := Search(s, PatientType, None);
    var es := EntriesOf(q.result.value);
    forall i | 0 <= i < |es|
      ensures es[i].resource.Patient? && es[i].resource.name.Some?
    {
      assert es[i] in es;
      var k := SerialOf(es[i].id).value;
      assert k in s.records && s.records[k] == es[i].resource && TypeOf(s.records[k]) == PatientType;
    }
    ReliableLater(s, q.server);
    SummarizeAllReliable(q.server, currentYear, es);
  }
}
