/**
 * The Record Purger: deleting a patient removes, in order, its Observations,
 * Conditions, MedicationStatements and RiskAssessments, and then the Patient
 * itself; the first failing call stops the cascade.
 */
module Purger {
  import opened Wrappers
  import opened Resources
  import opened Server

  /** The dependent types, in the order the cascade clears them. */
  const DependentTypes: seq<ResourceType> := [ObservationType, ConditionType, MedicationStatementType, RiskAssessmentType]

  lemma DependentTypesDistinct()
    ensures forall a, b | 0 <= a < b < |DependentTypes| :: DependentTypes[a] != DependentTypes[b]
  {
  }

  function IdsOf(es: seq<Entry>): set<Id> {
    set e | e in es :: e.id
  }

  /** One DELETE per entry, in the order of the entries. */
  function Removes(t: ResourceType, es: seq<Entry>): (r: seq<Request>)
    ensures |r| == |es|
    ensures forall i | 0 <= i < |es| :: r[i] == Remove(t, es[i].id)
  {
    if |es| == 0 then [] else [Remove(t, es[0].id)] + Removes(t, es[1..])
  }

  /**
   * Deletes, one at a time and in order, the resources of type `t` named by
   * `es`; on success every such resource is gone, and whatever happens nothing
   * else is touched.
   */
  function DeleteEntries(s: Server, t: ResourceType, es: seq<Entry>): (r: Reply<()>)
    ensures Followed(s, r, Removes(t, es))
    ensures r.server.next == s.next
    ensures forall k | k in r.server.records :: k in s.records && r.server.records[k] == s.records[k]
    ensures forall k | k in s.records && k !in r.server.records :: TypeOf(s.records[k]) == t && IdOf(k) in IdsOf(es)
    ensures r.result.Success? ==>
      forall k | k in s.records && TypeOf(s.records[k]) == t && IdOf(k) in IdsOf(es) :: k !in r.server.records
    decreases |es|
  {
    if |es| == 0 then Reply(s, Success(()))
    else
      var d := Delete(s, t, es[0].id);
      if d.result.Failure? then
        var r := Reply(d.server, Failure(d.result.error));
        assert Calls(s, r.server) == [Exchange(Remove(t, es[0].id), false)];
        r
      else
        var rest := DeleteEntries(d.server, t, es[1..]);
        FollowedAfter(s, d.server, Remove(t, es[0].id), rest, Removes(t, es[1..]));
        assert Removes(t, es) == [Remove(t, es[0].id)] + Removes(t, es[1..]);
        DeleteStepRecords(s.records, d.server.records, rest.server.records, t, es, rest.result.Success?);
        rest
  }

  /** Deleting the first entry's resource and then the rest's deletes the resources of all the entries. */
  lemma DeleteStepRecords(r0: map<nat, Resource>, r1: map<nat, Resource>, r2: map<nat, Resource>, t: ResourceType, es: seq<Entry>, ok: bool)
    requires |es| > 0 && Locate(r0, t, es[0].id).Some? && r1 == r0 - {Locate(r0, t, es[0].id).value}
    requires forall k | k in r2 :: k in r1 && r2[k] == r1[k]
    requires forall k | k in r1 && k !in r2 :: TypeOf(r1[k]) == t && IdOf(k) in IdsOf(es[1..])
    requires ok ==> forall k | k in r1 && TypeOf(r1[k]) == t && IdOf(k) in IdsOf(es[1..]) :: k !in r2
    ensures forall k | k in r2 :: k in r0 && r2[k] == r0[k]
    ensures forall k | k in r0 && k !in r2 :: TypeOf(r0[k]) == t && IdOf(k) in IdsOf(es)
    ensures ok ==> forall k | k in r0 && TypeOf(r0[k]) == t && IdOf(k) in IdsOf(es) :: k !in r2
  {
    assert IdsOf(es) == {es[0].id} + IdsOf(es[1..]);
    IdsNameSerials(es[0].id);
  }

  /** The calls that clear the dependents of type `t` of patient `pid`: one search, then one DELETE per match. */
  function CategoryPlan(s: Server, t: ResourceType, pid: Id): (r: seq<Request>)
    ensures |r| == 1 + |Matches(s, t, Some(Reference(pid)))|
    ensures r[0] == Query(t, Some(Reference(pid)))
  {
    [Query(t, Some(Reference(pid)))] + Removes(t, Matches(s, t, Some(Reference(pid))))
  }

  /** A resource's id is among the ids a search answered exactly when the search selects it. */
  lemma IdsOfMatches(s: Server, t: ResourceType, subject: Option<string>)
    ensures forall k | k in s.records :: IdOf(k) in IdsOf(Matches(s, t, subject)) <==> Selected(s.records[k], t, subject)
  {
    var m := Matches(s, t, subject);
    forall k | k in s.records && IdOf(k) in IdsOf(m)
      ensures Selected(s.records[k], t, subject)
    {
      var e :| e in m && e.id == IdOf(k);
      SerialOfIdOf(k);
    }
  }

  /**
   * One step of the cascade: search the resources of type `t` about the
   * patient and delete each in turn. On success all of them are gone; only
   * such resources are ever removed.
   */
  function PurgeCategory(s: Server, t: ResourceType, pid: Id): (r: Reply<()>)
    ensures Followed(s, r, CategoryPlan(s, t, pid))
    ensures r.server.next == s.next
    ensures forall k | k in r.server.records :: k in s.records && r.server.records[k] == s.records[k]
    ensures forall k | k in s.records && k !in r.server.records :: Selected(s.records[k], t, Some(Reference(pid)))
    ensures r.result.Success? ==>
      forall k | k in s.records && Selected(s.records[k], t, Some(Reference(pid))) :: k !in r.server.records
  {
    var q := Search(s, t, Some(Reference(pid)));
    var plan := CategoryPlan(s, t, pid);
    if q.result.Failure? then
      var r := Reply(q.server, Failure(q.result.error));
      assert Calls(s, r.server) == [Exchange(plan[0], false)];
      r
    else
      var es := EntriesOf(q.result.value);
      var r := DeleteEntries(q.server, t, es);
      IdsOfMatches(s, t, Some(Reference(pid)));
      FollowedAfter(s, q.server, Query(t, Some(Reference(pid))), r, Removes(t, es));
      r
  }

  /** A resource the cascade from step `i` on clears as a dependent of patient `pid`. */
  predicate Dependent(res: Resource, pid: Id, i: nat)
    requires i <= |DependentTypes|
  {
    TypeOf(res) in DependentTypes[i..] && SubjectOf(res) == Some(Reference(pid))
  }

  /** The Patient record `pid` names. */
  predicate IsPatient(records: map<nat, Resource>, k: nat, pid: Id)
    requires k in records
  {
    TypeOf(records[k]) == PatientType && IdOf(k) == pid
  }

  /** The calls of the cascade from step `i` on, every search answered from the store as it is in `s`. */
  function PlanFrom(s: Server, pid: Id, i: nat): (r: seq<Request>)
    requires i <= |DependentTypes|
    ensures |r| > 0 && r[|r| - 1] == Remove(PatientType, pid)
    decreases |DependentTypes| - i
  {
    if i == |DependentTypes| then [Remove(PatientType, pid)]
    else CategoryPlan(s, DependentTypes[i], pid) + PlanFrom(s, pid, i + 1)
  }

  /** The plan of the later steps does not depend on resources of other types being deleted first. */
  lemma {:induction false} PlanFromFrame(s1: Server, s2: Server, pid: Id, i: nat)
    requires i <= |DependentTypes|
    requires s1.next == s2.next
    requires forall k | k in s2.records :: k in s1.records && s2.records[k] == s1.records[k]
    requires forall k | k in s1.records && TypeOf(s1.records[k]) in DependentTypes[i..] :: k in s2.records
    ensures PlanFrom(s1, pid, i) == PlanFrom(s2, pid, i)
    decreases |DependentTypes| - i
  {
    if i < |DependentTypes| {
      MatchesFrame(s1, s2, DependentTypes[i], Some(Reference(pid)));
      PlanFromFrame(s1, s2, pid, i + 1);
    }
  }

  /** The cascade from step `i` on. */
  function PurgeFrom(s: Server, pid: Id, i: nat): (r: Reply<()>)
    requires i <= |DependentTypes|
    ensures Followed(s, r, PlanFrom(s, pid, i))
    ensures r.server.next == s.next
    ensures forall k | k in r.server.records :: k in s.records && r.server.records[k] == s.records[k]
    ensures forall k | k in s.records && k !in r.server.records ::
      Dependent(s.records[k], pid, i) || (r.result.Success? && IsPatient(s.records, k, pid))
    ensures r.result.Success? ==>
      && Locate(s.records, PatientType, pid).Some?
      && forall k | k in s.records && (Dependent(s.records[k], pid, i) || IsPatient(s.records, k, pid)) :: k !in r.server.records
    decreases |DependentTypes| - i
  {
    if i == |DependentTypes| then
      var r := Delete(s, PatientType, pid);
      IdsNameSerials(pid);
      r
    else
      var t := DependentTypes[i];
      var a := PurgeCategory(s, t, pid);
      if a.result.Failure? then
        var r := Reply(a.server, Failure(a.result.error));
        FollowedStop(s, a, CategoryPlan(s, t, pid), r, PlanFrom(s, pid, i + 1));
        r
      else
        var rest := PurgeFrom(a.server, pid, i + 1);
        PurgeFromThen(s, pid, i, a, rest);
        StepRecords(s.records, a.server.records, rest.server.records, pid, i, rest.result.Success?);
        LocateAfterStep(s.records, a.server.records, t, pid);
        rest
  }

  /** A step that succeeded, followed by the later steps, issued the calls of the cascade from that step on. */
  lemma PurgeFromThen(s: Server, pid: Id, i: nat, a: Reply<()>, rest: Reply<()>)
    requires i < |DependentTypes|
    requires a.result.Success? && Followed(s, a, CategoryPlan(s, DependentTypes[i], pid)) && a.server.next == s.next
    requires forall k | k in a.server.records :: k in s.records && a.server.records[k] == s.records[k]
    requires forall k | k in s.records :: k !in a.server.records <==> Selected(s.records[k], DependentTypes[i], Some(Reference(pid)))
    requires Followed(a.server, rest, PlanFrom(a.server, pid, i + 1))
    ensures Followed(s, rest, PlanFrom(s, pid, i))
  {
    KeptLater(s.records, a.server.records, pid, i);
    PlanFromFrame(s, a.server, pid, i + 1);
    FollowedThen(s, a, CategoryPlan(s, DependentTypes[i], pid), rest, PlanFrom(s, pid, i + 1));
  }

  /** Clearing the dependents of step `i` keeps every resource of a later step's type. */
  lemma KeptLater(r0: map<nat, Resource>, r1: map<nat, Resource>, pid: Id, i: nat)
    requires i < |DependentTypes|
    requires forall k | k in r0 :: k !in r1 <==> Selected(r0[k], DependentTypes[i], Some(Reference(pid)))
    ensures forall k | k in r0 && TypeOf(r0[k]) in DependentTypes[i + 1..] :: k in r1
  {
    DependentTypesDistinct();
  }

  /** Clearing the dependents of step `i` and then running the later steps clears the dependents from step `i` on. */
  lemma StepRecords(r0: map<nat, Resource>, r1: map<nat, Resource>, r2: map<nat, Resource>, pid: Id, i: nat, ok: bool)
    requires i < |DependentTypes|
    requires forall k | k in r1 :: k in r0 && r1[k] == r0[k]
    requires forall k | k in r0 :: k !in r1 <==> Selected(r0[k], DependentTypes[i], Some(Reference(pid)))
    requires forall k | k in r2 :: k in r1 && r2[k] == r1[k]
    requires forall k | k in r1 && k !in r2 :: Dependent(r1[k], pid, i + 1) || (ok && IsPatient(r1, k, pid))
    requires ok ==> forall k | k in r1 && (Dependent(r1[k], pid, i + 1) || IsPatient(r1, k, pid)) :: k !in r2
    ensures forall k | k in r2 :: k in r0 && r2[k] == r0[k]
    ensures forall k | k in r0 && k !in r2 :: Dependent(r0[k], pid, i) || (ok && IsPatient(r0, k, pid))
    ensures ok ==> forall k | k in r0 && (Dependent(r0[k], pid, i) || IsPatient(r0, k, pid)) :: k !in r2
  {
    assert DependentTypes[i..] == [DependentTypes[i]] + DependentTypes[i + 1..];
  }

  /**
   * The calls `deletePatient` makes: search and delete the Observations, then
   * the Conditions, the MedicationStatements and the RiskAssessments of the
   * patient, and last delete the Patient.
   */
  function PurgePlan(s: Server, pid: Id): (r: seq<Request>)
    ensures |r| == 5 + |Matches(s, ObservationType, Some(Reference(pid)))|
      + |Matches(s, ConditionType, Some(Reference(pid)))|
      + |Matches(s, MedicationStatementType, Some(Reference(pid)))|
      + |Matches(s, RiskAssessmentType, Some(Reference(pid)))|
    ensures r[0] == Query(ObservationType, Some(Reference(pid)))
    ensures r[|r| - 1] == Remove(PatientType, pid)
  {
    CategoryPlan(s, ObservationType, pid)
      + (CategoryPlan(s, ConditionType, pid)
      + (CategoryPlan(s, MedicationStatementType, pid)
      + (CategoryPlan(s, RiskAssessmentType, pid)
      + [Remove(PatientType, pid)])))
  }

  lemma PlanFromZero(s: Server, pid: Id)
    ensures PlanFrom(s, pid, 0) == PurgePlan(s, pid)
  {
    assert DependentTypes[0] == ObservationType && DependentTypes[1] == ConditionType;
    assert DependentTypes[2] == MedicationStatementType && DependentTypes[3] == RiskAssessmentType;
    var p4 := PlanFrom(s, pid, 4);
    var p3 := PlanFrom(s, pid, 3);
    assert p3 == CategoryPlan(s, RiskAssessmentType, pid) + p4;
    var p2 := PlanFrom(s, pid, 2);
    assert p2 == CategoryPlan(s, MedicationStatementType, pid) + p3;
    var p1 := PlanFrom(s, pid, 1);
    assert p1 == CategoryPlan(s, ConditionType, pid) + p2;
  }

  /** Only the four dependent types carry a subject. */
  lemma SubjectMeansDependent(res: Resource, pid: Id)
    ensures Dependent(res, pid, 0) <==> SubjectOf(res) == Some(Reference(pid))
  {
  }

  /** The store without the Patient `pid` and without every resource whose subject is that Patient. */
  ghost function Without(records: map<nat, Resource>, pid: Id): map<nat, Resource> {
    map k | k in records && SubjectOf(records[k]) != Some(Reference(pid)) && !IsPatient(records, k, pid) :: records[k]
  }

  /** A store that lost exactly the patient and its dependents is `Without` them. */
  lemma ClearedIsWithout(r0: map<nat, Resource>, r2: map<nat, Resource>, pid: Id)
    requires forall k | k in r2 :: k in r0 && r2[k] == r0[k]
    requires forall k | k in r0 && k !in r2 :: Dependent(r0[k], pid, 0) || IsPatient(r0, k, pid)
    requires forall k | k in r0 && (Dependent(r0[k], pid, 0) || IsPatient(r0, k, pid)) :: k !in r2
    ensures r2 == Without(r0, pid)
  {
    forall k | k in r0
      ensures k in r2 <==> SubjectOf(r0[k]) != Some(Reference(pid)) && !IsPatient(r0, k, pid)
    {
      SubjectMeansDependent(r0[k], pid);
    }
  }

  /** A store that lost only dependents lost only resources whose subject is the patient. */
  lemma DependentsOnly(r0: map<nat, Resource>, r2: map<nat, Resource>, pid: Id)
    requires forall k | k in r0 && k !in r2 :: Dependent(r0[k], pid, 0)
    ensures forall k | k in r0 && k !in r2 :: SubjectOf(r0[k]) == Some(Reference(pid))
  {
    forall k | k in r0 && k !in r2
      ensures SubjectOf(r0[k]) == Some(Reference(pid))
    {
      SubjectMeansDependent(r0[k], pid);
    }
  }

  /**
   * `deletePatient`: follows `PurgePlan`, stopping at the first failing call.
   * On success the Patient existed and the store is left without it and
   * without everything that referenced it; on failure only resources that
   * referenced it may be gone, so the Patient itself survives.
   */
  function Purge(s: Server, pid: Id): (r: Reply<()>)
    ensures Followed(s, r, PurgePlan(s, pid))
    ensures r.server.next == s.next
    ensures r.result.Success? ==>
      Locate(s.records, PatientType, pid).Some? && r.server.records == Without(s.records, pid)
    ensures r.result.Failure? ==>
      && (forall k | k in r.server.records :: k in s.records && r.server.records[k] == s.records[k])
      && (forall k | k in s.records && k !in r.server.records :: SubjectOf(s.records[k]) == Some(Reference(pid)))
  {
    var r := PurgeFrom(s, pid, 0);
    PlanFromZero(s, pid);
    if r.result.Success? then
      ClearedIsWithout(s.records, r.server.records, pid);
      r
    else
      DependentsOnly(s.records, r.server.records, pid);
      r
  }

  // ---------------------------------------------------------------------------
  // A reliable server

  /** Deleting one resource leaves every other resource where Locate finds it. */
  lemma LocateOthers(s: Server, t: ResourceType, id: Id, d: Reply<()>, other: Id)
    requires d == Delete(s, t, id) && d.result.Success?
    requires Locate(s.records, t, other).Some? && other != id
    ensures Locate(d.server.records, t, other).Some?
  {
    IdsNameSerials(other);
  }

  lemma {:induction false} DeleteEntriesSucceeds(s: Server, t: ResourceType, es: seq<Entry>)
    requires Reliable(s)
    requires forall i | 0 <= i < |es| :: Locate(s.records, t, es[i].id).Some?
    requires DistinctIds(es)
    ensures DeleteEntries(s, t, es).result.Success?
    decreases |es|
  {
    if |es| > 0 {
      var d := Delete(s, t, es[0].id);
      assert d.result.Success?;
      assert Extends(s, d.server);
      ReliableLater(s, d.server);
      var rest := es[1..];
      forall i | 0 <= i < |rest|
        ensures Locate(d.server.records, t, rest[i].id).Some?
      {
        assert rest[i] == es[i + 1];
        LocateOthers(s, t, es[0].id, d, rest[i].id);
      }
      assert DistinctIds(rest) by {
        assert forall i | 0 <= i < |rest| :: rest[i] == es[i + 1];
      }
      DeleteEntriesSucceeds(d.server, t, rest);
    }
  }

  lemma PurgeCategorySucceeds(s: Server, t: ResourceType, pid: Id)
    requires Reliable(s)
    ensures PurgeCategory(s, t, pid).result.Success?
  {
    var q := Search(s, t, Some(Reference(pid)));
    var es := EntriesOf(q.result.value);
    assert Extends(s, q.server);
    ReliableLater(s, q.server);
    forall i | 0 <= i < |es|
      ensures Locate(q.server.records, t, es[i].id).Some?
    {
      assert es[i] in es;
      IdsNameSerials(es[i].id);
    }
    DeleteEntriesSucceeds(q.server, t, es);
  }

  /** Deleting resources of other types does not change where a resource of type `t` is found. */
  lemma LocateKept(r0: map<nat, Resource>, r1: map<nat, Resource>, t: ResourceType, id: Id)
    requires forall k | k in r1 :: k in r0 && r1[k] == r0[k]
    requires forall k | k in r0 && TypeOf(r0[k]) == t :: k in r1
    ensures Locate(r1, t, id) == Locate(r0, t, id)
  {
  }

  /** Clearing the dependents of one type leaves every Patient where Locate finds it. */
  lemma LocateAfterStep(r0: map<nat, Resource>, r1: map<nat, Resource>, t: ResourceType, pid: Id)
    requires t in DependentTypes
    requires forall k | k in r1 :: k in r0 && r1[k] == r0[k]
    requires forall k | k in r0 && k !in r1 :: Selected(r0[k], t, Some(Reference(pid)))
    ensures Locate(r1, PatientType, pid) == Locate(r0, PatientType, pid)
  {
    LocateKept(r0, r1, PatientType, pid);
  }

  lemma {:induction false} PurgeFromReliable(s: Server, pid: Id, i: nat)
    requires i <= |DependentTypes|
    requires Reliable(s)
    ensures PurgeFrom(s, pid, i).result ==
      if Locate(s.records, PatientType, pid).Some? then Success(()) else Failure(NotFound)
    decreases |DependentTypes| - i
  {
    if i < |DependentTypes| {
      var later := PurgeStepReliable(s, pid, i);
      PurgeFromReliable(later, pid, i + 1);
    } else {
      PurgeLastReliable(s, pid);
    }
  }

  /**
   * One step of the cascade on a server that answers succeeds, leaves a server
   * that still answers and the Patient where it was, and the cascade goes on
   * from there.
   */
  lemma PurgeStepReliable(s: Server, pid: Id, i: nat) returns (later: Server)
    requires i < |DependentTypes|
    requires Reliable(s)
    ensures Reliable(later)
    ensures Locate(later.records, PatientType, pid) == Locate(s.records, PatientType, pid)
    ensures PurgeFrom(s, pid, i).result == PurgeFrom(later, pid, i + 1).result
  {
    var a := PurgeCategory(s, DependentTypes[i], pid);
    PurgeCategorySucceeds(s, DependentTypes[i], pid);
    PurgeFromStep(s, pid, i, a);
    ReliableLater(s, a.server);
    LocateAfterStep(s.records, a.server.records, DependentTypes[i], pid);
    later := a.server;
  }

  /** The last step of the cascade on a server that answers: the Patient's DELETE answers whether it exists. */
  lemma PurgeLastReliable(s: Server, pid: Id)
    requires Reliable(s)
    ensures PurgeFrom(s, pid, |DependentTypes|).result ==
      if Locate(s.records, PatientType, pid).Some? then Success(()) else Failure(NotFound)
  {
    assert Fault(s).None?;
  }

  /** After a step that succeeded, the cascade answers what its remaining steps answer. */
  lemma PurgeFromStep(s: Server, pid: Id, i: nat, a: Reply<()>)
    requires i < |DependentTypes|
    requires a == PurgeCategory(s, DependentTypes[i], pid) && a.result.Success?
    ensures PurgeFrom(s, pid, i).result == PurgeFrom(a.server, pid, i + 1).result
  {
  }

  /** With a reliable server, deleting a patient succeeds exactly when the Patient exists, and otherwise answers NotFound. */
  lemma PurgeReliable(s: Server, pid: Id)
    requires Reliable(s)
    ensures Purge(s, pid).result ==
      if Locate(s.records, PatientType, pid).Some? then Success(()) else Failure(NotFound)
  {
    PurgeFromReliable(s, pid, 0);
  }

  /** When nothing refers to the patient, no dependent search finds anything. */
  lemma NothingLeft(s: Server, pid: Id, t: ResourceType)
    requires forall k | k in s.records :: SubjectOf(s.records[k]) != Some(Reference(pid))
    ensures Matches(s, t, Some(Reference(pid))) == []
  {
    CollectNone(s.records, t, Some(Reference(pid)), 0, s.next);
  }

  /**
   * Deleting a patient that is gone, together with everything that referred
   * to it, from a reliable server: four empty searches, the Patient's DELETE,
   * NotFound, and nothing changed.
   */
  lemma PurgeGone(s: Server, pid: Id)
    requires Reliable(s)
    requires forall k | k in s.records :: SubjectOf(s.records[k]) != Some(Reference(pid)) && !IsPatient(s.records, k, pid)
    ensures Purge(s, pid).result == Failure(NotFound)
    ensures Purge(s, pid).server.records == s.records
    ensures PurgePlan(s, pid) == [
      Query(ObservationType, Some(Reference(pid))),
      Query(ConditionType, Some(Reference(pid))),
      Query(MedicationStatementType, Some(Reference(pid))),
      Query(RiskAssessmentType, Some(Reference(pid))),
      Remove(PatientType, pid)]
  {
    PatientGone(s.records, pid);
    PurgeReliable(s, pid);
    var r := Purge(s, pid);
    KeptAll(s.records, r.server.records, pid);
    PlanGone(s, pid);
  }

  lemma PatientGone(records: map<nat, Resource>, pid: Id)
    requires forall k | k in records :: !IsPatient(records, k, pid)
    ensures Locate(records, PatientType, pid).None?
  {
  }

  lemma KeptAll(r0: map<nat, Resource>, r1: map<nat, Resource>, pid: Id)
    requires forall k | k in r0 :: SubjectOf(r0[k]) != Some(Reference(pid))
    requires forall k | k in r1 :: k in r0 && r1[k] == r0[k]
    requires forall k | k in r0 && k !in r1 :: SubjectOf(r0[k]) == Some(Reference(pid))
    ensures r1 == r0
  {
    assert forall k | k in r0 :: k in r1;
  }

  lemma PlanGone(s: Server, pid: Id)
    requires forall k | k in s.records :: SubjectOf(s.records[k]) != Some(Reference(pid))
    ensures PurgePlan(s, pid) == [
      Query(ObservationType, Some(Reference(pid))),
      Query(ConditionType, Some(Reference(pid))),
      Query(MedicationStatementType, Some(Reference(pid))),
      Query(RiskAssessmentType, Some(Reference(pid))),
      Remove(PatientType, pid)]
  {
    NothingLeft(s, pid, ObservationType);
    NothingLeft(s, pid, ConditionType);
    NothingLeft(s, pid, MedicationStatementType);
    NothingLeft(s, pid, RiskAssessmentType);
  }

  /** Deleting the same patient twice from a reliable server: the second attempt answers NotFound and changes nothing. */
  lemma PurgeTwice(s: Server, pid: Id)
    requires Reliable(s)
    ensures var first := Purge(s, pid);
      first.result.Success? ==>
        && Purge(first.server, pid).result == Failure(NotFound)
        && Purge(first.server, pid).server.records == first.server.records
        && |PurgePlan(first.server, pid)| == 5
  {
    var first := Purge(s, pid);
    if first.result.Success? {
      ReliableLater(s, first.server);
      PurgeGone(first.server, pid);
    }
  }

  /**
   * `searchRiskAssessments`: the RiskAssessments about the patient, as the
   * search answers them; an answer without entries gives the empty list.
   */
  function SearchRiskAssessments(s: Server, pid: Id): (r: Reply<seq<Resource>>)
    ensures r.server == Logged(s, Query(RiskAssessmentType, Some(Reference(pid))), r.result.Success?)
    ensures r.result.Success? <==> Fault(s).None?
    ensures r.result.Success? ==> r.result.value == ResourcesOf(Matches(s, RiskAssessmentType, Some(Reference(pid))))
    ensures r.result.Success? ==> |r.result.value| == |Matches(s, RiskAssessmentType, Some(Reference(pid)))|
    ensures r.result.Success? ==>
      && (forall res | res in r.result.value :: res.RiskAssessment? && res.subject == Reference(pid))
      && (forall k | k in s.records && s.records[k].RiskAssessment? && s.records[k].subject == Reference(pid) :: s.records[k] in r.result.value)
  {
    var q := Search(s, RiskAssessmentType, Some(Reference(pid)));
    if q.result.Failure? then Reply(q.server, Failure(q.result.error))
    else
      var es := EntriesOf(q.result.value);
      RisksFound(s, pid, es);
      Reply(q.server, Success(ResourcesOf(es)))
  }

  /** The resources of the RiskAssessment search are exactly the patient's RiskAssessments. */
  lemma RisksFound(s: Server, pid: Id, es: seq<Entry>)
    requires es == Matches(s, RiskAssessmentType, Some(Reference(pid)))
    ensures forall res | res in ResourcesOf(es) :: res.RiskAssessment? && res.subject == Reference(pid)
    ensures forall k | k in s.records && s.records[k].RiskAssessment? && s.records[k].subject == Reference(pid) ::
      s.records[k] in ResourcesOf(es)
  {
    forall k | k in s.records && s.records[k].RiskAssessment? && s.records[k].subject == Reference(pid)
      ensures s.records[k] in ResourcesOf(es)
    {
      var e := Entry(IdOf(k), s.records[k]);
      assert Selected(s.records[k], RiskAssessmentType, Some(Reference(pid)));
      ResourceOfEntry(es, e);
    }
    forall res | res in ResourcesOf(es)
      ensures res.RiskAssessment? && res.subject == Reference(pid)
    {
      var e := EntryOfResource(es, res);
    }
  }

  /** The resource of an entry is among the resources of the entries. */
  lemma {:induction false} ResourceOfEntry(es: seq<Entry>, e: Entry)
    requires e in es
    ensures e.resource in ResourcesOf(es)
  {
    if es[0] != e {
      ResourceOfEntry(es[1..], e);
    }
  }

  /** Each of the resources of the entries is the resource of one of them. */
  lemma {:induction false} EntryOfResource(es: seq<Entry>, res: Resource) returns (e: Entry)
    requires res in ResourcesOf(es)
    ensures e in es && e.resource == res
  {
    if es[0].resource == res {
      e := es[0];
    } else {
      e := EntryOfResource(es[1..], res);
    }
  }

}
