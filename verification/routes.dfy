/**
 * The three web routes of the form application that drive the core: the
 * patient list, the form submission and the patient deletion. A route turns
 * the core's outcome into a response; any failure becomes a 500 with a fixed
 * message.
 */
module Routes {
  import opened Wrappers
  import opened Resources
  import opened Server
  import opened Assembler
  import opened Aggregator
  import opened Purger
  import opened RiskService

  const PatientsError := "Error fetching patient list."
  const SubmitError := "An error occurred while processing the data."
  const DeleteError := "Error deleting patient"
  const PatientsPath := "/patients"

  datatype Response =
    | PatientsJson(patients: seq<Summary>)
    | ResultPage(patientId: Id, prediction: Prediction)
    | RedirectTo(location: string)
    | ServerError(status: nat, message: string)

  /** The server after a request, and the response sent. */
  datatype Handled = Handled(server: Server, response: Response)

  /**
   * `GET /patients`: the patient list as JSON, or a 500 with the listing error.
   * Either way the store is unchanged.
   */
  function PatientsRoute(s: Server, currentYear: int): (r: Handled)
    ensures Extends(s, r.server) && r.server.records == s.records && r.server.next == s.next
    ensures r.response.PatientsJson? || r.response == ServerError(500, PatientsError)
    ensures r.response.PatientsJson? ==>
      var patients := Matches(s, PatientType, None);
      && |r.response.patients| == |patients|
      && forall i | 0 <= i < |patients| :: Summarized(s.records, currentYear, patients[i], r.response.patients[i])
  {
    var l := ListPatients(s, currentYear);
    Handled(l.server, if l.result.Success? then PatientsJson(l.result.value) else ServerError(500, PatientsError))
  }

  /** On a server that answers and holds listable records, `GET /patients` answers the list. */
  lemma PatientsRouteReliable(s: Server, currentYear: int)
    requires Reliable(s) && Listable(s.records)
    ensures PatientsRoute(s, currentYear).response.PatientsJson?
  {
    ListReliable(s, currentYear);
  }

  /**
   * `POST /submit`: creates the patient's record graph and, only when all of
   * it exists, requests the prediction for the id the Patient was given. The
   * first failure ends the request with a 500.
   */
  function SubmitRoute(s: Server, f: Form, currentYear: int, scorer: seq<int> -> real): (r: Handled)
    ensures r.response.ResultPage? || r.response == ServerError(500, SubmitError)
    ensures r.response.ResultPage? ==>
      r.response.patientId == IdOf(s.next) && r.response.prediction.patientId == r.response.patientId
  {
    var a := Assemble(s, f);
    if a.result.Failure? then Handled(a.server, ServerError(500, SubmitError))
    else PredictionPage(a.server, a.result.value, currentYear, scorer)
  }

  /** The second half of a submission: request the prediction for `pid` and render it, or answer a 500. */
  function PredictionPage(s: Server, pid: Id, currentYear: int, scorer: seq<int> -> real): (r: Handled)
    ensures Extends(s, r.server)
    ensures r.response.ResultPage? || r.response == ServerError(500, SubmitError)
    ensures r.response.ResultPage? ==>
      var score := r.response.prediction.riskScore;
      && r.response.patientId == pid && r.response.prediction.patientId == pid
      && Completed(Calls(s, r.server), ReadPlan(pid) + [Post(RiskBody(pid, score))])
      && r.server.records == s.records[s.next := RiskBody(pid, score)]
    ensures r.response.ServerError? ==> r.server.records == s.records && r.server.next == s.next
  {
    var p := PredictRisk(s, pid, currentYear, scorer);
    if p.result.Failure? then Handled(p.server, ServerError(500, SubmitError))
    else Handled(p.server, ResultPage(pid, p.result.value))
  }

  /**
   * The calls of a submission: the Patient, its Observations, Conditions and
   * MedicationStatement are created in that order; when that fails, no
   * prediction is requested and nothing is rolled back; when it succeeds, the
   * rest of the request is the prediction for the id the Patient was given,
   * from the store the creation left.
   */
  lemma SubmitFollowsPlan(s: Server, f: Form, currentYear: int, scorer: seq<int> -> real)
    ensures var r := SubmitRoute(s, f, currentYear, scorer);
      var a := Assemble(s, f);
      var graph := RecordGraph(IdOf(s.next), f);
      && Followed(s, a, Posts(graph))
      && (a.result.Failure? ==> r == Handled(a.server, ServerError(500, SubmitError)))
      && (a.result.Success? ==>
            && a.result.value == IdOf(s.next)
            && r == PredictionPage(a.server, IdOf(s.next), currentYear, scorer))
  {
    var a := Assemble(s, f);
    var graph := RecordGraph(IdOf(s.next), f);
    AssemblyCalls(s, f, a, graph);
    if a.result.Success? {
      SubmitIsPage(s, f, a, currentYear, scorer);
    } else {
      SubmitAborts(s, f, a, currentYear, scorer);
    }
  }

  lemma SubmitAborts(s: Server, f: Form, a: Reply<Id>, currentYear: int, scorer: seq<int> -> real)
    requires a == Assemble(s, f) && a.result.Failure?
    ensures SubmitRoute(s, f, currentYear, scorer) == Handled(a.server, ServerError(500, SubmitError))
  {
  }

  /** The part of `AssembleFollowsPlan` a submission needs. */
  lemma AssemblyCalls(s: Server, f: Form, a: Reply<Id>, graph: seq<Resource>)
    requires a == Assemble(s, f) && graph == RecordGraph(IdOf(s.next), f)
    ensures Followed(s, a, Posts(graph))
    ensures a.result.Success? ==> a.result.value == IdOf(s.next) && a.server.next == s.next + |graph|
  {
    AssembleFollowsPlan(s, f);
  }

  lemma SubmitIsPage(s: Server, f: Form, a: Reply<Id>, currentYear: int, scorer: seq<int> -> real)
    requires a == Assemble(s, f) && a.result.Success?
    ensures SubmitRoute(s, f, currentYear, scorer) == PredictionPage(a.server, a.result.value, currentYear, scorer)
  {
  }

  /**
   * `POST /delete-patient/:id`: deletes the patient named by the URL id and
   * redirects to the list, or answers a 500. A redirect means the patient and
   * everything that referenced it are gone; a 500 means the Patient is still
   * there.
   */
  function DeletePatientRoute(s: Server, id: Id): (r: Handled)
    ensures Extends(s, r.server) && r.server.next == s.next
    ensures r.response == RedirectTo(PatientsPath) || r.response == ServerError(500, DeleteError)
    ensures r.response.RedirectTo? ==>
      && Completed(Calls(s, r.server), PurgePlan(s, id))
      && Locate(s.records, PatientType, id).Some?
      && r.server.records == Without(s.records, id)
    ensures r.response.ServerError? ==>
      && Aborted(Calls(s, r.server), PurgePlan(s, id))
      && forall k | k in s.records && TypeOf(s.records[k]) == PatientType :: k in r.server.records && r.server.records[k] == s.records[k]
  {
    var p := Purge(s, id);
    Handled(p.server, if p.result.Success? then RedirectTo(PatientsPath) else ServerError(500, DeleteError))
  }
}
