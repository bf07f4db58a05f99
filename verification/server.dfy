/**
 * The remote FHIR record server, as the orchestration code sees it through its
 * HTTP client: create, search, read and delete, one remote round trip each.
 *
 * Resources are kept under the serial number the server assigned when it
 * created them; a resource's id is the decimal numeral of its serial, and its
 * type is the type of its body, so a (type, id) pair names at most one
 * resource. Which calls fail is fixed in advance by `faults`, indexed by the
 * position of the call in the server's `log`, so every operation is a pure
 * function of the server state it starts from.
 */
module Server {
  import opened Wrappers
  import opened Decimal
  import opened Resources

  /**
   * Why a call failed: the server could not be reached, answered with a non-2xx
   * status, had nothing under the requested id, or the data read back could not
   * be processed by the caller's own code.
   */
  datatype Error = Unreachable | Rejected | NotFound | BadData(reason: string)

  datatype Request =
    | Post(body: Resource)
    | Query(rtype: ResourceType, subject: Option<string>)
    | Read(rtype: ResourceType, id: Id)
    | Remove(rtype: ResourceType, id: Id)

  /** One remote call as it happened: what was asked and whether it succeeded. */
  datatype Exchange = Exchange(request: Request, ok: bool)

  datatype State = State(records: map<nat, Resource>, next: nat, log: seq<Exchange>, faults: map<nat, Error>)

  /** Serial `k` was issued before `next`. */
  predicate Issued(next: nat, k: nat) {
    k < next
  }

  /**
   * A server state in which every serial in use was issued before `next`. The
   * trigger keeps the invariant out of proofs that do not ask for it.
   */
  type Server = s: State | forall k {:trigger Issued(s.next, k)} | k in s.records :: Issued(s.next, k)
    witness State(map[], 0, [], map[])

  /** The server after an operation, and what the operation answered. */
  datatype Reply<T> = Reply(server: Server, result: Result<T, Error>)

  function IdOf(serial: nat): Id {
    Show(serial)
  }

  /** The serial an id names, when it is an id this server could have issued. */
  function SerialOf(id: Id): (r: Option<nat>)
    ensures r.Some? ==> IdOf(r.value) == id
  {
    match Parse(id)
    case Some(n) => if IdOf(n) == id then Some(n) else None
    case None => None
  }

  lemma SerialOfIdOf(n: nat)
    ensures SerialOf(IdOf(n)) == Some(n)
  {
    ParseShow(n);
  }

  /** The serial of the resource of type `t` with id `id`, if there is one. */
  function Locate(records: map<nat, Resource>, t: ResourceType, id: Id): (r: Option<nat>)
    ensures r.Some? ==> r.value in records && TypeOf(records[r.value]) == t && IdOf(r.value) == id
    ensures r.None? ==> forall k | k in records && TypeOf(records[k]) == t :: IdOf(k) != id
  {
    IdsNameSerials(id);
    match SerialOf(id)
    case Some(n) => if n in records && TypeOf(records[n]) == t then Some(n) else None
    case None => None
  }

  /** Only one serial has a given id, and SerialOf finds it. */
  lemma IdsNameSerials(id: Id)
    ensures forall k: nat | IdOf(k) == id :: SerialOf(id) == Some(k)
  {
    forall k: nat | IdOf(k) == id
      ensures SerialOf(id) == Some(k)
    {
      SerialOfIdOf(k);
    }
  }

  /** The failure injected for the next call, if any. */
  function Fault(s: Server): Option<Error> {
    if |s.log| in s.faults then Some(s.faults[|s.log|]) else None
  }

  /** From its next call on, the server answers every call it can. */
  ghost predicate Reliable(s: Server) {
    forall i: nat | |s.log| <= i :: i !in s.faults
  }

  function Logged(s: Server, q: Request, ok: bool): (s': Server)
    ensures s'.records == s.records && s'.next == s.next && s'.faults == s.faults
    ensures s'.log == s.log + [Exchange(q, ok)]
  {
    s.(log := s.log + [Exchange(q, ok)])
  }

  /** Whether a resource answers a search of type `t` restricted to `subject` (None: no restriction). */
  predicate Selected(r: Resource, t: ResourceType, subject: Option<string>) {
    TypeOf(r) == t && (subject.None? || SubjectOf(r) == subject)
  }

  /** An entry that reports, under its own id, a resource the server holds. */
  ghost predicate Backed(records: map<nat, Resource>, e: Entry) {
    SerialOf(e.id).Some? && SerialOf(e.id).value in records && records[SerialOf(e.id).value] == e.resource
  }

  /** No two entries report the same id. */
  ghost predicate DistinctIds(es: seq<Entry>) {
    forall i, j | 0 <= i < j < |es| :: es[i].id != es[j].id
  }

  /** The entries for serials `from` up to `to` that a search of type `t` and `subject` matches, by serial. */
  function Collect(records: map<nat, Resource>, t: ResourceType, subject: Option<string>, from: nat, to: nat): (r: seq<Entry>)
    ensures forall e | e in r :: Backed(records, e) && Selected(e.resource, t, subject) && from <= SerialOf(e.id).value < to
    ensures forall k | from <= k < to && k in records && Selected(records[k], t, subject) :: Entry(IdOf(k), records[k]) in r
    ensures DistinctIds(r)
    decreases if to <= from then 0 else to - from
  {
    if to <= from then []
    else
      var rest := Collect(records, t, subject, from + 1, to);
      if from in records && Selected(records[from], t, subject) then
        SerialOfIdOf(from);
        [Entry(IdOf(from), records[from])] + rest
      else rest
  }

  /** Every resource the server holds that a search of type `t` and `subject` matches, in serial order. */
  function Matches(s: Server, t: ResourceType, subject: Option<string>): (r: seq<Entry>)
    ensures forall e | e in r :: Backed(s.records, e) && Selected(e.resource, t, subject)
    ensures forall k | k in s.records && Selected(s.records[k], t, subject) :: Entry(IdOf(k), s.records[k]) in r
    ensures DistinctIds(r)
  {
    IssuedBelow(s);
    Collect(s.records, t, subject, 0, s.next)
  }

  /** Every serial a server holds is below its `next`. */
  lemma IssuedBelow(s: Server)
    ensures forall k {:trigger s.records[k]} | k in s.records :: k < s.next
  {
    forall k | k in s.records
      ensures k < s.next
    {
      assert Issued(s.next, k);
    }
  }

  /** Storing under `next` and moving `next` on keeps every serial issued. */
  lemma IssuedAfterStore(s: Server, body: Resource, next: nat)
    requires next == s.next + 1
    ensures forall k | k in s.records[s.next := body] :: Issued(next, k)
  {
    IssuedBelow(s);
  }

  /** `POST <base>/<type>`: stores `body` under a new serial and answers its id. */
  function Create(s: Server, body: Resource): (r: Reply<Id>)
    ensures r.server.log == s.log + [Exchange(Post(body), r.result.Success?)]
    ensures r.server.faults == s.faults
    ensures r.result.Success? <==> Fault(s).None?
    ensures r.result.Success? ==>
      && r.result.value == IdOf(s.next)
      && r.server.records == s.records[s.next := body]
      && r.server.next == s.next + 1
    ensures r.result.Failure? ==> r.server.records == s.records && r.server.next == s.next
  {
    match Fault(s)
    case Some(e) => Reply(Logged(s, Post(body), false), Failure(e))
    case None =>
      IssuedAfterStore(s, body, s.next + 1);
      var s' := Logged(s, Post(body), true).(records := s.records[s.next := body], next := s.next + 1);
      Reply(s', Success(IdOf(s.next)))
  }

  /** The id a successful post answers names the new resource, under its own type. */
  lemma CreateLocates(s: Server, body: Resource)
    requires Create(s, body).result.Success?
    ensures var r := Create(s, body);
      Locate(r.server.records, TypeOf(body), r.result.value) == Some(s.next)
  {
    SerialOfIdOf(s.next);
  }

  /**
   * `GET <base>/<type>?subject=<subject>`: a Bundle of every matching resource,
   * without an `entry` key when nothing matches.
   */
  function Search(s: Server, t: ResourceType, subject: Option<string>): (r: Reply<Bundle>)
    ensures r.server == Logged(s, Query(t, subject), r.result.Success?)
    ensures r.result.Success? <==> Fault(s).None?
    ensures r.result.Success? ==> EntriesOf(r.result.value) == Matches(s, t, subject)
    ensures r.result.Success? ==> (r.result.value.entry.None? <==> forall k | k in s.records :: !Selected(s.records[k], t, subject))
  {
    match Fault(s)
    case Some(e) => Reply(Logged(s, Query(t, subject), false), Failure(e))
    case None =>
      var m := Matches(s, t, subject);
      assert m != [] ==> Backed(s.records, m[0]) && Selected(m[0].resource, t, subject);
      Reply(Logged(s, Query(t, subject), true), Success(Bundle(if m == [] then None else Some(m))))
  }

  /** `GET <base>/<type>/<id>`: the resource itself, or NotFound. */
  function Fetch(s: Server, t: ResourceType, id: Id): (r: Reply<Resource>)
    ensures r.server == Logged(s, Read(t, id), r.result.Success?)
    ensures r.result.Success? <==> Fault(s).None? && Locate(s.records, t, id).Some?
    ensures r.result.Success? ==> r.result.value == s.records[Locate(s.records, t, id).value]
    ensures Fault(s).None? && Locate(s.records, t, id).None? ==> r.result == Failure(NotFound)
  {
    match Fault(s)
    case Some(e) => Reply(Logged(s, Read(t, id), false), Failure(e))
    case None =>
      match Locate(s.records, t, id)
      case None => Reply(Logged(s, Read(t, id), false), Failure(NotFound))
      case Some(k) => Reply(Logged(s, Read(t, id), true), Success(s.records[k]))
  }

  /** `DELETE <base>/<type>/<id>`: removes that one resource, or answers NotFound. */
  function Delete(s: Server, t: ResourceType, id: Id): (r: Reply<()>)
    ensures r.server.log == s.log + [Exchange(Remove(t, id), r.result.Success?)]
    ensures r.server.faults == s.faults && r.server.next == s.next
    ensures r.result.Success? <==> Fault(s).None? && Locate(s.records, t, id).Some?
    ensures r.result.Success? ==> r.server.records == s.records - {Locate(s.records, t, id).value}
    ensures r.result.Success? ==> Locate(r.server.records, t, id).None?
    ensures r.result.Failure? ==> r.server.records == s.records
    ensures Fault(s).None? && Locate(s.records, t, id).None? ==> r.result == Failure(NotFound)
  {
    match Fault(s)
    case Some(e) => Reply(Logged(s, Remove(t, id), false), Failure(e))
    case None =>
      match Locate(s.records, t, id)
      case None => Reply(Logged(s, Remove(t, id), false), Failure(NotFound))
      case Some(k) => Reply(Logged(s, Remove(t, id), true).(records := s.records - {k}), Success(()))
  }

  // ---------------------------------------------------------------------------
  // Sequences of calls

  /** `s'` is `s` after some further calls: same faults, and the old log is kept as a prefix. */
  ghost predicate Extends(s: Server, s': Server) {
    s'.faults == s.faults && |s.log| <= |s'.log| && s'.log[..|s.log|] == s.log
  }

  /** The calls issued on the way from `s` to `s'`. */
  function Calls(s: Server, s': Server): seq<Exchange>
    requires |s.log| <= |s'.log|
  {
    s'.log[|s.log|..]
  }

  /** The calls are exactly `plan`, in that order, and every one succeeded. */
  ghost predicate Completed(calls: seq<Exchange>, plan: seq<Request>) {
    |calls| == |plan| && forall i | 0 <= i < |calls| :: calls[i] == Exchange(plan[i], true)
  }

  /**
   * The calls follow `plan` in order up to and including the first one that
   * failed, and nothing was issued after it.
   */
  ghost predicate Aborted(calls: seq<Exchange>, plan: seq<Request>) {
    && 0 < |calls| <= |plan|
    && (forall i | 0 <= i < |calls| :: calls[i].request == plan[i])
    && (forall i | 0 <= i < |calls| :: calls[i].ok <==> i < |calls| - 1)
  }

  /** A remote-only operation that went from `s` to `r` issued `plan`, stopping at the first failure. */
  ghost predicate Followed<T>(s: Server, r: Reply<T>, plan: seq<Request>) {
    && Extends(s, r.server)
    && (r.result.Success? ==> Completed(Calls(s, r.server), plan))
    && (r.result.Failure? ==> Aborted(Calls(s, r.server), plan))
  }

  lemma CallsAppend(s0: Server, s1: Server, s2: Server)
    requires Extends(s0, s1) && Extends(s1, s2)
    ensures Extends(s0, s2)
    ensures Calls(s0, s2) == Calls(s0, s1) + Calls(s1, s2)
  {
    assert s2.log[..|s0.log|] == s2.log[..|s1.log|][..|s0.log|];
  }

  /** Completing one plan and then another completes their concatenation. */
  lemma CompletedThen(c1: seq<Exchange>, p1: seq<Request>, c2: seq<Exchange>, p2: seq<Request>)
    requires Completed(c1, p1)
    ensures Completed(c2, p2) ==> Completed(c1 + c2, p1 + p2)
    ensures Aborted(c2, p2) ==> Aborted(c1 + c2, p1 + p2)
  {
  }

  /** Completing `p1` and then `p2` completes `p1 + p2`. */
  lemma CompletedChain(s0: Server, s1: Server, s2: Server, p1: seq<Request>, p2: seq<Request>)
    requires Extends(s0, s1) && Completed(Calls(s0, s1), p1)
    requires Extends(s1, s2) && Completed(Calls(s1, s2), p2)
    ensures Extends(s0, s2) && Completed(Calls(s0, s2), p1 + p2)
  {
    CallsAppend(s0, s1, s2);
    CompletedThen(Calls(s0, s1), p1, Calls(s1, s2), p2);
  }

  /** A successful call `q` followed by an operation that followed `plan` followed `[q] + plan`. */
  lemma FollowedAfter<T>(s: Server, mid: Server, q: Request, r: Reply<T>, plan: seq<Request>)
    requires mid.log == s.log + [Exchange(q, true)] && mid.faults == s.faults
    requires Followed(mid, r, plan)
    ensures Followed(s, r, [q] + plan)
  {
    assert Extends(s, mid) && Calls(s, mid) == [Exchange(q, true)];
    CallsAppend(s, mid, r.server);
    CompletedThen(Calls(s, mid), [q], Calls(mid, r.server), plan);
  }

  /** An operation that completed `p1`, followed by one that followed `p2`, together followed `p1 + p2`. */
  lemma FollowedThen<T, U>(s: Server, a: Reply<T>, p1: seq<Request>, r: Reply<U>, p2: seq<Request>)
    requires Followed(s, a, p1) && a.result.Success? && Followed(a.server, r, p2)
    ensures Followed(s, r, p1 + p2)
  {
    CallsAppend(s, a.server, r.server);
    CompletedThen(Calls(s, a.server), p1, Calls(a.server, r.server), p2);
  }

  /** An operation that aborted part way through `p1` also aborted `p1 + p2`. */
  lemma FollowedStop<T, U>(s: Server, a: Reply<T>, p1: seq<Request>, r: Reply<U>, p2: seq<Request>)
    requires Followed(s, a, p1) && a.result.Failure? && r.server == a.server && r.result.Failure?
    ensures Followed(s, r, p1 + p2)
  {
    var calls := Calls(s, r.server);
    assert forall i | 0 <= i < |calls| :: calls[i].request == p1[i] == (p1 + p2)[i];
  }

  /** A server that answers every call keeps doing so after further calls. */
  lemma ReliableLater(s: Server, s': Server)
    requires Reliable(s) && Extends(s, s')
    ensures Reliable(s')
  {
  }

  /**
   * Deleting resources a search does not select leaves that search's answer
   * as it was.
   */
  lemma {:induction false} CollectFrame(r1: map<nat, Resource>, r2: map<nat, Resource>, t: ResourceType, subject: Option<string>, from: nat, to: nat)
    requires forall k | k in r2 :: k in r1 && r2[k] == r1[k]
    requires forall k | k in r1 && Selected(r1[k], t, subject) :: k in r2
    ensures Collect(r1, t, subject, from, to) == Collect(r2, t, subject, from, to)
    decreases if to <= from then 0 else to - from
  {
    if from < to {
      CollectFrame(r1, r2, t, subject, from + 1, to);
    }
  }

  /** A search answers from the store alone: calls that wrote nothing do not change it. */
  lemma MatchesSameStore(s1: Server, s2: Server)
    requires s1.records == s2.records && s1.next == s2.next
    ensures forall t, subject :: Matches(s1, t, subject) == Matches(s2, t, subject)
  {
  }

  /** A search that selects nothing the server holds answers nothing. */
  lemma {:induction false} CollectNone(records: map<nat, Resource>, t: ResourceType, subject: Option<string>, from: nat, to: nat)
    requires forall k | k in records :: !Selected(records[k], t, subject)
    ensures Collect(records, t, subject, from, to) == []
    decreases if to <= from then 0 else to - from
  {
    if from < to {
      CollectNone(records, t, subject, from + 1, to);
    }
  }

  lemma MatchesFrame(s1: Server, s2: Server, t: ResourceType, subject: Option<string>)
    requires s1.next == s2.next
    requires forall k | k in s2.records :: k in s1.records && s2.records[k] == s1.records[k]
    requires forall k | k in s1.records && Selected(s1.records[k], t, subject) :: k in s2.records
    ensures Matches(s1, t, subject) == Matches(s2, t, subject)
  {
    CollectFrame(s1.records, s2.records, t, subject, 0, s1.next);
  }

  function Posts(bodies: seq<Resource>): (r: seq<Request>)
    ensures |r| == |bodies|
    ensures forall i | 0 <= i < |bodies| :: r[i] == Post(bodies[i])
  {
    if |bodies| == 0 then [] else [Post(bodies[0])] + Posts(bodies[1..])
  }
}
