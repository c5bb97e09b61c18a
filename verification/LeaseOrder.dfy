/** The order in which leases hand out submissions, and why the queue drains. */
module LeaseOrder {
  import opened Common
  import opened SubmissionStatus
  import opened SubmissionTables
  import opened FiniteSets
  import opened Lifecycle
  import opened LifecycleInvariant

  // ---- the choice of one lease ----

  /** The rows a lease could take at time `now`. */
  function Ready(queue: Queue, now: Time): set<SubmissionId> {
    set id | id in queue && Available(queue[id], now)
  }

  /** `id` may be served before every row of `ids`. */
  ghost predicate Leads(queue: Queue, id: SubmissionId, ids: set<SubmissionId>) {
    id in queue && forall other | other in ids && other in queue :: Before(queue[id], queue[other])
  }

  lemma ReadyIsEligible(db: Db)
    requires QueueMatches(db)
    ensures forall id :: id in Ready(db.queue, db.clock) <==> Eligible(db, id)
  {
  }

  lemma {:induction false} LeaderExists(queue: Queue, ids: set<SubmissionId>)
    requires ids != {} && forall id | id in ids :: id in queue
    ensures exists id :: id in ids && Leads(queue, id, ids)
    decreases |ids|
  {
    var a := Pick(ids);
    var rest := ids - {a};
    if rest == {} {
      assert ids == {a};
      assert Leads(queue, a, ids);
    } else {
      LeaderExists(queue, rest);
      var b :| b in rest && Leads(queue, b, rest);
      var best := if Before(queue[a], queue[b]) then a else b;
      forall other | other in ids && other in queue ensures Before(queue[best], queue[other]) {
        assert other == a || other in rest;
      }
      assert a in queue && b in queue && best in ids;
      assert Leads(queue, best, ids);
    }
  }

  /** Unless every ready row is locked, the candidate query finds a row, and finds none otherwise. */
  lemma CandidateExists(db: Db, locked: set<SubmissionId>)
    requires QueueMatches(db)
    ensures (exists id :: Candidate(db, locked, Some(id))) <==> Ready(db.queue, db.clock) - locked != {}
    ensures Candidate(db, locked, None) <==> Ready(db.queue, db.clock) - locked == {}
  {
    ReadyIsEligible(db);
    var open := Ready(db.queue, db.clock) - locked;
    if open != {} {
      LeaderExists(db.queue, open);
      var id :| id in open && Leads(db.queue, id, open);
      assert Candidate(db, locked, Some(id));
      assert Eligible(db, id);
    } else {
      forall id ensures !Candidate(db, locked, Some(id)) {
        assert id !in open;
      }
      forall id | Eligible(db, id) ensures id in locked {
        assert id !in open;
      }
    }
  }

  /** What a lease takes has no lower priority than anything waiting unlocked, and at the same one it is no younger. */
  lemma CandidateComesFirst(db: Db, locked: set<SubmissionId>, choice: SubmissionId, waiting: SubmissionId)
    requires Candidate(db, locked, Some(choice)) && Eligible(db, waiting) && waiting !in locked
    ensures db.queue[choice].priority >= db.queue[waiting].priority
    ensures db.queue[choice].priority == db.queue[waiting].priority ==>
              db.queue[choice].createdAt <= db.queue[waiting].createdAt
  {
  }

  // ---- draining ----

  /** One worker round: lease the candidate, then finalize it within the lease. */
  datatype Round = Round(
    leaseAt: Time, duration: Time, finalAt: Time,
    id: SubmissionId, attemptNo: int, token: Token,
    to: Status, result: JudgeResult, reason: Option<string>)

  function Request(r: Round): FinalizeRequest {
    FinalizeRequest(r.id, r.attemptNo, r.token, r.to, r.result, r.reason)
  }

  /** The worker leases what the candidate query returned, and finalizes before its lease runs out. */
  ghost predicate LegalRound(db: Db, r: Round) {
    && db.clock <= r.leaseAt <= r.finalAt < r.leaseAt + r.duration
    && Candidate(Tick(db, r.leaseAt), {}, Some(r.id))
    && r.token != "" && r.token !in db.issuedTokens
    && r.attemptNo == db.queue[r.id].attemptNo + 1
    && IsTerminal(r.to) && ResultInRange(r.result)
  }

  /** The tables between lease and finalize. */
  ghost function Leased(db: Db, r: Round): Db
    requires LegalRound(db, r)
  {
    LeaseSubmission(Tick(db, r.leaseAt), r.duration, Some(r.id), r.token).value.0
  }

  ghost function AfterRound(db: Db, r: Round): Db
    requires LegalRound(db, r)
  {
    var open := Tick(Leased(db, r), r.finalAt);
    var finalized := Finalize(open, Request(r));
    if finalized.Ok? then finalized.value else open
  }

  lemma LeasedRow(db: Db, r: Round)
    requires LegalRound(db, r)
    ensures
      var d, row := Leased(db, r), db.queue[r.id];
      && d.clock == r.leaseAt && d.submissions == db.submissions
      && d.queue == db.queue[r.id := row.(
           leasedUntil := Some(r.leaseAt + r.duration), attemptNo := r.attemptNo, leaseToken := Some(r.token))]
  {
  }

  lemma RoundCommits(db: Db, r: Round)
    requires Inv(db) && LegalRound(db, r)
    ensures Inv(AfterRound(db, r))
    ensures Finalize(Tick(Leased(db, r), r.finalAt), Request(r)) == Ok(AfterRound(db, r))
  {
    TickKeepsInv(db, r.leaseAt);
    LeaseKeepsInv(Tick(db, r.leaseAt), r.duration, Some(r.id), r.token);
    LeasedRow(db, r);
    TickKeepsInv(Leased(db, r), r.finalAt);
    FinalizeNeedsVerdict(Tick(Leased(db, r), r.finalAt), Request(r));
  }

  /** A legal round commits its finalize: the submission leaves the queue with its verdict, nothing else moves. */
  lemma RoundFinalizes(db: Db, r: Round)
    requires Inv(db) && LegalRound(db, r)
    ensures Inv(AfterRound(db, r))
    ensures
      var d := AfterRound(db, r);
      && d.clock == r.finalAt && d.queue == db.queue - {r.id}
      && r.id in db.submissions
      && d.submissions == db.submissions[r.id := db.submissions[r.id].(status := r.to, result := r.result)]
  {
    RoundCommits(db, r);
    RoundWrites(db, r);
  }

  lemma RoundWrites(db: Db, r: Round)
    requires LegalRound(db, r) && Finalize(Tick(Leased(db, r), r.finalAt), Request(r)).Ok?
    ensures
      var d := AfterRound(db, r);
      && d.clock == r.finalAt && d.queue == db.queue - {r.id}
      && r.id in db.submissions
      && d.submissions == db.submissions[r.id := db.submissions[r.id].(status := r.to, result := r.result)]
  {
    LeasedRow(db, r);
    var open, d := Tick(Leased(db, r), r.finalAt), AfterRound(db, r);
    assert open.submissions == db.submissions;
    assert d.queue == open.queue - {r.id};
    assert d.submissions == open.submissions[r.id := open.submissions[r.id].(status := r.to, result := r.result)];
  }

  /** No lease held by someone else runs out before `horizon`. */
  ghost predicate Steady(db: Db, horizon: Time) {
    db.clock <= horizon && Ready(db.queue, horizon) == Ready(db.queue, db.clock)
  }

  /** Between two times with the same ready rows, the ready rows are the same. */
  lemma ReadyBetween(queue: Queue, a: Time, b: Time, c: Time)
    requires a <= b <= c && Ready(queue, a) == Ready(queue, c)
    ensures Ready(queue, b) == Ready(queue, c)
  {
    forall id ensures id in Ready(queue, b) <==> id in Ready(queue, c) {
      if id in Ready(queue, c) { assert id in Ready(queue, a); }
    }
  }

  lemma ReadyWithout(queue: Queue, id: SubmissionId, now: Time)
    ensures Ready(queue - {id}, now) == Ready(queue, now) - {id}
  {
    forall x ensures x in Ready(queue - {id}, now) <==> x in Ready(queue, now) - {id} {
      assert x in queue - {id} <==> x in queue && x != id;
    }
  }

  /** The row a round leases leads everything that can become ready by `horizon`. */
  lemma RoundTakesLeader(db: Db, r: Round, horizon: Time)
    requires Inv(db) && Steady(db, horizon) && LegalRound(db, r) && r.finalAt <= horizon
    ensures r.id in Ready(db.queue, horizon) && Leads(db.queue, r.id, Ready(db.queue, horizon))
  {
    var t := Tick(db, r.leaseAt);
    ReadyBetween(db.queue, db.clock, r.leaseAt, horizon);
    TickKeepsInv(db, r.leaseAt);
    ReadyIsEligible(t);
    assert Candidate(t, {}, Some(r.id));
    forall other | other in Ready(db.queue, horizon) ensures Before(db.queue[r.id], db.queue[other]) {
      assert Eligible(t, other);
    }
  }

  lemma RoundServesLeader(db: Db, r: Round, horizon: Time)
    requires Inv(db) && Steady(db, horizon) && LegalRound(db, r) && r.finalAt <= horizon
    ensures Steady(AfterRound(db, r), horizon)
    ensures r.id in Ready(db.queue, horizon) && Leads(db.queue, r.id, Ready(db.queue, horizon))
    ensures Ready(AfterRound(db, r).queue, horizon) == Ready(db.queue, horizon) - {r.id}
  {
    RoundTakesLeader(db, r, horizon);
    RoundFinalizes(db, r);
    ReadyBetween(db.queue, db.clock, r.finalAt, horizon);
    ReadyWithout(db.queue, r.id, r.finalAt);
    ReadyWithout(db.queue, r.id, horizon);
  }

  ghost predicate LegalRounds(db: Db, rounds: seq<Round>, horizon: Time)
    decreases |rounds|
  {
    rounds == [] || (LegalRound(db, rounds[0]) && rounds[0].finalAt <= horizon
                     && LegalRounds(AfterRound(db, rounds[0]), rounds[1..], horizon))
  }

  ghost function AfterRounds(db: Db, rounds: seq<Round>, horizon: Time): Db
    requires LegalRounds(db, rounds, horizon)
    decreases |rounds|
  {
    if rounds == [] then db else AfterRounds(AfterRound(db, rounds[0]), rounds[1..], horizon)
  }

  function Served(rounds: seq<Round>): seq<SubmissionId> {
    seq(|rounds|, i requires 0 <= i < |rounds| => rounds[i].id)
  }

  /** The rounds served distinct ready rows in the order of the initial queue. */
  ghost predicate ServedInOrder(queue: Queue, ids: seq<SubmissionId>, ready: set<SubmissionId>) {
    && Distinct(ids) && Elements(ids) <= ready && (forall id | id in ready :: id in queue)
    && (forall i, j :: 0 <= i < j < |ids| ==> Before(queue[ids[i]], queue[ids[j]]))
    && (forall i, other | 0 <= i < |ids| && other in ready - Elements(ids) :: Before(queue[ids[i]], queue[other]))
  }

  lemma ServeOneMore(queue: Queue, rest: Queue, id: SubmissionId, ids: seq<SubmissionId>, ready: set<SubmissionId>)
    requires rest == queue - {id} && id in ready && Leads(queue, id, ready) && forall x | x in ready :: x in queue
    requires ServedInOrder(rest, ids, ready - {id})
    ensures ServedInOrder(queue, [id] + ids, ready)
    ensures Elements([id] + ids) == {id} + Elements(ids)
  {
    var all := [id] + ids;
    forall i | 0 <= i < |ids| ensures ids[i] in ready && ids[i] != id {
      assert ids[i] in Elements(ids);
    }
    forall i, j | 0 <= i < j < |all| ensures Before(queue[all[i]], queue[all[j]]) && all[i] != all[j] {
      if i > 0 { assert all[i] == ids[i - 1] && all[j] == ids[j - 1]; } else { assert all[j] == ids[j - 1]; }
    }
    forall i, other | 0 <= i < |all| && other in ready - Elements(all) ensures Before(queue[all[i]], queue[other]) {
      assert other in ready && other in queue;
      if i > 0 { assert all[i] == ids[i - 1] && other in ready - {id} - Elements(ids); }
    }
  }

  lemma ServedFirst(queue: Queue, rounds: seq<Round>)
    requires rounds != []
    ensures Served(rounds) == [rounds[0].id] + Served(rounds[1..])
    ensures Elements(Served(rounds)) == {rounds[0].id} + Elements(Served(rounds[1..]))
    ensures queue - {rounds[0].id} - Elements(Served(rounds[1..])) == queue - Elements(Served(rounds))
  {
    var id, rest := rounds[0].id, Served(rounds[1..]);
    assert Served(rounds) == [id] + rest;
    forall x ensures x in Elements([id] + rest) <==> x == id || x in Elements(rest) {
      if x in Elements(rest) {
        var i :| 0 <= i < |rest| && rest[i] == x;
        assert ([id] + rest)[i + 1] == x;
      }
    }
  }

  /**
   * With no new arrivals, any number of lease-and-finalize rounds serves distinct ready rows in queue order,
   * each ending with the verdict its round gave; the ready rows left are exactly those not yet served.
   */
  lemma {:induction false} RoundsServeInOrder(db: Db, rounds: seq<Round>, horizon: Time)
    requires Inv(db) && Steady(db, horizon) && LegalRounds(db, rounds, horizon)
    ensures Inv(AfterRounds(db, rounds, horizon)) && Steady(AfterRounds(db, rounds, horizon), horizon)
    ensures ServedInOrder(db.queue, Served(rounds), Ready(db.queue, horizon))
    ensures
      var d := AfterRounds(db, rounds, horizon);
      && d.queue == db.queue - Elements(Served(rounds))
      && Ready(d.queue, horizon) == Ready(db.queue, horizon) - Elements(Served(rounds))
    decreases |rounds|
  {
    if rounds == [] {
      assert Elements(Served(rounds)) == {};
      assert db.queue - {} == db.queue;
    } else {
      var r, rest := rounds[0], rounds[1..];
      var next := AfterRound(db, r);
      RoundFinalizes(db, r);
      RoundServesLeader(db, r, horizon);
      RoundsServeInOrder(next, rest, horizon);
      ServeOneMore(db.queue, next.queue, r.id, Served(rest), Ready(db.queue, horizon));
      ServedFirst(db.queue, rounds);
    }
  }

  /** The verdict a round gave is what its submission ends with. */
  lemma {:induction false} RoundsDecide(db: Db, rounds: seq<Round>, horizon: Time, i: int)
    requires Inv(db) && Steady(db, horizon) && LegalRounds(db, rounds, horizon) && 0 <= i < |rounds|
    ensures
      var d, r := AfterRounds(db, rounds, horizon), rounds[i];
      r.id in d.submissions && d.submissions[r.id].status == r.to && d.submissions[r.id].result == r.result
    decreases |rounds|
  {
    var r, rest := rounds[0], rounds[1..];
    var next := AfterRound(db, r);
    RoundFinalizes(db, r);
    RoundServesLeader(db, r, horizon);
    if i > 0 {
      RoundsDecide(next, rest, horizon, i - 1);
    } else {
      RoundsKeepOthers(next, rest, horizon, r.id);
    }
  }

  /** A submission that has left the queue is not touched by later rounds. */
  lemma {:induction false} RoundsKeepOthers(db: Db, rounds: seq<Round>, horizon: Time, id: SubmissionId)
    requires Inv(db) && LegalRounds(db, rounds, horizon) && id in db.submissions && id !in db.queue
    ensures id in AfterRounds(db, rounds, horizon).submissions
    ensures AfterRounds(db, rounds, horizon).submissions[id] == db.submissions[id]
    decreases |rounds|
  {
    if rounds == [] {
    } else {
      RoundFinalizes(db, rounds[0]);
      RoundsKeepOthers(AfterRound(db, rounds[0]), rounds[1..], horizon, id);
    }
  }

  /**
   * The number of ready rows is the measure: no more rounds than ready rows are possible, exactly that many
   * serve all of them and leave nothing to lease, and after fewer a next lease finds a row.
   */
  lemma RoundsDrain(db: Db, rounds: seq<Round>, horizon: Time)
    requires Inv(db) && Steady(db, horizon) && LegalRounds(db, rounds, horizon)
    ensures |rounds| <= |Ready(db.queue, horizon)|
    ensures |rounds| == |Ready(db.queue, horizon)| ==> Elements(Served(rounds)) == Ready(db.queue, horizon)
    ensures |rounds| == |Ready(db.queue, horizon)| <==> Candidate(AfterRounds(db, rounds, horizon), {}, None)
    ensures |rounds| < |Ready(db.queue, horizon)| <==>
            exists id :: Candidate(AfterRounds(db, rounds, horizon), {}, Some(id))
  {
    RoundsServeInOrder(db, rounds, horizon);
    CoverSize(Served(rounds), Ready(db.queue, horizon));
    NothingLeft(AfterRounds(db, rounds, horizon), horizon);
  }

  lemma CoverSize<T>(ids: seq<T>, all: set<T>)
    requires Distinct(ids) && Elements(ids) <= all
    ensures |ids| <= |all|
    ensures |ids| == |all| <==> all - Elements(ids) == {}
    ensures |ids| == |all| ==> Elements(ids) == all
  {
    DistinctSize(ids);
    SubsetSize(Elements(ids), all);
    assert |all - Elements(ids)| == |all| - |Elements(ids)|;
  }

  lemma NothingLeft(d: Db, horizon: Time)
    requires Inv(d) && Steady(d, horizon)
    ensures Candidate(d, {}, None) <==> Ready(d.queue, horizon) == {}
    ensures (exists id :: Candidate(d, {}, Some(id))) <==> Ready(d.queue, horizon) != {}
  {
    CandidateExists(d, {});
    assert Ready(d.queue, d.clock) - {} == Ready(d.queue, horizon);
  }
}
