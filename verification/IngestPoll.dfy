/**
 * Waiting for ingestion jobs (`_poll_jobs` in `cli_client/ingest.py`) and the
 * summary and exit code computed from what came back.
 */
module IngestPoll {
  import opened Prelude

  const POLL_INTERVAL: int := 10
  const TERMINAL_STATUSES: set<string> := {"COMPLETED", "FAILED", "completed", "failed"}

  /** The first terminal status a job reported in the first `rounds` rounds. */
  function FirstTerminal(answer: (nat, string) -> Option<string>, id: string, rounds: nat): (r: Option<string>)
    ensures r.Some? ==> r.value in TERMINAL_STATUSES && exists k: nat | k < rounds :: answer(k, id) == r
    ensures r.None? ==> forall k: nat | k < rounds && answer(k, id).Some? :: answer(k, id).value !in TERMINAL_STATUSES
  {
    if rounds == 0 then None
    else
      var earlier := FirstTerminal(answer, id, rounds - 1);
      if earlier.Some? then earlier
      else if answer(rounds - 1, id).Some? && answer(rounds - 1, id).value in TERMINAL_STATUSES then
        answer(rounds - 1, id)
      else None
  }

  /** Nothing but a terminal status is ever recorded, and a job leaves pending when one is. */
  ghost predicate Partition(ids: set<string>, pending: set<string>, final: map<string, string>,
                            answer: (nat, string) -> Option<string>, rounds: nat) {
    && pending + final.Keys == ids && pending !! final.Keys
    && (forall id | id in pending :: FirstTerminal(answer, id, rounds).None?)
    && (forall id | id in final :: FirstTerminal(answer, id, rounds) == Some(final[id]))
  }

  /** One pass over the pending jobs; a failed request leaves its job pending. */
  method PollRound(ids: set<string>, pending: set<string>, final: map<string, string>,
                   answer: (nat, string) -> Option<string>, round: nat)
    returns (pending': set<string>, final': map<string, string>)
    requires Partition(ids, pending, final, answer, round)
    ensures Partition(ids, pending', final', answer, round + 1)
  {
    pending', final' := pending, final;
    var left := pending;
    while left != {}
      invariant left <= pending' <= pending
      invariant pending' + final'.Keys == ids && pending' !! final'.Keys
      invariant forall id | id in left :: FirstTerminal(answer, id, round).None?
      invariant forall id | id in pending' && id !in left :: FirstTerminal(answer, id, round + 1).None?
      invariant forall id | id in final' :: FirstTerminal(answer, id, round + 1) == Some(final'[id])
      decreases left
    {
      var id :| id in left;
      left := left - {id};
      var status := answer(round, id);
      if status.Some? && status.value in TERMINAL_STATUSES {
        final' := final'[id := status.value];
        pending' := pending' - {id};
      }
    }
  }

  /** Each reading of the clock after the first two comes at least one sleep after the one before. */
  ghost predicate Sleeps(clock: nat -> int) {
    clock(0) <= clock(1) && forall k: nat | k >= 1 :: clock(k) + 10 <= clock(k + 1)
  }

  /**
   * `clock(0)` sets the deadline, `clock(k + 1)` is read before round `k`;
   * `answer(k, id)` is what asking for a job in round `k` gives, if anything.
   */
  method PollJobs(jobs: seq<string>, clock: nat -> int, answer: (nat, string) -> Option<string>, timeout: int)
    returns (final: map<string, string>, rounds: nat)
    requires Sleeps(clock)
    ensures final.Keys == set id | id in jobs
    ensures forall id | id in final :: final[id] == Ending(answer, id, rounds)
    ensures rounds > 0 ==> 10 * (rounds - 1) < timeout
    ensures (exists id | id in final :: final[id] == "TIMEOUT") ==> clock(rounds + 1) >= clock(0) + timeout
  {
    var ids := set id | id in jobs;
    var pending := ids;
    final := map[];
    rounds := 0;
    var deadline := clock(0) + timeout;
    while pending != {} && clock(rounds + 1) < deadline
      invariant Partition(ids, pending, final, answer, rounds)
      invariant clock(rounds + 1) >= clock(0) + POLL_INTERVAL * rounds
      invariant rounds > 0 ==> POLL_INTERVAL * (rounds - 1) < timeout
      decreases deadline - clock(rounds + 1)
    {
      pending, final := PollRound(ids, pending, final, answer, rounds);
      assert clock(rounds + 1) + POLL_INTERVAL <= clock(rounds + 1 + 1);
      rounds := rounds + 1;
    }
    TimeoutsComplete(ids, pending, final, answer, rounds);
    final := final + map id | id in pending :: "TIMEOUT";
  }

  /** How a job ended: its first terminal status, or a timeout. */
  function Ending(answer: (nat, string) -> Option<string>, id: string, rounds: nat): string {
    match FirstTerminal(answer, id, rounds)
    case Some(s) => s
    case None => "TIMEOUT"
  }

  /** What asking for the job in round `k` gives ends it: completed or failed, in capitals or not. */
  predicate EndsJob(answer: (nat, string) -> Option<string>, k: nat, id: string) {
    answer(k, id) in {Some("COMPLETED"), Some("FAILED"), Some("completed"), Some("failed")}
  }

  lemma EndsIsTerminal(answer: (nat, string) -> Option<string>, k: nat, id: string)
    ensures EndsJob(answer, k, id) <==> answer(k, id).Some? && answer(k, id).value in TERMINAL_STATUSES
  {}

  /** Round `k` is the first that ends the job. */
  ghost predicate EndsFirst(answer: (nat, string) -> Option<string>, k: nat, id: string) {
    EndsJob(answer, k, id) && forall j: nat | j < k :: !EndsJob(answer, j, id)
  }

  lemma {:induction false} FirstTerminalIs(answer: (nat, string) -> Option<string>, id: string, rounds: nat)
    ensures FirstTerminal(answer, id, rounds).None? ==> forall k: nat | k < rounds :: !EndsJob(answer, k, id)
    ensures FirstTerminal(answer, id, rounds).Some? ==>
              exists k: nat :: k < rounds && EndsFirst(answer, k, id) && answer(k, id) == FirstTerminal(answer, id, rounds)
  {
    if rounds > 0 {
      FirstTerminalIs(answer, id, rounds - 1);
      EndsIsTerminal(answer, rounds - 1, id);
      if FirstTerminal(answer, id, rounds - 1).None? && EndsJob(answer, rounds - 1, id) {
        assert EndsFirst(answer, rounds - 1, id);
      }
    }
  }

  /**
   * How a job ends, from what asking for it gave in each round: the first
   * answer that ends it, or a timeout if none did; other statuses and failed
   * requests leave it pending.
   */
  lemma EndingOutright(answer: (nat, string) -> Option<string>, id: string, rounds: nat)
    ensures (forall k: nat | k < rounds :: !EndsJob(answer, k, id)) ==> Ending(answer, id, rounds) == "TIMEOUT"
    ensures forall k: nat | k < rounds && EndsFirst(answer, k, id) :: Some(Ending(answer, id, rounds)) == answer(k, id)
  {
    FirstTerminalIs(answer, id, rounds);
    forall k: nat, j: nat | EndsFirst(answer, k, id) && EndsFirst(answer, j, id)
      ensures k == j
    {}
  }

  lemma TimeoutsComplete(ids: set<string>, pending: set<string>, final: map<string, string>,
                         answer: (nat, string) -> Option<string>, rounds: nat)
    requires Partition(ids, pending, final, answer, rounds)
    ensures var all := final + map id | id in pending :: "TIMEOUT";
            && all.Keys == ids && (forall id | id in all :: all[id] == Ending(answer, id, rounds))
            && ((exists id | id in all :: all[id] == "TIMEOUT") ==> pending != {})
  {
    forall id | id in final
      ensures final[id] != "TIMEOUT"
    {
      assert "TIMEOUT"[0] == 'T' && final[id] in TERMINAL_STATUSES;
      assert "COMPLETED"[0] == 'C' && "completed"[0] == 'c' && "FAILED"[0] == 'F' && "failed"[0] == 'f';
    }
  }

  // --------------------------------------------------------------- summary

  function WithStatus(final: map<string, string>, statuses: set<string>): set<string> {
    set id | id in final && final[id] in statuses
  }

  function Completed(final: map<string, string>): set<string> { WithStatus(final, {"COMPLETED", "completed"}) }

  function FailedJobs(final: map<string, string>): set<string> { WithStatus(final, {"FAILED", "failed"}) }

  function TimedOut(final: map<string, string>): set<string> { WithStatus(final, {"TIMEOUT"}) }

  function ExitCode(final: map<string, string>, failedUploads: nat): nat {
    if FailedJobs(final) == {} && TimedOut(final) == {} && failedUploads == 0 then 0 else 2
  }

  /** Every distinct job is counted once: completed, failed or timed out. */
  lemma SummaryAddsUp(jobs: seq<string>, final: map<string, string>, answer: (nat, string) -> Option<string>,
                      rounds: nat, failedUploads: nat)
    requires final.Keys == set id | id in jobs
    requires forall id | id in final :: final[id] == Ending(answer, id, rounds)
    ensures |Completed(final)| + |FailedJobs(final)| + |TimedOut(final)| == |set id | id in jobs|
    ensures ExitCode(final, failedUploads) == 0 <==> Completed(final) == (set id | id in jobs) && failedUploads == 0
  {
    var all := set id | id in jobs;
    var done, failed, late := Completed(final), FailedJobs(final), TimedOut(final);
    forall id | id in all
      ensures id in done + failed + late
    {
      assert id in final;
    }
    assert all == done + failed + late;
    ClassesAreDisjoint(final);
    SizesAdd(done, failed, late);
  }

  /** Who counts as completed, failed and timed out, and the two exit codes. */
  lemma SummaryOutright(final: map<string, string>, failedUploads: nat)
    ensures forall id :: id in Completed(final) <==> id in final && final[id] in {"COMPLETED", "completed"}
    ensures forall id :: id in FailedJobs(final) <==> id in final && final[id] in {"FAILED", "failed"}
    ensures forall id :: id in TimedOut(final) <==> id in final && final[id] == "TIMEOUT"
    ensures ExitCode(final, failedUploads)
         == if failedUploads == 0 && forall id | id in final :: final[id] !in {"FAILED", "failed", "TIMEOUT"} then 0 else 2
  {
    if failedUploads == 0 && exists id | id in final :: final[id] in {"FAILED", "failed", "TIMEOUT"} {
      var id :| id in final && final[id] in {"FAILED", "failed", "TIMEOUT"};
      assert id in FailedJobs(final) || id in TimedOut(final);
    }
  }

  lemma ClassesAreDisjoint(final: map<string, string>)
    ensures Completed(final) !! FailedJobs(final)
    ensures (Completed(final) + FailedJobs(final)) !! TimedOut(final)
  {
    assert "COMPLETED"[0] == 'C' && "completed"[0] == 'c';
    assert "FAILED"[0] == 'F' && "failed"[0] == 'f' && "TIMEOUT"[0] == 'T';
  }

  lemma SizesAdd(a: set<string>, b: set<string>, c: set<string>)
    requires a !! b && (a + b) !! c
    ensures |a + b + c| == |a| + |b| + |c|
    ensures a == a + b + c <==> b == {} && c == {}
  {
    assert |a + b| == |a| + |b|;
    if a == a + b + c {
      assert b == (a + b + c) * b == a * b == {};
      assert c == (a + b + c) * c == a * c == {};
    }
  }
}
