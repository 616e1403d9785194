/**
 * `ProcessingStats`: the four counters one command owns for one run. Every
 * per-file job first counts the file in `total` and then, unless it raises,
 * counts exactly one outcome.
 */
module Stats {

  /** How one per-file job ended. `Raised` is an exception leaving the job after `total` was counted. */
  datatype Outcome = Processed | SkippedHasLang | SkippedNoSrt | Raised

  datatype Counters = Counters(total: nat, processed: nat, skippedHasLang: nat, skippedNoSrt: nat)
  {
    /** Files that reached an outcome counter. */
    function Settled(): nat
    {
      processed + skippedHasLang + skippedNoSrt
    }
  }

  const Zero := Counters(0, 0, 0, 0)

  /** The update a job makes once it has an outcome: one more in the counter the outcome names, if any. */
  function Settle(c: Counters, o: Outcome): Counters
  {
    match o
    case Processed => c.(processed := c.processed + 1)
    case SkippedHasLang => c.(skippedHasLang := c.skippedHasLang + 1)
    case SkippedNoSrt => c.(skippedNoSrt := c.skippedNoSrt + 1)
    case Raised => c
  }

  /** The counter updates of one job: `total += 1`, then the one counter its outcome names. */
  function Record(c: Counters, o: Outcome): (r: Counters)
    ensures r.total == c.total + 1
    ensures r.Settled() == c.Settled() + (if o == Raised then 0 else 1)
    ensures r.processed == c.processed + (if o == Processed then 1 else 0)
    ensures r.skippedHasLang == c.skippedHasLang + (if o == SkippedHasLang then 1 else 0)
    ensures r.skippedNoSrt == c.skippedNoSrt + (if o == SkippedNoSrt then 1 else 0)
  {
    Settle(c.(total := c.total + 1), o)
  }

  /** The counters after a run of jobs, in order. */
  function RecordAll(c: Counters, outcomes: seq<Outcome>): Counters
    decreases outcomes
  {
    if outcomes == [] then c else RecordAll(Record(c, outcomes[0]), outcomes[1..])
  }

  /** How many of the jobs raised. */
  function CountRaised(outcomes: seq<Outcome>): (n: nat)
    ensures n <= |outcomes|
    ensures n == 0 <==> Raised !in outcomes
  {
    if outcomes == [] then 0
    else (if outcomes[0] == Raised then 1 else 0) + CountRaised(outcomes[1..])
  }

  /** Batch accounting: every job adds one to `total`, and every job that did not raise adds one outcome. */
  lemma {:induction false} RecordAllAccounting(c: Counters, outcomes: seq<Outcome>)
    ensures RecordAll(c, outcomes).total == c.total + |outcomes|
    ensures RecordAll(c, outcomes).Settled() == c.Settled() + |outcomes| - CountRaised(outcomes)
    decreases outcomes
  {
    if outcomes != [] {
      RecordAllAccounting(Record(c, outcomes[0]), outcomes[1..]);
    }
  }

  /** Running one more job extends the tally by that job's update. */
  lemma {:induction false} RecordAllSnoc(c: Counters, outcomes: seq<Outcome>, o: Outcome)
    ensures RecordAll(c, outcomes + [o]) == Record(RecordAll(c, outcomes), o)
    decreases outcomes
  {
    if outcomes != [] {
      assert (outcomes + [o])[1..] == outcomes[1..] + [o];
      RecordAllSnoc(Record(c, outcomes[0]), outcomes[1..], o);
    }
  }

  /** A run from fresh counters in which nothing raised: total = files = processed + both skips. */
  lemma {:induction false} CleanRunBalances(outcomes: seq<Outcome>)
    requires Raised !in outcomes
    ensures RecordAll(Zero, outcomes).total == |outcomes|
    ensures RecordAll(Zero, outcomes).Settled() == |outcomes|
  {
    RecordAllAccounting(Zero, outcomes);
    assert CountRaised(outcomes) == 0;
  }

  class ProcessingStats {
    var total: nat
    var processed: nat
    var skippedHasLang: nat
    var skippedNoSrt: nat

    function Snapshot(): Counters
      reads this
    {
      Counters(total, processed, skippedHasLang, skippedNoSrt)
    }

    constructor ()
      ensures Snapshot() == Zero
    {
      total, processed, skippedHasLang, skippedNoSrt := 0, 0, 0, 0;
    }

    /** The `+= 1` on the counter an outcome names, if any. */
    method Count(o: Outcome)
      modifies this
      ensures Snapshot() == Settle(old(Snapshot()), o)
    {
      match o {
        case Processed => processed := processed + 1;
        case SkippedHasLang => skippedHasLang := skippedHasLang + 1;
        case SkippedNoSrt => skippedNoSrt := skippedNoSrt + 1;
        case Raised =>
      }
    }
  }
}
