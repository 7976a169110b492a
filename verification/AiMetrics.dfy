/** The per-provider counters. */
module AiMetrics {
  datatype Outcome = Success | Failover | Skipped

  datatype Bucket = Bucket(calls: nat, successes: nat, failovers: nat, retries: nat, rateLimited: nat, skipped: nat)

  const EMPTY := Bucket(0, 0, 0, 0, 0, 0)

  type Stats = map<string, Bucket>

  function BucketName(name: string, adapter: string): string {
    if name != "" then name else if adapter != "" then adapter else "unknown"
  }

  function Extra(attempts: int): nat {
    if attempts > 1 then attempts - 1 else 0
  }

  function BucketOf(stats: Stats, key: string): Bucket {
    if key in stats then stats[key] else EMPTY
  }

  datatype Report = Report(outcome: Outcome, attempts: int, rateLimited: bool)

  const SKIP := Report(Skipped, 0, false)

  function Counted(b: Bucket, r: Report): Bucket {
    match r.outcome
    case Skipped => b.(skipped := b.skipped + 1)
    case _ =>
      Bucket(b.calls + 1,
             b.successes + (if r.outcome.Success? then 1 else 0),
             b.failovers + (if r.outcome.Success? then 0 else 1),
             b.retries + Extra(r.attempts),
             b.rateLimited + (if r.rateLimited then 1 else 0),
             b.skipped)
  }

  function Recorded(stats: Stats, key: string, r: Report): Stats {
    stats[key := Counted(BucketOf(stats, key), r)]
  }

  /** In every bucket each call either succeeded or failed over, and none was rate limited
      twice. */
  ghost predicate Balanced(stats: Stats) {
    forall k :: k in stats ==>
      stats[k].calls == stats[k].successes + stats[k].failovers && stats[k].rateLimited <= stats[k].calls
  }

  lemma RecordedBalanced(stats: Stats, key: string, r: Report)
    requires Balanced(stats)
    ensures Balanced(Recorded(stats, key, r))
  {
  }

  datatype Field = Calls | Successes | Failovers | Retries | RateLimited | Skips

  function Get(b: Bucket, f: Field): nat {
    match f
    case Calls => b.calls
    case Successes => b.successes
    case Failovers => b.failovers
    case Retries => b.retries
    case RateLimited => b.rateLimited
    case Skips => b.skipped
  }

  /** A report and the bucket it goes to. */
  datatype Line = Line(key: string, report: Report)

  function RecordedAll(stats: Stats, lines: seq<Line>): Stats {
    if lines == [] then stats
    else Recorded(RecordedAll(stats, lines[..|lines| - 1]), lines[|lines| - 1].key, lines[|lines| - 1].report)
  }

  lemma RecordedAllAppend(stats: Stats, lines: seq<Line>, line: Line)
    ensures RecordedAll(stats, lines + [line]) == Recorded(RecordedAll(stats, lines), line.key, line.report)
  {
    assert (lines + [line])[..|lines|] == lines;
  }

  lemma {:induction false} RecordedAllBalanced(stats: Stats, lines: seq<Line>)
    requires Balanced(stats)
    ensures Balanced(RecordedAll(stats, lines))
  {
    if lines != [] {
      var init, last := lines[..|lines| - 1], lines[|lines| - 1];
      RecordedAllBalanced(stats, init);
      RecordedBalanced(RecordedAll(stats, init), last.key, last.report);
    }
  }

  /** How much a report adds to a field of its bucket. */
  function Adds(r: Report, f: Field): nat {
    if r.outcome.Skipped? then (if f.Skips? then 1 else 0)
    else
      match f
      case Calls => 1
      case Successes => if r.outcome.Success? then 1 else 0
      case Failovers => if r.outcome.Success? then 0 else 1
      case Retries => Extra(r.attempts)
      case RateLimited => if r.rateLimited then 1 else 0
      case Skips => 0
  }

  function Move(line: Line, key: string, f: Field): nat {
    if line.key != key then 0 else Adds(line.report, f)
  }

  function Sum(xs: seq<nat>): nat {
    if xs == [] then 0 else Sum(xs[..|xs| - 1]) + xs[|xs| - 1]
  }

  function Moves(lines: seq<Line>, key: string, f: Field): (r: seq<nat>)
    ensures |r| == |lines| && forall i :: 0 <= i < |lines| ==> r[i] == Move(lines[i], key, f)
  {
    seq(|lines|, i requires 0 <= i < |lines| => Move(lines[i], key, f))
  }

  lemma RecordedMoves(stats: Stats, line: Line, key: string, f: Field)
    ensures Get(BucketOf(Recorded(stats, line.key, line.report), key), f) ==
            Get(BucketOf(stats, key), f) + Move(line, key, f)
  {
  }

  /** A field ends up at what it was and all that reports to its bucket add to it. */
  lemma {:induction false} RecordedSums(stats: Stats, lines: seq<Line>, key: string, f: Field)
    ensures Get(BucketOf(RecordedAll(stats, lines), key), f) == Get(BucketOf(stats, key), f) + Sum(Moves(lines, key, f))
  {
    if lines != [] {
      var init, last := lines[..|lines| - 1], lines[|lines| - 1];
      RecordedSums(stats, init, key, f);
      RecordedMoves(RecordedAll(stats, init), last, key, f);
      assert Moves(lines, key, f)[..|init|] == Moves(init, key, f);
    }
  }

  lemma {:induction false} SumsEqualIff(xs: seq<nat>, ys: seq<nat>)
    requires |xs| == |ys| && forall i :: 0 <= i < |xs| ==> xs[i] <= ys[i]
    ensures Sum(xs) <= Sum(ys) && (Sum(xs) == Sum(ys) <==> xs == ys)
  {
    if xs != [] {
      var n := |xs| - 1;
      SumsEqualIff(xs[..n], ys[..n]);
      assert xs == xs[..n] + [xs[n]] && ys == ys[..n] + [ys[n]];
    }
  }

  class Metrics {
    var stats: Stats

    constructor ()
      ensures stats == map[]
    {
      stats := map[];
    }

    method Record(name: string, adapter: string, r: Report)
      modifies this
      ensures stats == Recorded(old(stats), BucketName(name, adapter), r)
    {
      var key := BucketName(name, adapter);
      var b := BucketOf(stats, key);
      if r.outcome == Skipped {
        stats := stats[key := b.(skipped := b.skipped + 1)];
        return;
      }
      b := b.(calls := b.calls + 1, retries := b.retries + Extra(r.attempts));
      if r.outcome == Success {
        b := b.(successes := b.successes + 1);
      } else {
        b := b.(failovers := b.failovers + 1);
      }
      if r.rateLimited { b := b.(rateLimited := b.rateLimited + 1); }
      stats := stats[key := b];
    }
  }
}
