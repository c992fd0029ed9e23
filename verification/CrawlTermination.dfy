/**
 Termination, with nothing assumed about deduplication, the pages, or the workers: a job
 that is worked on is retried a bounded number of times, and what it enqueues is one
 level deeper, and nothing at all beyond the depth limit.
 */
module CrawlTermination {

  /** A live job; `attempts` counts the tries it has left. */
  datatype Job = Job(depth: nat, attempts: nat)

  datatype Limits = Limits(maxDepth: int, attempts: nat)

  /** What working on a job may put in its place. */
  ghost predicate Replaces(l: Limits, j: Job, jobs: seq<Job>, retry: bool) {
    && (retry ==> 1 < j.attempts && jobs != [] && jobs[0] == j.(attempts := j.attempts - 1))
    && forall c <- jobs[if retry && jobs != [] then 1 else 0..] ::
         c.depth == j.depth + 1 && 0 < c.attempts <= l.attempts && j.depth <= l.maxDepth
  }

  /** Some worker finishes one try of the i-th live job. */
  ghost predicate WorksOn(l: Limits, s: seq<Job>, t: seq<Job>, i: nat) {
    && i < |s| && 0 < s[i].attempts
    && exists jobs: seq<Job>, retry: bool :: Replaces(l, s[i], jobs, retry) && t == s[..i] + s[i + 1..] + jobs
  }

  ghost predicate Next(l: Limits, s: seq<Job>, t: seq<Job>) {
    exists i: nat :: WorksOn(l, s, t, i)
  }

  // ---------------------------------------------------------------- the measure, level by level

  /** The tries left at one depth. */
  function Weight(s: seq<Job>, depth: nat): nat {
    if s == [] then 0 else (if s[0].depth == depth then s[0].attempts else 0) + Weight(s[1..], depth)
  }

  lemma {:induction false} WeightAppend(a: seq<Job>, b: seq<Job>, depth: nat)
    ensures Weight(a + b, depth) == Weight(a, depth) + Weight(b, depth)
  {
    if a == [] {
      assert a + b == b;
    } else {
      assert (a + b)[1..] == a[1..] + b;
      WeightAppend(a[1..], b, depth);
    }
  }

  lemma {:induction false} WeightElsewhere(s: seq<Job>, depth: nat)
    requires forall j <- s :: j.depth != depth
    ensures Weight(s, depth) == 0
  {
    if s != [] {
      assert s[0] in s;
      WeightElsewhere(s[1..], depth);
    }
  }

  lemma WeightWithout(s: seq<Job>, i: nat, depth: nat)
    requires i < |s|
    ensures Weight(s, depth) == Weight(s[..i] + s[i + 1..], depth) + (if s[i].depth == depth then s[i].attempts else 0)
  {
    assert s == s[..i] + ([s[i]] + s[i + 1..]);
    WeightAppend(s[..i], [s[i]] + s[i + 1..], depth);
    WeightAppend(s[..i], s[i + 1..], depth);
    assert ([s[i]] + s[i + 1..])[1..] == s[i + 1..];
  }

  /** One try lowers the weight of its own depth and leaves the shallower depths alone. */
  lemma StepWeight(l: Limits, s: seq<Job>, t: seq<Job>, i: nat, depth: nat)
    requires WorksOn(l, s, t, i) && depth <= s[i].depth
    ensures if depth == s[i].depth then Weight(t, depth) < Weight(s, depth) else Weight(t, depth) == Weight(s, depth)
  {
    var jobs, retry :| Replaces(l, s[i], jobs, retry) && t == s[..i] + s[i + 1..] + jobs;
    WeightWithout(s, i, depth);
    WeightAppend(s[..i] + s[i + 1..], jobs, depth);
    if retry {
      assert jobs == [jobs[0]] + jobs[1..];
      WeightElsewhere(jobs[1..], depth);
    } else {
      assert jobs[0..] == jobs;
      WeightElsewhere(jobs, depth);
    }
  }

  // ---------------------------------------------------------------- levels fall silent one after the other

  ghost predicate StepAt(l: Limits, run: nat -> seq<Job>, n: nat) {
    Next(l, run(n), run(n + 1))
  }

  ghost predicate Run(l: Limits, run: nat -> seq<Job>) {
    forall n: nat :: StepAt(l, run, n)
  }

  /** No job of depth below `depth` is worked on in step `n`. */
  ghost predicate QuietAt(l: Limits, run: nat -> seq<Job>, depth: nat, n: nat) {
    forall i: nat :: WorksOn(l, run(n), run(n + 1), i) ==> depth <= run(n)[i].depth
  }

  ghost predicate QuietBelow(l: Limits, run: nat -> seq<Job>, depth: nat, from: nat) {
    forall n: nat :: from <= n ==> QuietAt(l, run, depth, n)
  }

  /** Once the shallower levels are quiet, this one can only be worked on as often as it has tries left. */
  lemma {:induction false} LevelFallsQuiet(l: Limits, run: nat -> seq<Job>, depth: nat, from: nat) returns (quiet: nat)
    requires Run(l, run) && QuietBelow(l, run, depth, from)
    ensures QuietBelow(l, run, depth + 1, quiet)
    decreases Weight(run(from), depth)
  {
    if QuietBelow(l, run, depth + 1, from) {
      quiet := from;
    } else {
      var n := Busy(l, run, depth, from);
      QuietLater(l, run, depth, from, n + 1);
      quiet := LevelFallsQuiet(l, run, depth, n + 1);
    }
  }

  /** If a level is not quiet yet, some later step works on it, and then it has fewer tries left than before. */
  lemma Busy(l: Limits, run: nat -> seq<Job>, depth: nat, from: nat) returns (n: nat)
    requires Run(l, run) && QuietBelow(l, run, depth, from) && !QuietBelow(l, run, depth + 1, from)
    ensures from <= n && Weight(run(n + 1), depth) < Weight(run(from), depth)
  {
    n :| from <= n && !QuietAt(l, run, depth + 1, n);
    var i: nat :| WorksOn(l, run(n), run(n + 1), i) && run(n)[i].depth < depth + 1;
    assert QuietAt(l, run, depth, n);
    WeightDescends(l, run, depth, from, n);
    StepWeight(l, run(n), run(n + 1), i, depth);
  }

  lemma QuietLater(l: Limits, run: nat -> seq<Job>, depth: nat, from: nat, later: nat)
    requires QuietBelow(l, run, depth, from) && from <= later
    ensures QuietBelow(l, run, depth, later)
  {}

  lemma {:induction false} WeightDescends(l: Limits, run: nat -> seq<Job>, depth: nat, from: nat, to: nat)
    requires Run(l, run) && QuietBelow(l, run, depth, from) && from <= to
    ensures Weight(run(to), depth) <= Weight(run(from), depth)
    decreases if from <= to then to - from else 0
  {
    if from < to {
      assert StepAt(l, run, from) && QuietAt(l, run, depth, from);
      var i: nat :| WorksOn(l, run(from), run(from + 1), i);
      StepWeight(l, run(from), run(from + 1), i, depth);
      QuietLater(l, run, depth, from, from + 1);
      WeightDescends(l, run, depth, from + 1, to);
    }
  }

  lemma {:induction false} LevelsFallQuiet(l: Limits, run: nat -> seq<Job>, depth: nat) returns (quiet: nat)
    requires Run(l, run)
    ensures QuietBelow(l, run, depth, quiet)
  {
    if depth == 0 {
      quiet := 0;
    } else {
      var before := LevelsFallQuiet(l, run, depth - 1);
      quiet := LevelFallsQuiet(l, run, depth - 1, before);
    }
  }

  // ---------------------------------------------------------------- depths are bounded

  ghost predicate DepthsBelow(s: seq<Job>, bound: nat) {
    forall j <- s :: j.depth < bound
  }

  lemma DepthAt(s: seq<Job>, bound: nat, i: nat)
    requires DepthsBelow(s, bound) && i < |s|
    ensures s[i].depth < bound
  {
    assert s[i] in s;
  }

  lemma {:induction false} BoundOf(s: seq<Job>) returns (bound: nat)
    ensures DepthsBelow(s, bound)
  {
    if s == [] {
      bound := 0;
    } else {
      bound := BoundOf(s[1..]);
      if bound <= s[0].depth { bound := s[0].depth + 1; }
    }
  }

  lemma {:induction false} RunDepths(l: Limits, run: nat -> seq<Job>, bound: nat, n: nat)
    requires Run(l, run) && DepthsBelow(run(0), bound) && l.maxDepth + 2 <= bound
    ensures DepthsBelow(run(n), bound)
  {
    if n > 0 {
      RunDepths(l, run, bound, n - 1);
      assert StepAt(l, run, n - 1);
    }
  }

  /**
   Every crawl run ends: for any number of workers, any pages, and even if deduplication
   forgets everything, there is no infinite run from any set of live jobs.
   */
  lemma NoInfiniteRun(l: Limits, run: nat -> seq<Job>)
    ensures exists n: nat :: !Next(l, run(n), run(n + 1))
  {
    if Run(l, run) {
      var start := BoundOf(run(0));
      var bound := if start < l.maxDepth + 2 then l.maxDepth + 2 else start;
      var quiet := LevelsFallQuiet(l, run, bound);
      RunDepths(l, run, bound, quiet);
      assert StepAt(l, run, quiet) && QuietAt(l, run, bound, quiet);
      var i: nat :| WorksOn(l, run(quiet), run(quiet + 1), i);
      DepthAt(run(quiet), bound, i);
      assert false;
    } else {
      var n: nat :| !StepAt(l, run, n);
    }
  }
}
