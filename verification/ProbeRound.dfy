/**
 One health-probe round (internal/poolhealth/manager.go, probeTargets): a feeder
 hands jobs to at most 48 workers over an unbuffered channel, the workers hand
 outcomes to a collector, and the round may be cancelled at any moment. Steps of
 the goroutines interleave in any order. Nothing keeps a caller from listing a
 URL twice, so the jobs are counted with their multiplicity.
 */
module ProbeRound {
  import opened Common

  const MAX_CONCURRENT := 48

  datatype Job = Job(tag: string, url: string)

  /** What a worker sends: a failed probe, or a delay (client.delay rejects delays that are not positive). */
  datatype Outcome = Outcome(job: Job, ok: bool, delay: int)

  datatype Worker =
    | Idle
    | Probing(job: Job)
    | Sending(outcome: Outcome)
    | Done

  datatype State = State(
    next: nat,
    jobsClosed: bool,
    workers: seq<Worker>,
    outcomesClosed: bool,
    cancelled: bool,
    collected: seq<Outcome>,
    dropped: multiset<Job>)

  // ----- the jobs

  function PairsOf(tag: string, urls: seq<string>): seq<Job>
    decreases |urls|
  {
    if urls == [] then [] else PairsOf(tag, urls[..|urls| - 1]) + [Job(tag, urls[|urls| - 1])]
  }

  /** The order in which the feeder offers the jobs. */
  function AllPairs(tags: seq<string>, urls: seq<string>): seq<Job>
    decreases |tags|
  {
    if tags == [] then [] else AllPairs(tags[..|tags| - 1], urls) + PairsOf(tags[|tags| - 1], urls)
  }

  lemma {:induction false} PairsOfAre(tag: string, urls: seq<string>, j: Job)
    ensures j in PairsOf(tag, urls) <==> j.tag == tag && j.url in urls
    decreases |urls|
  {
    if urls != [] {
      var rest, last := urls[..|urls| - 1], urls[|urls| - 1];
      PairsOfAre(tag, rest, j);
      SplitLast(urls);
    }
  }

  lemma {:induction false} AllPairsAre(tags: seq<string>, urls: seq<string>, j: Job)
    ensures j in AllPairs(tags, urls) <==> j.tag in tags && j.url in urls
    decreases |tags|
  {
    if tags != [] {
      var rest, last := tags[..|tags| - 1], tags[|tags| - 1];
      AllPairsAre(rest, urls, j);
      PairsOfAre(last, urls, j);
      SplitLast(tags);
    }
  }

  /** The URLs that are listed for a tag, in their order. */
  function UrlsOf(jobs: seq<Job>, tag: string): seq<string>
    decreases |jobs|
  {
    if jobs == [] then []
    else
      var before, last := UrlsOf(jobs[..|jobs| - 1], tag), jobs[|jobs| - 1];
      if last.tag == tag then before + [last.url] else before
  }

  lemma {:induction false} UrlsOfConcat(a: seq<Job>, b: seq<Job>, tag: string)
    ensures UrlsOf(a + b, tag) == UrlsOf(a, tag) + UrlsOf(b, tag)
    decreases |b|
  {
    if b == [] {
      assert a + b == a;
    } else {
      UrlsOfConcat(a, b[..|b| - 1], tag);
      assert (a + b)[..|a + b| - 1] == a + b[..|b| - 1];
    }
  }

  lemma {:induction false} UrlsOfPairs(t: string, urls: seq<string>, tag: string)
    ensures UrlsOf(PairsOf(t, urls), tag) == if t == tag then urls else []
    decreases |urls|
  {
    if urls != [] {
      var rest, last := urls[..|urls| - 1], urls[|urls| - 1];
      UrlsOfPairs(t, rest, tag);
      DropLast(PairsOf(t, rest), Job(t, last));
      SplitLast(urls);
    }
  }

  /** A target whose tag is its own is offered every URL as often as it is listed. */
  lemma {:induction false} UrlsOfAllPairs(tags: seq<string>, urls: seq<string>, tag: string)
    requires Distinct(tags)
    ensures UrlsOf(AllPairs(tags, urls), tag) == if tag in tags then urls else []
    decreases |tags|
  {
    if tags != [] {
      var rest, last := tags[..|tags| - 1], tags[|tags| - 1];
      SplitLast(tags);
      DistinctMore(rest, last);
      UrlsOfAllPairs(rest, urls, tag);
      UrlsOfPairs(last, urls, tag);
      UrlsOfConcat(AllPairs(rest, urls), PairsOf(last, urls), tag);
    }
  }

  lemma {:induction false} UrlsOfCounts(jobs: seq<Job>, tag: string, url: string)
    ensures multiset(UrlsOf(jobs, tag))[url] == multiset(jobs)[Job(tag, url)]
    decreases |jobs|
  {
    if jobs != [] {
      UrlsOfCounts(jobs[..|jobs| - 1], tag, url);
      SplitLast(jobs);
    }
  }

  // ----- the steps

  function Initial(jobs: seq<Job>): State {
    State(0, false, seq(Min(MAX_CONCURRENT, |jobs|), _ => Idle), false, false, [], multiset{})
  }

  datatype Event =
    | Feed(w: nat)            // the feeder hands the next job to an idle worker
    | FeederEnds              // all jobs fed, or the feeder saw the cancellation
    | ProbeReturns(w: nat, ok: bool, delay: int)
    | Deliver(w: nat)         // a worker hands its outcome to the collector
    | GiveUp(w: nat)          // a worker saw the cancellation instead
    | WorkerEnds(w: nat)      // the jobs channel is closed
    | CloseOutcomes           // all workers have ended
    | Cancel

  predicate Enabled(jobs: seq<Job>, s: State, e: Event) {
    match e
    case Feed(w) => !s.jobsClosed && s.next < |jobs| && w < |s.workers| && s.workers[w].Idle?
    case FeederEnds => !s.jobsClosed && (s.next >= |jobs| || s.cancelled)
    case ProbeReturns(w, ok, delay) => w < |s.workers| && s.workers[w].Probing? && (ok ==> delay > 0)
    case Deliver(w) => !s.outcomesClosed && w < |s.workers| && s.workers[w].Sending?
    case GiveUp(w) => s.cancelled && w < |s.workers| && s.workers[w].Sending?
    case WorkerEnds(w) => s.jobsClosed && w < |s.workers| && s.workers[w].Idle?
    case CloseOutcomes => !s.outcomesClosed && forall w :: 0 <= w < |s.workers| ==> s.workers[w].Done?
    case Cancel => !s.cancelled
  }

  function Step(jobs: seq<Job>, s: State, e: Event): State {
    if !Enabled(jobs, s, e) then s
    else
      match e
      case Feed(w) => s.(next := s.next + 1, workers := s.workers[w := Probing(jobs[s.next])])
      case FeederEnds => s.(jobsClosed := true)
      case ProbeReturns(w, ok, delay) => s.(workers := s.workers[w := Sending(Outcome(s.workers[w].job, ok, delay))])
      case Deliver(w) => s.(workers := s.workers[w := Idle], collected := s.collected + [s.workers[w].outcome])
      case GiveUp(w) => s.(workers := s.workers[w := Done], dropped := s.dropped + multiset{s.workers[w].outcome.job})
      case WorkerEnds(w) => s.(workers := s.workers[w := Done])
      case CloseOutcomes => s.(outcomesClosed := true)
      case Cancel => s.(cancelled := true)
  }

  function Run(jobs: seq<Job>, events: seq<Event>): State
    decreases |events|
  {
    if events == [] then Initial(jobs) else Step(jobs, Run(jobs, events[..|events| - 1]), events[|events| - 1])
  }

  // ----- the invariant: each job fed is in exactly one place

  function Has(w: Worker, j: Job): nat {
    if (w.Probing? && w.job == j) || (w.Sending? && w.outcome.job == j) then 1 else 0
  }

  /** How many workers hold this job. */
  function Held(workers: seq<Worker>, j: Job): nat
    decreases |workers|
  {
    if workers == [] then 0 else Held(workers[..|workers| - 1], j) + Has(workers[|workers| - 1], j)
  }

  lemma {:induction false} HeldOfUpdate(workers: seq<Worker>, w: nat, x: Worker, j: Job)
    requires w < |workers|
    ensures Held(workers[w := x], j) == Held(workers, j) - Has(workers[w], j) + Has(x, j)
    decreases |workers|
  {
    var last := |workers| - 1;
    if w == last {
      assert workers[w := x][..last] == workers[..last];
    } else {
      assert workers[w := x][..last] == workers[..last][w := x];
      HeldOfUpdate(workers[..last], w, x, j);
    }
  }

  lemma {:induction false} NoneHeld(workers: seq<Worker>, j: Job)
    requires forall w :: 0 <= w < |workers| ==> workers[w].Idle? || workers[w].Done?
    ensures Held(workers, j) == 0
    decreases |workers|
  {
    if workers != [] {
      NoneHeld(workers[..|workers| - 1], j);
    }
  }

  function JobsIn(collected: seq<Outcome>): seq<Job> {
    seq(|collected|, k requires 0 <= k < |collected| => collected[k].job)
  }

  predicate ConservedFor(jobs: seq<Job>, s: State, j: Job)
    requires s.next <= |jobs|
  {
    multiset(jobs[..s.next])[j] == Held(s.workers, j) + multiset(JobsIn(s.collected))[j] + s.dropped[j]
  }

  /** Every job fed is held by a worker, collected or dropped, as often as it was fed. */
  ghost predicate Conserved(jobs: seq<Job>, s: State) {
    s.next <= |jobs| && forall j :: ConservedFor(jobs, s, j)
  }

  ghost predicate ControlOk(jobs: seq<Job>, s: State) {
    && |s.workers| == Min(MAX_CONCURRENT, |jobs|)
    && (!s.cancelled ==> s.dropped == multiset{})
    && (s.jobsClosed ==> s.cancelled || s.next == |jobs|)
    && (forall w :: 0 <= w < |s.workers| && s.workers[w].Done? ==> s.jobsClosed || s.cancelled)
    && (s.outcomesClosed ==> forall w :: 0 <= w < |s.workers| ==> s.workers[w].Done?)
    && (forall k :: 0 <= k < |s.collected| && s.collected[k].ok ==> s.collected[k].delay > 0)
    && (forall w :: 0 <= w < |s.workers| && s.workers[w].Sending? && s.workers[w].outcome.ok ==>
          s.workers[w].outcome.delay > 0)
  }

  ghost predicate Inv(jobs: seq<Job>, s: State) {
    Conserved(jobs, s) && ControlOk(jobs, s)
  }

  lemma FeedConserves(jobs: seq<Job>, s: State, w: nat, j: Job)
    requires Enabled(jobs, s, Feed(w)) && ConservedFor(jobs, s, j)
    ensures ConservedFor(jobs, Step(jobs, s, Feed(w)), j)
  {
    HeldOfUpdate(s.workers, w, Probing(jobs[s.next]), j);
    TakeOneMore(jobs, s.next);
  }

  lemma DeliverConserves(jobs: seq<Job>, s: State, w: nat, j: Job)
    requires s.next <= |jobs| && Enabled(jobs, s, Deliver(w)) && ConservedFor(jobs, s, j)
    ensures ConservedFor(jobs, Step(jobs, s, Deliver(w)), j)
  {
    var o := s.workers[w].outcome;
    HeldOfUpdate(s.workers, w, Idle, j);
    assert JobsIn(s.collected + [o]) == JobsIn(s.collected) + [o.job];
  }

  lemma OtherConserves(jobs: seq<Job>, s: State, e: Event, j: Job)
    requires s.next <= |jobs| && Enabled(jobs, s, e) && ConservedFor(jobs, s, j) && !e.Feed? && !e.Deliver?
    ensures ConservedFor(jobs, Step(jobs, s, e), j)
  {
    match e
    case ProbeReturns(w, ok, delay) => HeldOfUpdate(s.workers, w, Sending(Outcome(s.workers[w].job, ok, delay)), j);
    case GiveUp(w) => HeldOfUpdate(s.workers, w, Done, j);
    case WorkerEnds(w) => HeldOfUpdate(s.workers, w, Done, j);
    case _ =>
  }

  lemma StepConserves(jobs: seq<Job>, s: State, e: Event)
    requires Conserved(jobs, s) && Enabled(jobs, s, e)
    ensures Conserved(jobs, Step(jobs, s, e))
  {
    forall j ensures ConservedFor(jobs, Step(jobs, s, e), j) {
      assert ConservedFor(jobs, s, j);
      match e
      case Feed(w) => FeedConserves(jobs, s, w, j);
      case Deliver(w) => DeliverConserves(jobs, s, w, j);
      case _ => OtherConserves(jobs, s, e, j);
    }
  }

  lemma StepKeepsControl(jobs: seq<Job>, s: State, e: Event)
    requires s.next <= |jobs| && ControlOk(jobs, s) && Enabled(jobs, s, e)
    ensures ControlOk(jobs, Step(jobs, s, e))
  {
  }

  lemma InitialInv(jobs: seq<Job>)
    ensures Inv(jobs, Initial(jobs))
  {
    forall j ensures ConservedFor(jobs, Initial(jobs), j) {
      NoneHeld(Initial(jobs).workers, j);
      assert jobs[..0] == [] && JobsIn([]) == [];
    }
  }

  lemma {:induction false} RunKeepsInv(jobs: seq<Job>, events: seq<Event>)
    ensures Inv(jobs, Run(jobs, events))
    decreases |events|
  {
    if events == [] {
      InitialInv(jobs);
    } else {
      var s, e := Run(jobs, events[..|events| - 1]), events[|events| - 1];
      RunKeepsInv(jobs, events[..|events| - 1]);
      if Enabled(jobs, s, e) {
        StepConserves(jobs, s, e);
        StepKeepsControl(jobs, s, e);
      }
    }
  }

  /**
   When the outcomes channel is closed and the context was not cancelled, so
   that the round returns no error, it has collected exactly one outcome for
   each entry of the list of jobs, also if entries repeat.
   */
  lemma FinishedRoundCountedEveryJob(jobs: seq<Job>, events: seq<Event>)
    ensures
      var s := Run(jobs, events);
      s.outcomesClosed && !s.cancelled ==> multiset(JobsIn(s.collected)) == multiset(jobs)
  {
    RunKeepsInv(jobs, events);
    var s := Run(jobs, events);
    if s.outcomesClosed && !s.cancelled {
      assert |jobs| > 0 ==> s.workers[0].Done?;
      TakeAll(jobs);
      forall j ensures multiset(JobsIn(s.collected))[j] == multiset(jobs)[j] {
        NoneHeld(s.workers, j);
        assert ConservedFor(jobs, s, j);
      }
    }
  }

  /** What the probes returned, each for the job that its worker had. */
  ghost function Returned(jobs: seq<Job>, events: seq<Event>): multiset<Outcome>
    decreases |events|
  {
    if events == [] then multiset{}
    else
      var rest, e := events[..|events| - 1], events[|events| - 1];
      if e.ProbeReturns? && Enabled(jobs, Run(jobs, rest), e) then
        Returned(jobs, rest) + multiset{Outcome(Run(jobs, rest).workers[e.w].job, e.ok, e.delay)}
      else Returned(jobs, rest)
  }

  function InHand(w: Worker): multiset<Outcome> {
    if w.Sending? then multiset{w.outcome} else multiset{}
  }

  /** The outcomes that the workers have still to hand on. */
  function AllInHand(workers: seq<Worker>): multiset<Outcome>
    decreases |workers|
  {
    if workers == [] then multiset{} else AllInHand(workers[..|workers| - 1]) + InHand(workers[|workers| - 1])
  }

  lemma {:induction false} InHandOfUpdate(workers: seq<Worker>, w: nat, x: Worker)
    requires w < |workers|
    ensures AllInHand(workers[w := x]) + InHand(workers[w]) == AllInHand(workers) + InHand(x)
    decreases |workers|
  {
    var last := |workers| - 1;
    if w == last {
      assert workers[w := x][..last] == workers[..last];
    } else {
      var rest := workers[..last];
      assert workers[w := x][..last] == rest[w := x] && workers[w := x][last] == workers[last];
      InHandOfUpdate(rest, w, x);
      MoreInHand(AllInHand(rest), AllInHand(rest[w := x]), InHand(workers[w]), InHand(x), InHand(workers[last]));
    }
  }

  lemma MoreInHand(before: multiset<Outcome>, after: multiset<Outcome>, was: multiset<Outcome>,
      now: multiset<Outcome>, last: multiset<Outcome>)
    requires after + was == before + now
    ensures (after + last) + was == (before + last) + now
  {
    assert (after + last) + was == (after + was) + last;
    assert (before + last) + now == (before + now) + last;
  }

  lemma {:induction false} NothingInHand(workers: seq<Worker>)
    requires forall w :: 0 <= w < |workers| ==> !workers[w].Sending?
    ensures AllInHand(workers) == multiset{}
    decreases |workers|
  {
    if workers != [] {
      NothingInHand(workers[..|workers| - 1]);
    }
  }

  /** The outcomes of a state: those collected, and those that workers hold. */
  function OutcomesIn(s: State): multiset<Outcome> {
    multiset(s.collected) + AllInHand(s.workers)
  }

  lemma ProbeAddsOutcome(jobs: seq<Job>, s: State, e: Event)
    requires Enabled(jobs, s, e) && e.ProbeReturns?
    ensures OutcomesIn(Step(jobs, s, e)) == OutcomesIn(s) + multiset{Outcome(s.workers[e.w].job, e.ok, e.delay)}
  {
    var v := Step(jobs, s, e);
    InHandOfUpdate(s.workers, e.w, v.workers[e.w]);
    assert AllInHand(v.workers) + multiset{} == AllInHand(v.workers);
    Regroup(multiset(s.collected), AllInHand(s.workers), v.workers[e.w].outcome);
  }

  lemma Regroup(collected: multiset<Outcome>, held: multiset<Outcome>, o: Outcome)
    ensures collected + (held + multiset{o}) == (collected + held) + multiset{o}
    ensures (collected + multiset{o}) + held == collected + (held + multiset{o})
  {
  }

  lemma DeliverKeepsOutcomes(jobs: seq<Job>, s: State, e: Event)
    requires Enabled(jobs, s, e) && e.Deliver?
    ensures OutcomesIn(Step(jobs, s, e)) == OutcomesIn(s)
  {
    var v, o := Step(jobs, s, e), s.workers[e.w].outcome;
    InHandOfUpdate(s.workers, e.w, Idle);
    assert AllInHand(s.workers) + multiset{} == AllInHand(s.workers);
    assert AllInHand(v.workers) + multiset{o} == AllInHand(s.workers);
    Regroup(multiset(s.collected), AllInHand(v.workers), o);
    assert multiset(v.collected) == multiset(s.collected) + multiset{o};
  }

  lemma SameInHand(workers: seq<Worker>, w: nat, x: Worker)
    requires w < |workers| && !workers[w].Sending? && !x.Sending?
    ensures AllInHand(workers[w := x]) == AllInHand(workers)
  {
    InHandOfUpdate(workers, w, x);
    assert AllInHand(workers[w := x]) + multiset{} == AllInHand(workers[w := x]);
    assert AllInHand(workers) + multiset{} == AllInHand(workers);
  }

  lemma OtherStepKeepsOutcomes(jobs: seq<Job>, s: State, e: Event)
    requires Enabled(jobs, s, e) ==> !e.ProbeReturns? && !e.Deliver? && !e.GiveUp?
    ensures OutcomesIn(Step(jobs, s, e)) == OutcomesIn(s)
  {
    if Enabled(jobs, s, e) && e.Feed? {
      SameInHand(s.workers, e.w, Probing(jobs[s.next]));
    } else if Enabled(jobs, s, e) && e.WorkerEnds? {
      SameInHand(s.workers, e.w, Done);
    }
  }

  /** Until the round is cancelled each outcome is collected or in the hand of a worker. */
  lemma {:induction false} OutcomesAreReturned(jobs: seq<Job>, events: seq<Event>)
    ensures !Run(jobs, events).cancelled ==> OutcomesIn(Run(jobs, events)) == Returned(jobs, events)
    decreases |events|
  {
    if events == [] {
      NothingInHand(Initial(jobs).workers);
    } else if !Run(jobs, events).cancelled {
      var rest, e := events[..|events| - 1], events[|events| - 1];
      var s := Run(jobs, rest);
      OutcomesAreReturned(jobs, rest);
      if Enabled(jobs, s, e) && e.ProbeReturns? {
        ProbeAddsOutcome(jobs, s, e);
      } else if Enabled(jobs, s, e) && e.Deliver? {
        DeliverKeepsOutcomes(jobs, s, e);
      } else {
        OtherStepKeepsOutcomes(jobs, s, e);
      }
    }
  }

  /** A round that returns no error has collected exactly what its probes returned, each outcome once. */
  lemma FinishedRoundCollectedEveryOutcome(jobs: seq<Job>, events: seq<Event>)
    ensures
      var s := Run(jobs, events);
      s.outcomesClosed && !s.cancelled ==> multiset(s.collected) == Returned(jobs, events)
  {
    RunKeepsInv(jobs, events);
    OutcomesAreReturned(jobs, events);
    var s := Run(jobs, events);
    if s.outcomesClosed && !s.cancelled {
      NothingInHand(s.workers);
    }
  }

  /** Whatever the collector receives, also in a round that is cancelled, is for a target and a URL it was given. */
  lemma CollectedTagsAreKnown(tags: seq<string>, urls: seq<string>, events: seq<Event>, k: nat)
    requires k < |Run(AllPairs(tags, urls), events).collected|
    ensures
      var o := Run(AllPairs(tags, urls), events).collected[k];
      o.job.tag in tags && o.job.url in urls
  {
    var jobs := AllPairs(tags, urls);
    var s := Run(jobs, events);
    RunKeepsInv(jobs, events);
    assert JobsIn(s.collected)[k] in multiset(JobsIn(s.collected));
    assert ConservedFor(jobs, s, s.collected[k].job);
    assert s.collected[k].job in multiset(jobs[..s.next]);
    AllPairsAre(tags, urls, s.collected[k].job);
  }

  // ----- progress

  function Weight(w: Worker): nat {
    match w
    case Idle => 1
    case Probing(_) => 3
    case Sending(_) => 2
    case Done => 0
  }

  function TotalWeight(workers: seq<Worker>): nat
    decreases |workers|
  {
    if workers == [] then 0 else TotalWeight(workers[..|workers| - 1]) + Weight(workers[|workers| - 1])
  }

  lemma {:induction false} WeightOfUpdate(workers: seq<Worker>, w: nat, x: Worker)
    requires w < |workers|
    ensures TotalWeight(workers[w := x]) == TotalWeight(workers) - Weight(workers[w]) + Weight(x)
    decreases |workers|
  {
    var last := |workers| - 1;
    if w == last {
      assert workers[w := x][..last] == workers[..last];
    } else {
      assert workers[w := x][..last] == workers[..last][w := x];
      WeightOfUpdate(workers[..last], w, x);
    }
  }

  function Unit(b: bool): nat { if b then 0 else 1 }

  /** An upper bound on the number of steps still to come. */
  function Remaining(jobs: seq<Job>, s: State): int {
    4 * (|jobs| - s.next) + TotalWeight(s.workers) + Unit(s.jobsClosed) + Unit(s.outcomesClosed) + Unit(s.cancelled)
  }

  /** Every step uses up some of a bounded amount, so no round runs forever. */
  lemma StepsAreBounded(jobs: seq<Job>, s: State, e: Event)
    requires s.next <= |jobs| && Enabled(jobs, s, e)
    ensures 0 <= Remaining(jobs, Step(jobs, s, e)) < Remaining(jobs, s)
  {
    match e
    case Feed(w) => WeightOfUpdate(s.workers, w, Probing(jobs[s.next]));
    case ProbeReturns(w, ok, delay) => WeightOfUpdate(s.workers, w, Sending(Outcome(s.workers[w].job, ok, delay)));
    case Deliver(w) => WeightOfUpdate(s.workers, w, Idle);
    case GiveUp(w) => WeightOfUpdate(s.workers, w, Done);
    case WorkerEnds(w) => WeightOfUpdate(s.workers, w, Done);
    case _ =>
  }

  lemma {:induction false} IdleWeigh(workers: seq<Worker>)
    requires forall w :: 0 <= w < |workers| ==> workers[w].Idle?
    ensures TotalWeight(workers) == |workers|
    decreases |workers|
  {
    if workers != [] {
      IdleWeigh(workers[..|workers| - 1]);
    }
  }

  ghost predicate AllEnabled(jobs: seq<Job>, events: seq<Event>) {
    forall k :: 0 <= k < |events| ==> Enabled(jobs, Run(jobs, events[..k]), events[k])
  }

  /** A round makes at most four steps a job, one a worker and three more. */
  lemma {:induction false} RoundsAreShort(jobs: seq<Job>, events: seq<Event>)
    requires AllEnabled(jobs, events)
    ensures
      |events| + Remaining(jobs, Run(jobs, events)) <= 4 * |jobs| + Min(MAX_CONCURRENT, |jobs|) + 3
      && Remaining(jobs, Run(jobs, events)) >= 0
    decreases |events|
  {
    if events == [] {
      IdleWeigh(Initial(jobs).workers);
    } else {
      var rest, e := events[..|events| - 1], events[|events| - 1];
      forall k | 0 <= k < |rest| ensures Enabled(jobs, Run(jobs, rest[..k]), rest[k]) {
        assert rest[..k] == events[..k] && rest[k] == events[k];
      }
      RoundsAreShort(jobs, rest);
      RunKeepsInv(jobs, rest);
      assert Enabled(jobs, Run(jobs, rest), e);
      StepsAreBounded(jobs, Run(jobs, rest), e);
    }
  }

  /** Until the outcomes channel is closed some goroutine can move, without waiting for a cancellation. */
  lemma RoundIsNeverStuck(jobs: seq<Job>, events: seq<Event>)
    ensures
      var s := Run(jobs, events);
      !s.outcomesClosed ==> exists e: Event :: !e.Cancel? && Enabled(jobs, s, e)
  {
    RunKeepsInv(jobs, events);
    SomebodyCanMove(jobs, Run(jobs, events));
  }

  lemma SomebodyCanMove(jobs: seq<Job>, s: State)
    requires s.next <= |jobs| && ControlOk(jobs, s)
    ensures !s.outcomesClosed ==> exists e: Event :: !e.Cancel? && Enabled(jobs, s, e)
  {
    if !s.outcomesClosed {
      if w :| 0 <= w < |s.workers| && s.workers[w].Probing? {
        assert Enabled(jobs, s, ProbeReturns(w, false, 0));
      } else if w :| 0 <= w < |s.workers| && s.workers[w].Sending? {
        assert Enabled(jobs, s, Deliver(w));
      } else if w :| 0 <= w < |s.workers| && s.workers[w].Idle? {
        assert Enabled(jobs, s, Feed(w)) || Enabled(jobs, s, FeederEnds) || Enabled(jobs, s, WorkerEnds(w));
      } else {
        assert Enabled(jobs, s, CloseOutcomes);
      }
    }
  }

  // ----- the collector

  datatype Result = Result(tag: string, successes: nat, total: nat, latencyMS: int)

  /** The delays counted for a tag, in the order of collection. */
  function DelaysOf(collected: seq<Outcome>, tag: string): seq<int>
    decreases |collected|
  {
    if collected == [] then []
    else
      var before := DelaysOf(collected[..|collected| - 1], tag);
      var last := collected[|collected| - 1];
      if last.ok && last.job.tag == tag then before + [last.delay] else before
  }

  function Sum(s: seq<int>): int
    decreases |s|
  {
    if s == [] then 0 else Sum(s[..|s| - 1]) + s[|s| - 1]
  }

  lemma SumOfAppend(s: seq<int>, x: int)
    ensures Sum(s + [x]) == Sum(s) + x
  {
    assert (s + [x])[..|s|] == s;
  }

  function ResultFor(collected: seq<Outcome>, tag: string, total: nat): Result {
    var delays := DelaysOf(collected, tag);
    Result(tag, |delays|, total, if delays == [] then 0 else Sum(delays) / |delays|)
  }

  ghost predicate Counted(
    tags: seq<string>, collected: seq<Outcome>, successes: map<string, nat>, delayTotals: map<string, int>)
  {
    forall t :: t in tags ==>
      && t in successes && successes[t] == |DelaysOf(collected, t)|
      && t in delayTotals && delayTotals[t] == Sum(DelaysOf(collected, t))
  }

  lemma CountedOneMore(
    tags: seq<string>, collected: seq<Outcome>, item: Outcome, successes: map<string, nat>,
        delayTotals: map<string, int>)
    requires Counted(tags, collected, successes, delayTotals) && item.job.tag in tags
    ensures
      var tag := item.job.tag;
      if item.ok then
        Counted(tags, collected + [item],
                successes[tag := successes[tag] + 1], delayTotals[tag := delayTotals[tag] + item.delay])
      else
        Counted(tags, collected + [item], successes, delayTotals)
  {
    assert (collected + [item])[..|collected|] == collected;
    SumOfAppend(DelaysOf(collected, item.job.tag), item.delay);
  }

  /** The collector's loop over the outcomes and the building of the results. */
  method Collect(tags: seq<string>, urls: seq<string>, outcomes: seq<Outcome>) returns (results: seq<Result>)
    requires forall k :: 0 <= k < |outcomes| ==> outcomes[k].job.tag in tags
    ensures |results| == |tags|
    ensures forall i :: 0 <= i < |tags| ==> results[i] == ResultFor(outcomes, tags[i], |urls|)
  {
    var successes: map<string, nat> := map t | t in tags :: 0;
    var delayTotals: map<string, int> := map t | t in tags :: 0;
    for i := 0 to |outcomes|
      invariant Counted(tags, outcomes[..i], successes, delayTotals)
    {
      var item := outcomes[i];
      CountedOneMore(tags, outcomes[..i], item, successes, delayTotals);
      TakeOneMore(outcomes, i);
      if item.ok {
        var tag := item.job.tag;
        successes := successes[tag := successes[tag] + 1];
        delayTotals := delayTotals[tag := delayTotals[tag] + item.delay];
      }
    }
    TakeAll(outcomes);
    results := Report(tags, |urls|, outcomes, successes, delayTotals);
  }

  method Report(
    tags: seq<string>, total: nat, ghost collected: seq<Outcome>, successes: map<string, nat>,
        delayTotals: map<string, int>)
    returns (results: seq<Result>)
    requires Counted(tags, collected, successes, delayTotals)
    ensures |results| == |tags|
    ensures forall i :: 0 <= i < |tags| ==> results[i] == ResultFor(collected, tags[i], total)
  {
    results := [];
    for i := 0 to |tags|
      invariant |results| == i
      invariant forall k :: 0 <= k < i ==> results[k] == ResultFor(collected, tags[k], total)
    {
      var tag := tags[i];
      assert tag in tags;
      var count := successes[tag];
      var latency := if count > 0 then delayTotals[tag] / count else 0;
      results := results + [Result(tag, count, total, latency)];
    }
  }

  // ----- what the results mean

  /** The URLs of the outcomes for a tag that passed, or that failed, in the order of collection. */
  function UrlsWith(collected: seq<Outcome>, tag: string, ok: bool): seq<string>
    decreases |collected|
  {
    if collected == [] then []
    else
      var before, last := UrlsWith(collected[..|collected| - 1], tag, ok), collected[|collected| - 1];
      if last.ok == ok && last.job.tag == tag then before + [last.job.url] else before
  }

  lemma {:induction false} EachUrlPassedOrFailed(collected: seq<Outcome>, tag: string)
    ensures
      multiset(UrlsWith(collected, tag, true)) + multiset(UrlsWith(collected, tag, false)) ==
        multiset(UrlsOf(JobsIn(collected), tag))
    ensures |DelaysOf(collected, tag)| == |UrlsWith(collected, tag, true)|
    decreases |collected|
  {
    if collected != [] {
      var rest, last := collected[..|collected| - 1], collected[|collected| - 1];
      EachUrlPassedOrFailed(rest, tag);
      assert JobsIn(collected)[..|collected| - 1] == JobsIn(rest);
    }
  }

  /** The URLs tried for a target of a finished round are those that were listed. */
  lemma TriedUrls(tags: seq<string>, urls: seq<string>, collected: seq<Outcome>, tag: string)
    requires Distinct(tags) && tag in tags
    requires multiset(JobsIn(collected)) == multiset(AllPairs(tags, urls))
    ensures multiset(UrlsOf(JobsIn(collected), tag)) == multiset(urls)
  {
    UrlsOfAllPairs(tags, urls, tag);
    forall u ensures multiset(UrlsOf(JobsIn(collected), tag))[u] == multiset(urls)[u] {
      UrlsOfCounts(JobsIn(collected), tag, u);
      UrlsOfCounts(AllPairs(tags, urls), tag, u);
    }
  }

  lemma OneMoreTime(a: int, n: nat)
    ensures a * (n + 1) == a * n + a
  {
  }

  lemma {:induction false} SumBetween(s: seq<int>, low: int, high: int)
    requires forall x :: x in s ==> low <= x <= high
    ensures low * |s| <= Sum(s) <= high * |s|
    decreases |s|
  {
    if s != [] {
      var rest, last := s[..|s| - 1], s[|s| - 1];
      SplitLast(s);
      forall x | x in rest ensures low <= x <= high {
        assert x in rest + [last];
      }
      SumBetween(rest, low, high);
      OneMoreTime(low, |rest|);
      OneMoreTime(high, |rest|);
      assert last in s;
    }
  }

  lemma AverageBetween(total: int, count: int, low: int, high: int)
    requires count > 0 && low * count <= total <= high * count
    ensures low <= total / count <= high
  {
    var q := total / count;
    assert q * count <= total < q * count + count == (q + 1) * count;
    assert (high + 1) * count == high * count + count;
    Cancel(low, q + 1, count);
    Cancel(q, high + 1, count);
  }

  lemma Cancel(a: int, b: int, c: int)
    requires c > 0 && a * c < b * c
    ensures a < b
  {
    assert (b - a) * c > 0;
  }

  lemma {:induction false} ExtremesExist(s: seq<int>) returns (low: int, high: int)
    requires s != []
    ensures low in s && high in s && forall x :: x in s ==> low <= x <= high
    decreases |s|
  {
    var rest, last := s[..|s| - 1], s[|s| - 1];
    SplitLast(s);
    low, high := last, last;
    if rest != [] {
      var l, h := ExtremesExist(rest);
      low, high := Min(l, last), Max(h, last);
    }
  }

  lemma {:induction false} DelaysAreCollected(collected: seq<Outcome>, tag: string)
    ensures forall d :: d in DelaysOf(collected, tag) <==>
              exists k :: 0 <= k < |collected| && collected[k].ok && collected[k].job.tag == tag
                  && collected[k].delay == d
    decreases |collected|
  {
    if collected != [] {
      var rest, last := collected[..|collected| - 1], collected[|collected| - 1];
      DelaysAreCollected(rest, tag);
      SplitLast(collected);
      forall d | d in DelaysOf(collected, tag)
        ensures
          exists k ::
            0 <= k < |collected| && collected[k].ok && collected[k].job.tag == tag && collected[k].delay == d
      {
        if d in DelaysOf(rest, tag) {
          var k :| 0 <= k < |rest| && rest[k].ok && rest[k].job.tag == tag && rest[k].delay == d;
          assert collected[k] == rest[k];
        } else {
          assert collected[|collected| - 1].delay == d;
        }
      }
      forall k | 0 <= k < |collected| && collected[k].ok && collected[k].job.tag == tag
        ensures collected[k].delay in DelaysOf(collected, tag)
      {
        if k < |rest| { assert rest[k] == collected[k]; }
      }
    }
  }

  ghost predicate PassedWith(collected: seq<Outcome>, tag: string, delay: int) {
    exists k :: 0 <= k < |collected| && collected[k].ok && collected[k].job.tag == tag && collected[k].delay == delay
  }

  /**
   Under every interleaving, a round that returns no error tried for each target
   every listed URL as often as it is listed, reports how many of these passed,
   and an average between its smallest and its largest delay.
   */
  lemma RoundReportsWhatPassed(tags: seq<string>, urls: seq<string>, events: seq<Event>, tag: string)
    requires Distinct(tags) && tag in tags
    requires var s := Run(AllPairs(tags, urls), events); s.outcomesClosed && !s.cancelled
    ensures
      var collected := Run(AllPairs(tags, urls), events).collected;
      var passed, failed := UrlsWith(collected, tag, true), UrlsWith(collected, tag, false);
      var r := ResultFor(collected, tag, |urls|);
      && multiset(passed) + multiset(failed) == multiset(urls)
      && r.successes == |passed| <= r.total == |urls|
      && (r.successes > 0 ==>
            exists low, high ::
              && PassedWith(collected, tag, low) && PassedWith(collected, tag, high)
              && 0 < low <= r.latencyMS <= high
              && forall d :: PassedWith(collected, tag, d) ==> low <= d <= high)
  {
    var jobs := AllPairs(tags, urls);
    RunKeepsInv(jobs, events);
    FinishedRoundCountedEveryJob(jobs, events);
    var collected := Run(jobs, events).collected;
    TriedUrls(tags, urls, collected, tag);
    EachUrlPassedOrFailed(collected, tag);
    assert |multiset(UrlsWith(collected, tag, true))| <= |multiset(urls)|;
    AverageIsBetweenDelays(collected, tag, |urls|);
  }

  lemma {:induction false} CountedWhenDistinct<T>(s: seq<T>, x: T)
    requires Distinct(s)
    ensures multiset(s)[x] <= 1
    decreases |s|
  {
    if s != [] {
      var rest, last := s[..|s| - 1], s[|s| - 1];
      SplitLast(s);
      DistinctMore(rest, last);
      CountedWhenDistinct(rest, x);
    }
  }

  lemma {:induction false} DistinctWhenCounted<T>(s: seq<T>)
    requires forall x :: multiset(s)[x] <= 1
    ensures Distinct(s) && |set x | x in s| == |s|
    decreases |s|
  {
    if s != [] {
      var rest, last := s[..|s| - 1], s[|s| - 1];
      SplitLast(s);
      assert forall x :: multiset(rest)[x] <= multiset(s)[x];
      DistinctWhenCounted(rest);
      assert last !in multiset(rest);
      DistinctMore(rest, last);
      assert (set x | x in s) == (set x | x in rest) + {last};
    }
  }

  /** If no URL is listed twice, no (target, URL) pair is counted twice, and successes are distinct URLs. */
  lemma DistinctUrlsCountOnce(tags: seq<string>, urls: seq<string>, events: seq<Event>, tag: string)
    requires Distinct(tags) && Distinct(urls) && tag in tags
    requires var s := Run(AllPairs(tags, urls), events); s.outcomesClosed && !s.cancelled
    ensures
      var collected := Run(AllPairs(tags, urls), events).collected;
      var passed := UrlsWith(collected, tag, true);
      && Distinct(UrlsOf(JobsIn(collected), tag))
      && ResultFor(collected, tag, |urls|).successes == |set u | u in passed|
  {
    var collected := Run(AllPairs(tags, urls), events).collected;
    FinishedRoundCountedEveryJob(AllPairs(tags, urls), events);
    TriedUrls(tags, urls, collected, tag);
    EachUrlPassedOrFailed(collected, tag);
    forall u ensures multiset(urls)[u] <= 1 {
      CountedWhenDistinct(urls, u);
    }
    var tried, passed := UrlsOf(JobsIn(collected), tag), UrlsWith(collected, tag, true);
    assert forall u :: multiset(tried)[u] == multiset(urls)[u] && multiset(passed)[u] <= multiset(urls)[u];
    DistinctWhenCounted(tried);
    DistinctWhenCounted(passed);
  }

  lemma AverageIsBetweenDelays(collected: seq<Outcome>, tag: string, total: nat)
    requires forall k :: 0 <= k < |collected| && collected[k].ok ==> collected[k].delay > 0
    ensures
      var r := ResultFor(collected, tag, total);
      r.successes > 0 ==>
        exists low, high ::
          && PassedWith(collected, tag, low) && PassedWith(collected, tag, high)
          && 0 < low <= r.latencyMS <= high
          && forall d :: PassedWith(collected, tag, d) ==> low <= d <= high
  {
    var delays := DelaysOf(collected, tag);
    if delays != [] {
      DelaysAreCollected(collected, tag);
      var low, high := ExtremesExist(delays);
      SumBetween(delays, low, high);
      AverageBetween(Sum(delays), |delays|, low, high);
      assert PassedWith(collected, tag, low) && PassedWith(collected, tag, high);
      assert forall d :: PassedWith(collected, tag, d) ==> d in delays;
    }
  }

  /** The milliseconds that the passes of a tag took together. */
  ghost function Spent(collected: seq<Outcome>, tag: string): int {
    if collected == [] then 0
    else
      var first := collected[0];
      (if first.ok && first.job.tag == tag then first.delay else 0) + Spent(collected[1..], tag)
  }

  ghost function Passes(collected: seq<Outcome>, tag: string): set<nat> {
    set k | 0 <= k < |collected| && collected[k].ok && collected[k].job.tag == tag
  }

  lemma {:induction false} SpentInParts(a: seq<Outcome>, b: seq<Outcome>, tag: string)
    ensures Spent(a + b, tag) == Spent(a, tag) + Spent(b, tag)
  {
    if a == [] {
      assert a + b == b;
    } else {
      assert (a + b)[1..] == a[1..] + b;
      SpentInParts(a[1..], b, tag);
    }
  }

  lemma {:induction false} DelaysAddUp(collected: seq<Outcome>, tag: string)
    ensures Sum(DelaysOf(collected, tag)) == Spent(collected, tag)
    ensures |DelaysOf(collected, tag)| == |Passes(collected, tag)|
    decreases |collected|
  {
    if collected != [] {
      var n := |collected| - 1;
      var rest, last := collected[..n], collected[n];
      SplitLast(collected);
      DelaysAddUp(rest, tag);
      SpentInParts(rest, [last], tag);
      SumOfAppend(DelaysOf(rest, tag), last.delay);
      if last.ok && last.job.tag == tag {
        assert Passes(collected, tag) == Passes(rest, tag) + {n};
      } else {
        assert Passes(collected, tag) == Passes(rest, tag);
      }
    }
  }

  /** A result counts the passes of its tag; its latency is their average in whole milliseconds, or 0 without any. */
  lemma LatencyIsTheAverage(collected: seq<Outcome>, tag: string, total: nat)
    ensures
      var r := ResultFor(collected, tag, total);
      && r.tag == tag && r.total == total && r.successes == |Passes(collected, tag)|
      && (r.successes == 0 ==> r.latencyMS == 0)
      && (r.successes > 0 ==>
        r.latencyMS * r.successes <= Spent(collected, tag) < (r.latencyMS + 1) * r.successes)
  {
    var delays := DelaysOf(collected, tag);
    DelaysAddUp(collected, tag);
    if delays != [] {
      WholeQuotient(Sum(delays), |delays|);
    }
  }

  lemma WholeQuotient(total: int, count: int)
    requires count > 0
    ensures total / count * count <= total < (total / count + 1) * count
  {
    assert total == total / count * count + total % count;
  }

  /** Two targets under one tag are counted together, so distinct tags are needed for the bound. */
  lemma SharedTagExceedsTotal()
    ensures
      var collected := [Outcome(Job("a", "u"), true, 1), Outcome(Job("a", "u"), true, 1)];
      var r := ResultFor(collected, "a", 1);
      r.successes > r.total && AllPairs(["a", "a"], ["u"]) == [collected[0].job, collected[1].job]
  {
    var collected := [Outcome(Job("a", "u"), true, 1), Outcome(Job("a", "u"), true, 1)];
    assert collected[..1] == [collected[0]] && collected[..1][..0] == [];
    assert DelaysOf(collected[..1], "a") == [1];
    assert PairsOf("a", ["u"]) == [Job("a", "u")];
    assert ["a", "a"][..1] == ["a"] && ["a"][..0] == [];
    assert AllPairs(["a"], ["u"]) == [Job("a", "u")];
  }
}
