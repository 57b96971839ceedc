/**
 The single-in-flight command queue (`camera-state/command_queue.rs`) as a timed state machine. Submitters,
 the bounded channel, the worker and the watchdog take steps in any order; a run is any list of steps.
 */
module CommandQueue {
  import opened Numerics

  datatype Config = Config(watchdog: nat, capacity: nat)

  datatype Outcome = Value(v: int) | Error(reason: string)

  /** A command: how long its future needs (None: it hangs) and what it then resolves to. */
  datatype Work = Work(duration: Option<nat>, outcome: Outcome)

  /** A command in the channel, with when it was enqueued and how many commands were then before it. */
  datatype Entry = Entry(work: Work, enqueuedAt: nat, ahead: nat)

  datatype Running = Running(entry: Entry, startedAt: nat)

  datatype Reply = Resolved(outcome: Outcome) | CommandTimeout(watchdog: nat)

  datatype Answer = Answer(entry: Entry, reply: Reply, at: nat)

  datatype State = State(
    now: nat,
    accepted: nat,
    waiting: seq<Work>,       // submitters parked on a full channel
    channel: seq<Entry>,
    permits: nat,             // the in-flight semaphore
    running: Option<Running>,
    answers: seq<Answer>,     // one per oneshot reply, in sending order
    enqueued: seq<Entry>,     // history: everything that ever entered the channel
    cancelled: seq<Work>)     // history: commands whose submitters gave up before entering

  datatype Step =
    | Submit(work: Work)
    | Enqueue(i: nat)         // a parked submitter gets a channel slot
    | GiveUp(i: nat)          // a parked submitter is dropped
    | Receive
    | Finish
    | WatchdogFires
    | Tick(dt: nat)

  const INIT := State(0, 0, [], [], 1, None, [], [], [])

  function InFlight(s: State): nat {
    if s.running.Some? then 1 else 0
  }

  function Respond(s: State, reply: Reply): State
    requires s.running.Some?
  {
    s.(running := None, permits := s.permits + 1,
       answers := s.answers + [Answer(s.running.value.entry, reply, s.now)])
  }

  /** The future has resolved by the time it is polled now. */
  predicate Ready(r: Running, now: nat) {
    r.entry.work.duration.Some? && r.startedAt + r.entry.work.duration.value <= now
  }

  /** One step, or None when it is not enabled. */
  function Next(cfg: Config, s: State, step: Step): Option<State> {
    match step
    case Submit(work) =>
      Some(s.(accepted := s.accepted + 1, waiting := s.waiting + [work]))
    case Enqueue(i) =>
      if i < |s.waiting| && |s.channel| < cfg.capacity then
        var entry := Entry(s.waiting[i], s.now, |s.channel| + InFlight(s));
        Some(s.(waiting := s.waiting[..i] + s.waiting[i + 1..], channel := s.channel + [entry],
                enqueued := s.enqueued + [entry]))
      else None
    case GiveUp(i) =>
      if i < |s.waiting| then
        Some(s.(waiting := s.waiting[..i] + s.waiting[i + 1..], cancelled := s.cancelled + [s.waiting[i]]))
      else None
    case Receive =>
      if s.running.None? && s.channel != [] && s.permits > 0 then
        Some(s.(channel := s.channel[1..], permits := s.permits - 1, running := Some(Running(s.channel[0], s.now))))
      else None
    case Finish =>
      if s.running.Some? && Ready(s.running.value, s.now) then
        Some(Respond(s, Resolved(s.running.value.entry.work.outcome)))
      else None
    case WatchdogFires =>
      if s.running.Some? && !Ready(s.running.value, s.now) && s.running.value.startedAt + cfg.watchdog <= s.now then
        Some(Respond(s, CommandTimeout(cfg.watchdog)))
      else None
    case Tick(dt) =>
      Some(s.(now := s.now + dt))
  }

  /** The state after a run, or None when some step was not enabled. */
  function Run(cfg: Config, s: State, steps: seq<Step>): Option<State> {
    if steps == [] then Some(s)
    else
      var before := Run(cfg, s, steps[..|steps| - 1]);
      if before.None? then None else Next(cfg, before.value, steps[|steps| - 1])
  }

  // ---- Safety: every interleaving, any scheduling delays -------------------------------------------

  function Entries(answers: seq<Answer>): (r: seq<Entry>)
    ensures |r| == |answers|
  {
    seq(|answers|, i requires 0 <= i < |answers| => answers[i].entry)
  }

  function Pending(s: State): seq<Entry> {
    (if s.running.Some? then [s.running.value.entry] else []) + s.channel
  }

  /**
   Each reply is the command's own outcome, or the watchdog's verdict on a command that needs longer than the
   watchdog allows, however long it waited before it ran.
   */
  predicate FairReply(cfg: Config, a: Answer) {
    match a.reply
    case Resolved(outcome) => a.entry.work.duration.Some? && outcome == a.entry.work.outcome
    case CommandTimeout(w) =>
      && w == cfg.watchdog && a.entry.enqueuedAt + cfg.watchdog <= a.at
      && (a.entry.work.duration.Some? ==> a.entry.work.duration.value > cfg.watchdog)
  }

  ghost predicate Safe(cfg: Config, s: State) {
    && s.permits + InFlight(s) == 1
    && |s.channel| <= cfg.capacity
    && s.enqueued == Entries(s.answers) + Pending(s)
    && s.accepted == |s.waiting| + |s.enqueued| + |s.cancelled|
    && (s.running.Some? ==> s.running.value.entry.enqueuedAt <= s.running.value.startedAt <= s.now)
    && (forall i :: 0 <= i < |s.channel| ==> s.channel[i].enqueuedAt <= s.now)
    && (forall i :: 0 <= i < |s.answers| ==> s.answers[i].at <= s.now && FairReply(cfg, s.answers[i]))
    && (forall i, j :: 0 <= i <= j < |s.answers| ==> s.answers[i].at <= s.answers[j].at)
    && (forall i :: 0 <= i < |s.enqueued| ==> s.enqueued[i].ahead <= cfg.capacity)
  }

  lemma AnswerIsSafe(cfg: Config, s: State, step: Step)
    requires Safe(cfg, s) && (step.Finish? || step.WatchdogFires?) && Next(cfg, s, step).Some?
    ensures Safe(cfg, Next(cfg, s, step).value)
    ensures s.answers <= Next(cfg, s, step).value.answers
  {
    var t := Next(cfg, s, step).value;
    assert Entries(t.answers) == Entries(s.answers) + [s.running.value.entry];
    assert t.enqueued == Entries(t.answers) + Pending(t);
    assert FairReply(cfg, t.answers[|s.answers|]);
  }

  lemma StepIsSafe(cfg: Config, s: State, step: Step)
    requires Safe(cfg, s) && Next(cfg, s, step).Some?
    ensures Safe(cfg, Next(cfg, s, step).value)
    ensures s.enqueued <= Next(cfg, s, step).value.enqueued && s.answers <= Next(cfg, s, step).value.answers
  {
    if step.Finish? || step.WatchdogFires? {
      AnswerIsSafe(cfg, s, step);
    } else if step.Enqueue? {
      EnqueueIsSafe(cfg, s, step);
    } else if step.Receive? {
      ReceiveIsSafe(cfg, s, step);
    } else {
      OtherStepIsSafe(cfg, s, step);
    }
  }

  lemma EnqueueIsSafe(cfg: Config, s: State, step: Step)
    requires Safe(cfg, s) && step.Enqueue? && Next(cfg, s, step).Some?
    ensures var t := Next(cfg, s, step).value; Safe(cfg, t) && s.enqueued <= t.enqueued && s.answers == t.answers
  {
    var t := Next(cfg, s, step).value;
    assert t.enqueued == Entries(t.answers) + Pending(t);
  }

  lemma ReceiveIsSafe(cfg: Config, s: State, step: Step)
    requires Safe(cfg, s) && step.Receive? && Next(cfg, s, step).Some?
    ensures var t := Next(cfg, s, step).value; Safe(cfg, t) && s.enqueued == t.enqueued && s.answers == t.answers
  {
    assert Pending(Next(cfg, s, step).value) == Pending(s);
  }

  lemma OtherStepIsSafe(cfg: Config, s: State, step: Step)
    requires Safe(cfg, s) && (step.Submit? || step.GiveUp? || step.Tick?) && Next(cfg, s, step).Some?
    ensures var t := Next(cfg, s, step).value; Safe(cfg, t) && s.enqueued == t.enqueued && s.answers == t.answers
  {
  }

  /**
   Over every run: one command in flight at most, a bounded channel, and the answers are exactly the
   enqueued commands in enqueue order, each once, with the rest still pending.
   */
  lemma {:induction false} RunIsSafe(cfg: Config, steps: seq<Step>)
    requires Run(cfg, INIT, steps).Some?
    ensures Safe(cfg, Run(cfg, INIT, steps).value)
  {
    if steps == [] {
      assert Entries([]) + Pending(INIT) == [];
    } else {
      var before := steps[..|steps| - 1];
      RunIsSafe(cfg, before);
      StepIsSafe(cfg, Run(cfg, INIT, before).value, steps[|steps| - 1]);
    }
  }

  /** A reply, once sent, is never changed, and no enqueued command is forgotten or reordered. */
  lemma {:induction false} HistoryOnlyGrows(cfg: Config, steps: seq<Step>, more: seq<Step>)
    requires Run(cfg, INIT, steps + more).Some?
    ensures Run(cfg, INIT, steps).Some?
    ensures var s, t := Run(cfg, INIT, steps).value, Run(cfg, INIT, steps + more).value;
      s.enqueued <= t.enqueued && s.answers <= t.answers
  {
    if more == [] {
      assert steps + more == steps;
    } else {
      var last := |more| - 1;
      assert (steps + more)[..|steps + more| - 1] == steps + more[..last];
      HistoryOnlyGrows(cfg, steps, more[..last]);
      RunIsSafe(cfg, steps + more[..last]);
      StepIsSafe(cfg, Run(cfg, INIT, steps + more[..last]).value, more[last]);
    }
  }

  // ---- What is run is what was submitted ---------------------------------------------------------------

  /** The commands handed to `submit` in the course of the steps. */
  function Submitted(steps: seq<Step>): seq<Work> {
    if steps == [] then []
    else
      var last := steps[|steps| - 1];
      Submitted(steps[..|steps| - 1]) + if last.Submit? then [last.work] else []
  }

  function Works(entries: seq<Entry>): (r: seq<Work>)
    ensures |r| == |entries|
  {
    seq(|entries|, i requires 0 <= i < |entries| => entries[i].work)
  }

  /** All commands the queue has accepted, wherever they are now. */
  ghost function Held(s: State): multiset<Work> {
    multiset(s.waiting) + multiset(Works(s.enqueued)) + multiset(s.cancelled)
  }

  lemma WorksSnoc(entries: seq<Entry>, e: Entry)
    ensures multiset(Works(entries + [e])) == multiset(Works(entries)) + multiset{e.work}
  {
    assert Works(entries + [e]) == Works(entries) + [e.work];
  }

  function Without(waiting: seq<Work>, i: nat): seq<Work>
    requires i < |waiting|
  {
    waiting[..i] + waiting[i + 1..]
  }

  lemma TakeOut(waiting: seq<Work>, i: nat)
    requires i < |waiting|
    ensures multiset(waiting) == multiset(Without(waiting, i)) + multiset{waiting[i]}
  {
    assert waiting == waiting[..i] + [waiting[i]] + waiting[i + 1..];
  }

  lemma MoveOne(from: multiset<Work>, rest: multiset<Work>, to: multiset<Work>, more: multiset<Work>, w: Work,
                others: multiset<Work>)
    requires from == rest + multiset{w} && more == to + multiset{w}
    ensures rest + more + others == from + to + others
    ensures rest + others + more == from + others + to
  {
  }

  /** A parked command enters as itself, with the time and the number of commands then before it. */
  lemma EnqueueSendsOwn(cfg: Config, s: State, i: nat)
    requires Next(cfg, s, Enqueue(i)).Some?
    ensures var t := Next(cfg, s, Enqueue(i)).value;
      && i < |s.waiting| && |s.channel| < cfg.capacity
      && t.enqueued == s.enqueued + [Entry(s.waiting[i], s.now, |s.channel| + if s.running.Some? then 1 else 0)]
      && t.channel == s.channel + [t.enqueued[|s.enqueued|]]
      && t.waiting == s.waiting[..i] + s.waiting[i + 1..] && Held(t) == Held(s)
  {
    var t := Next(cfg, s, Enqueue(i)).value;
    var e := Entry(s.waiting[i], s.now, |s.channel| + InFlight(s));
    assert t.waiting == Without(s.waiting, i) && t.enqueued == s.enqueued + [e];
    TakeOut(s.waiting, i);
    WorksSnoc(s.enqueued, e);
    MoveOne(multiset(s.waiting), multiset(t.waiting), multiset(Works(s.enqueued)), multiset(Works(t.enqueued)), e.work,
            multiset(s.cancelled));
  }

  lemma GiveUpDropsOwn(cfg: Config, s: State, i: nat)
    requires Next(cfg, s, GiveUp(i)).Some?
    ensures var t := Next(cfg, s, GiveUp(i)).value;
      && i < |s.waiting| && t.enqueued == s.enqueued && t.channel == s.channel
      && t.cancelled == s.cancelled + [s.waiting[i]]
      && t.waiting == s.waiting[..i] + s.waiting[i + 1..] && Held(t) == Held(s)
  {
    var t := Next(cfg, s, GiveUp(i)).value;
    assert t.waiting == Without(s.waiting, i);
    TakeOut(s.waiting, i);
    MoveOne(multiset(s.waiting), multiset(t.waiting), multiset(s.cancelled), multiset(t.cancelled), s.waiting[i],
            multiset(Works(s.enqueued)));
  }

  lemma SubmitHolds(cfg: Config, s: State, work: Work)
    ensures Next(cfg, s, Submit(work)).Some?
    ensures Held(Next(cfg, s, Submit(work)).value) == Held(s) + multiset{work}
  {
    var t := Next(cfg, s, Submit(work)).value;
    assert multiset(t.waiting) == multiset(s.waiting) + multiset{work};
  }

  lemma StepHolds(cfg: Config, s: State, step: Step)
    requires Next(cfg, s, step).Some?
    ensures var t := Next(cfg, s, step).value;
      && Held(t) == Held(s) + (if step.Submit? then multiset{step.work} else multiset{})
      && t.accepted == s.accepted + if step.Submit? then 1 else 0
  {
    match step
    case Submit(work) => SubmitHolds(cfg, s, work);
    case Enqueue(i) => EnqueueSendsOwn(cfg, s, i);
    case GiveUp(i) => GiveUpDropsOwn(cfg, s, i);
    case _ =>
  }

  lemma SubmittedSnoc(steps: seq<Step>)
    requires steps != []
    ensures var before, last := Submitted(steps[..|steps| - 1]), steps[|steps| - 1];
      && multiset(Submitted(steps)) == multiset(before) + (if last.Submit? then multiset{last.work} else multiset{})
      && |Submitted(steps)| == |before| + if last.Submit? then 1 else 0
  {
  }

  lemma {:induction false} RunHolds(cfg: Config, steps: seq<Step>)
    requires Run(cfg, INIT, steps).Some?
    ensures var s := Run(cfg, INIT, steps).value;
      Held(s) == multiset(Submitted(steps)) && s.accepted == |Submitted(steps)|
  {
    if steps != [] {
      RunHolds(cfg, steps[..|steps| - 1]);
      SubmittedSnoc(steps);
      StepHolds(cfg, Run(cfg, INIT, steps[..|steps| - 1]).value, steps[|steps| - 1]);
    }
  }

  /**
   Over every run, whatever the interleaving: the commands waiting, those that ever entered the channel and those
   given up are together exactly the commands submitted, each as often. None is lost, doubled or made up.
   */
  lemma NothingLostOrDoubled(cfg: Config, steps: seq<Step>)
    requires Run(cfg, INIT, steps).Some?
    ensures var s := Run(cfg, INIT, steps).value;
      && multiset(Submitted(steps)) == multiset(s.waiting) + multiset(Works(s.enqueued)) + multiset(s.cancelled)
      && s.accepted == |Submitted(steps)|
  {
    RunHolds(cfg, steps);
  }

  /** And the replies, in order, answer the commands that entered, in the order they entered. */
  lemma RepliesAnswerSubmitted(cfg: Config, steps: seq<Step>, k: nat)
    requires Run(cfg, INIT, steps).Some? && k < |Run(cfg, INIT, steps).value.answers|
    ensures var s := Run(cfg, INIT, steps).value;
      && k < |s.enqueued| && s.answers[k].entry == s.enqueued[k]
      && s.answers[k].entry.work in Submitted(steps)
  {
    var s := Run(cfg, INIT, steps).value;
    RunIsSafe(cfg, steps);
    NothingLostOrDoubled(cfg, steps);
    assert Entries(s.answers)[k] == s.enqueued[k];
    assert Works(s.enqueued)[k] in multiset(Works(s.enqueued));
    assert Works(s.enqueued)[k] in multiset(Submitted(steps));
  }

  // ---- Timing: runs in which the worker and the timers are scheduled without delay -----------------

  /** How long a command occupies the worker: its own duration, cut off by the watchdog. */
  function Span(cfg: Config, work: Work): nat {
    if work.duration.Some? && work.duration.value <= cfg.watchdog then work.duration.value else cfg.watchdog
  }

  /** Time does not pass while the worker could act. */
  predicate Prompt(cfg: Config, s: State, step: Step) {
    step.Tick? ==>
      if s.running.Some? then s.now + step.dt <= s.running.value.startedAt + Span(cfg, s.running.value.entry.work)
      else s.channel == []
  }

  function PromptRun(cfg: Config, s: State, steps: seq<Step>): Option<State> {
    if steps == [] then Some(s)
    else
      var before := PromptRun(cfg, s, steps[..|steps| - 1]);
      if before.None? || !Prompt(cfg, before.value, steps[|steps| - 1]) then None
      else Next(cfg, before.value, steps[|steps| - 1])
  }

  lemma {:induction false} PromptRunIsRun(cfg: Config, steps: seq<Step>)
    requires PromptRun(cfg, INIT, steps).Some?
    ensures Run(cfg, INIT, steps) == PromptRun(cfg, INIT, steps)
  {
    if steps != [] {
      PromptRunIsRun(cfg, steps[..|steps| - 1]);
    }
  }

  /** Reference schedule of a first-come first-served server: when the first k commands are done. */
  function DoneBy(cfg: Config, entries: seq<Entry>, k: nat): nat
    requires k <= |entries|
  {
    if k == 0 then 0
    else Max(DoneBy(cfg, entries, k - 1), entries[k - 1].enqueuedAt) + Span(cfg, entries[k - 1].work)
  }

  lemma {:induction false} DoneByPrefix(cfg: Config, entries: seq<Entry>, more: seq<Entry>, k: nat)
    requires k <= |entries| && entries <= more
    ensures DoneBy(cfg, entries, k) == DoneBy(cfg, more, k)
  {
    if k > 0 {
      DoneByPrefix(cfg, entries, more, k - 1);
    }
  }

  /** The reply that a command has to get: its outcome if it fits into the watchdog, a timeout otherwise. */
  function ExpectedReply(cfg: Config, work: Work): Reply {
    if work.duration.Some? && work.duration.value <= cfg.watchdog then Resolved(work.outcome)
    else CommandTimeout(cfg.watchdog)
  }

  ghost predicate Punctual(cfg: Config, answers: seq<Answer>, enqueued: seq<Entry>) {
    |answers| <= |enqueued| && forall k :: 0 <= k < |answers| ==>
      answers[k].at == DoneBy(cfg, enqueued, k + 1) && answers[k].reply == ExpectedReply(cfg, answers[k].entry.work)
  }

  ghost predicate WorkerOnTime(cfg: Config, s: State, free: nat) {
    && free <= s.now
    && (s.running.Some? ==>
          && s.running.value.startedAt == Max(free, s.running.value.entry.enqueuedAt)
          && s.now <= s.running.value.startedAt + Span(cfg, s.running.value.entry.work))
    && (s.running.None? && s.channel != [] ==> s.now == Max(free, s.channel[0].enqueuedAt))
  }

  ghost predicate OnSchedule(cfg: Config, s: State) {
    && Safe(cfg, s)
    && Punctual(cfg, s.answers, s.enqueued)
    && WorkerOnTime(cfg, s, DoneBy(cfg, s.enqueued, |s.answers|))
  }

  lemma PunctualExtends(cfg: Config, answers: seq<Answer>, enqueued: seq<Entry>, more: seq<Entry>)
    requires Punctual(cfg, answers, enqueued) && enqueued <= more
    ensures Punctual(cfg, answers, more)
    ensures DoneBy(cfg, enqueued, |answers|) == DoneBy(cfg, more, |answers|)
  {
    forall k | 0 <= k <= |answers| ensures DoneBy(cfg, enqueued, k) == DoneBy(cfg, more, k) {
      DoneByPrefix(cfg, enqueued, more, k);
    }
  }

  lemma PunctualAppend(cfg: Config, answers: seq<Answer>, last: Answer, enqueued: seq<Entry>)
    requires Punctual(cfg, answers, enqueued) && |answers| < |enqueued|
    requires last.at == DoneBy(cfg, enqueued, |answers| + 1) && last.reply == ExpectedReply(cfg, last.entry.work)
    ensures Punctual(cfg, answers + [last], enqueued)
  {
    var more := answers + [last];
    forall k | 0 <= k < |more|
      ensures more[k].at == DoneBy(cfg, enqueued, k + 1) && more[k].reply == ExpectedReply(cfg, more[k].entry.work)
    {
      if k < |answers| {
        assert more[k] == answers[k];
      }
    }
  }

  /** Answering the running command at its due time keeps the schedule. */
  lemma AnswerOnSchedule(cfg: Config, s: State, step: Step)
    requires OnSchedule(cfg, s) && (step.Finish? || step.WatchdogFires?) && Next(cfg, s, step).Some?
    ensures OnSchedule(cfg, Next(cfg, s, step).value)
  {
    var t := Next(cfg, s, step).value;
    StepIsSafe(cfg, s, step);
    var n, r := |s.answers|, s.running.value;
    assert s.enqueued[n] == Pending(s)[0] == r.entry;
    assert DoneBy(cfg, s.enqueued, n + 1) == s.now;
    assert t.answers == s.answers + [t.answers[n]];
    PunctualAppend(cfg, s.answers, t.answers[n], s.enqueued);
  }

  lemma StepOnSchedule(cfg: Config, s: State, step: Step)
    requires OnSchedule(cfg, s) && Prompt(cfg, s, step) && Next(cfg, s, step).Some?
    ensures OnSchedule(cfg, Next(cfg, s, step).value)
  {
    if step.Finish? || step.WatchdogFires? {
      AnswerOnSchedule(cfg, s, step);
    } else {
      var t := Next(cfg, s, step).value;
      StepIsSafe(cfg, s, step);
      PunctualExtends(cfg, s.answers, s.enqueued, t.enqueued);
      StepKeepsWorkerOnTime(cfg, s, step, DoneBy(cfg, s.enqueued, |s.answers|));
    }
  }

  lemma StepKeepsWorkerOnTime(cfg: Config, s: State, step: Step, free: nat)
    requires Safe(cfg, s) && WorkerOnTime(cfg, s, free) && Prompt(cfg, s, step) && Next(cfg, s, step).Some?
    requires !step.Finish? && !step.WatchdogFires?
    ensures WorkerOnTime(cfg, Next(cfg, s, step).value, free) && Next(cfg, s, step).value.answers == s.answers
  {
  }

  /** In every prompt run each answer comes exactly when the reference schedule says, with the right reply. */
  lemma {:induction false} PromptRunOnSchedule(cfg: Config, steps: seq<Step>)
    requires PromptRun(cfg, INIT, steps).Some?
    ensures OnSchedule(cfg, PromptRun(cfg, INIT, steps).value)
  {
    if steps == [] {
      assert Entries([]) + Pending(INIT) == [];
    } else {
      var before := steps[..|steps| - 1];
      PromptRunOnSchedule(cfg, before);
      StepOnSchedule(cfg, PromptRun(cfg, INIT, before).value, steps[|steps| - 1]);
    }
  }

  // ---- No run gets stuck ----------------------------------------------------------------------------------

  lemma {:induction false} PromptRunConcat(cfg: Config, s: State, a: seq<Step>, b: seq<Step>)
    requires PromptRun(cfg, s, a).Some? && PromptRun(cfg, PromptRun(cfg, s, a).value, b).Some?
    ensures PromptRun(cfg, s, a + b) == PromptRun(cfg, PromptRun(cfg, s, a).value, b)
  {
    if b == [] {
      assert a + b == a;
    } else {
      var last := |b| - 1;
      assert PromptRun(cfg, PromptRun(cfg, s, a).value, b[..last]).Some?;
      PromptRunConcat(cfg, s, a, b[..last]);
      assert (a + b)[..|a + b| - 1] == a + b[..last];
    }
  }

  lemma OneStep(cfg: Config, s: State, step: Step)
    requires Prompt(cfg, s, step) && Next(cfg, s, step).Some?
    ensures PromptRun(cfg, s, [step]) == Next(cfg, s, step)
  {
    assert [step][..0] == [];
    assert PromptRun(cfg, s, []) == Some(s);
  }

  /** How much is still to be done: a waiting command has to enter, be received and be answered. */
  function Left(s: State): nat {
    3 * |s.waiting| + 2 * |s.channel| + InFlight(s)
  }

  /** The running command is due, and can be answered now. */
  lemma DueIsAnswered(cfg: Config, s: State) returns (step: Step)
    requires OnSchedule(cfg, s) && s.running.Some?
    requires s.now == s.running.value.startedAt + Span(cfg, s.running.value.entry.work)
    ensures !step.Submit? && !step.GiveUp? && !step.Tick? && Next(cfg, s, step).Some?
    ensures Left(Next(cfg, s, step).value) < Left(s) && Next(cfg, s, step).value.cancelled == s.cancelled
  {
    step := if Ready(s.running.value, s.now) then Finish else WatchdogFires;
  }

  lemma SubmittedOne(step: Step)
    ensures Submitted([step]) == if step.Submit? then [step.work] else []
  {
    assert [step][..0] == [];
  }

  /** The steps are prompt, submit nothing, give nothing up, and get the queue further. */
  ghost predicate Advances(cfg: Config, s: State, steps: seq<Step>) {
    && PromptRun(cfg, s, steps).Some? && Submitted(steps) == []
    && var t := PromptRun(cfg, s, steps).value;
       OnSchedule(cfg, t) && Left(t) < Left(s) && t.cancelled == s.cancelled
  }

  lemma WaitUntilDue(cfg: Config, s: State) returns (wait: Step)
    requires OnSchedule(cfg, s) && s.running.Some?
    ensures wait.Tick? && Prompt(cfg, s, wait) && Next(cfg, s, wait).Some?
    ensures var t := Next(cfg, s, wait).value;
      && OnSchedule(cfg, t) && t.running == s.running && Left(t) == Left(s) && t.cancelled == s.cancelled
      && t.now == s.running.value.startedAt + Span(cfg, s.running.value.entry.work)
  {
    wait := Tick(s.running.value.startedAt + Span(cfg, s.running.value.entry.work) - s.now);
    StepOnSchedule(cfg, s, wait);
  }

  lemma AdvanceRunning(cfg: Config, s: State) returns (steps: seq<Step>)
    requires OnSchedule(cfg, s) && s.running.Some?
    ensures Advances(cfg, s, steps)
  {
    var wait := WaitUntilDue(cfg, s);
    var t := Next(cfg, s, wait).value;
    var step := DueIsAnswered(cfg, t);
    StepOnSchedule(cfg, t, step);
    OneStep(cfg, s, wait);
    OneStep(cfg, t, step);
    PromptRunConcat(cfg, s, [wait], [step]);
    SubmittedOne(wait);
    SubmittedOne(step);
    SubmittedAppend([wait], [step]);
    steps := [wait] + [step];
  }

  lemma AdvanceIdle(cfg: Config, s: State) returns (steps: seq<Step>)
    requires OnSchedule(cfg, s) && cfg.capacity > 0 && s.running.None? && Left(s) > 0
    ensures Advances(cfg, s, steps)
  {
    var step := if s.channel != [] then Receive else Enqueue(0);
    StepOnSchedule(cfg, s, step);
    OneStep(cfg, s, step);
    SubmittedOne(step);
    steps := [step];
  }

  /** As long as anything is left to be done, the queue gets further without a new command and without a delay. */
  lemma Progress(cfg: Config, s: State) returns (steps: seq<Step>)
    requires OnSchedule(cfg, s) && cfg.capacity > 0 && Left(s) > 0
    ensures Advances(cfg, s, steps)
  {
    if s.running.Some? {
      steps := AdvanceRunning(cfg, s);
    } else {
      steps := AdvanceIdle(cfg, s);
    }
  }

  lemma {:induction false} SubmittedAppend(a: seq<Step>, b: seq<Step>)
    ensures Submitted(a + b) == Submitted(a) + Submitted(b)
  {
    if b == [] {
      assert a + b == a;
    } else {
      SubmittedAppend(a, b[..|b| - 1]);
      assert (a + b)[..|a + b| - 1] == a + b[..|b| - 1];
    }
  }

  lemma {:induction false} Drain(cfg: Config, s: State) returns (more: seq<Step>)
    requires OnSchedule(cfg, s) && cfg.capacity > 0
    ensures PromptRun(cfg, s, more).Some? && Left(PromptRun(cfg, s, more).value) == 0
    ensures Submitted(more) == [] && PromptRun(cfg, s, more).value.cancelled == s.cancelled
    decreases Left(s)
  {
    more := [];
    if Left(s) > 0 {
      var first := Progress(cfg, s);
      var rest := Drain(cfg, PromptRun(cfg, s, first).value);
      PromptRunConcat(cfg, s, first, rest);
      SubmittedAppend(first, rest);
      more := first + rest;
    }
  }

  /**
   From wherever a prompt run has got to, it can go on, without a new command, until every command submitted so far
   has been answered, except those given up: no state is stuck, and nothing is left behind.
   */
  lemma EveryCommandCanBeAnswered(cfg: Config, steps: seq<Step>) returns (more: seq<Step>)
    requires cfg.capacity > 0 && PromptRun(cfg, INIT, steps).Some?
    ensures PromptRun(cfg, INIT, steps + more).Some? && Submitted(steps + more) == Submitted(steps)
    ensures var s := PromptRun(cfg, INIT, steps + more).value;
      && s.cancelled == PromptRun(cfg, INIT, steps).value.cancelled
      && multiset(Submitted(steps)) == multiset(Works(Entries(s.answers))) + multiset(s.cancelled)
  {
    PromptRunOnSchedule(cfg, steps);
    more := Drain(cfg, PromptRun(cfg, INIT, steps).value);
    PromptRunConcat(cfg, INIT, steps, more);
    SubmittedAppend(steps, more);
    PromptRunOnSchedule(cfg, steps + more);
    PromptRunIsRun(cfg, steps + more);
    NothingLostOrDoubled(cfg, steps + more);
    NothingPending(cfg, PromptRun(cfg, INIT, steps + more).value);
  }

  lemma NothingPending(cfg: Config, s: State)
    requires Safe(cfg, s) && Left(s) == 0
    ensures s.waiting == [] && s.enqueued == Entries(s.answers)
  {
  }

  /** What entry k recorded on entering: all but `ahead` of the commands before it were already done. */
  ghost predicate RecordedAt(cfg: Config, enqueued: seq<Entry>, k: nat) {
    && k < |enqueued| && enqueued[k].ahead <= k
    && DoneBy(cfg, enqueued, k - enqueued[k].ahead) <= enqueued[k].enqueuedAt
  }

  ghost predicate InOrder(enqueued: seq<Entry>) {
    forall i, j :: 0 <= i <= j < |enqueued| ==> enqueued[i].enqueuedAt <= enqueued[j].enqueuedAt
  }

  ghost predicate WellRecorded(cfg: Config, enqueued: seq<Entry>) {
    InOrder(enqueued) && forall k: nat :: k < |enqueued| ==> RecordedAt(cfg, enqueued, k)
  }

  lemma RecordedAtExtends(cfg: Config, enqueued: seq<Entry>, more: seq<Entry>, k: nat)
    requires RecordedAt(cfg, enqueued, k) && enqueued <= more
    ensures RecordedAt(cfg, more, k)
  {
    DoneByPrefix(cfg, enqueued, more, k - enqueued[k].ahead);
  }

  lemma EntryIsRecorded(cfg: Config, enqueued: seq<Entry>, entry: Entry)
    requires WellRecorded(cfg, enqueued)
    requires entry.ahead <= |enqueued| && DoneBy(cfg, enqueued, |enqueued| - entry.ahead) <= entry.enqueuedAt
    requires forall i :: 0 <= i < |enqueued| ==> enqueued[i].enqueuedAt <= entry.enqueuedAt
    ensures WellRecorded(cfg, enqueued + [entry])
  {
    var more := enqueued + [entry];
    forall k: nat | k < |more| ensures RecordedAt(cfg, more, k) {
      if k < |enqueued| {
        RecordedAtExtends(cfg, enqueued, more, k);
      } else {
        DoneByPrefix(cfg, enqueued, more, |enqueued| - entry.ahead);
      }
    }
  }

  lemma QueueLength(cfg: Config, s: State)
    requires OnSchedule(cfg, s)
    ensures |s.enqueued| == |s.answers| + |s.channel| + InFlight(s)
    ensures DoneBy(cfg, s.enqueued, |s.answers|) <= s.now
  {
  }

  ghost predicate Recorded(cfg: Config, s: State) {
    WellRecorded(cfg, s.enqueued) && forall i :: 0 <= i < |s.enqueued| ==> s.enqueued[i].enqueuedAt <= s.now
  }

  lemma EnqueueIsRecorded(cfg: Config, s: State, i: nat)
    requires OnSchedule(cfg, s) && Recorded(cfg, s) && Next(cfg, s, Enqueue(i)).Some?
    ensures Recorded(cfg, Next(cfg, s, Enqueue(i)).value)
  {
    QueueLength(cfg, s);
    assert |s.enqueued| - (|s.channel| + InFlight(s)) == |s.answers|;
    EntryIsRecorded(cfg, s.enqueued, Entry(s.waiting[i], s.now, |s.channel| + InFlight(s)));
  }

  lemma OtherStepIsRecorded(cfg: Config, s: State, step: Step)
    requires Recorded(cfg, s) && !step.Enqueue? && Next(cfg, s, step).Some?
    ensures Recorded(cfg, Next(cfg, s, step).value)
  {
    assert Next(cfg, s, step).value.enqueued == s.enqueued && s.now <= Next(cfg, s, step).value.now;
  }

  lemma {:induction false} PromptRunIsRecorded(cfg: Config, steps: seq<Step>)
    requires PromptRun(cfg, INIT, steps).Some?
    ensures Recorded(cfg, PromptRun(cfg, INIT, steps).value)
  {
    if steps != [] {
      var before, step := steps[..|steps| - 1], steps[|steps| - 1];
      PromptRunIsRecorded(cfg, before);
      if step.Enqueue? {
        PromptRunOnSchedule(cfg, before);
        EnqueueIsRecorded(cfg, PromptRun(cfg, INIT, before).value, step.i);
      } else {
        OtherStepIsRecorded(cfg, PromptRun(cfg, INIT, before).value, step);
      }
    }
  }

  lemma OneMorePeriod(n: nat, period: nat)
    requires n > 0
    ensures n * period == (n - 1) * period + period
    ensures 0 <= (n - 1) * period
  {
  }

  lemma {:induction false} BusyPeriod(cfg: Config, enqueued: seq<Entry>, first: nat, n: nat, t: nat)
    requires first + n <= |enqueued| && DoneBy(cfg, enqueued, first) <= t
    requires forall i :: first <= i < first + n ==> enqueued[i].enqueuedAt <= t
    ensures DoneBy(cfg, enqueued, first + n) <= t + n * cfg.watchdog
  {
    if n > 0 {
      BusyPeriod(cfg, enqueued, first, n - 1, t);
      OneMorePeriod(n, cfg.watchdog);
    }
  }

  lemma {:induction false} DoneByMonotone(cfg: Config, enqueued: seq<Entry>, i: nat, j: nat)
    requires i <= j <= |enqueued|
    ensures DoneBy(cfg, enqueued, i) <= DoneBy(cfg, enqueued, j)
    decreases j - i
  {
    if i < j {
      DoneByMonotone(cfg, enqueued, i, j - 1);
    }
  }

  lemma PendingNotOverdue(cfg: Config, s: State, k: nat)
    requires OnSchedule(cfg, s) && |s.answers| <= k < |s.enqueued|
    ensures s.now <= DoneBy(cfg, s.enqueued, k + 1)
  {
    var n := |s.answers|;
    assert s.enqueued[n] == Pending(s)[0];
    DoneByMonotone(cfg, s.enqueued, n + 1, k + 1);
  }

  function Deadline(cfg: Config, e: Entry): nat {
    e.enqueuedAt + (e.ahead + 1) * cfg.watchdog
  }

  lemma DoneByDeadline(cfg: Config, enqueued: seq<Entry>, k: nat)
    requires WellRecorded(cfg, enqueued) && k < |enqueued|
    ensures DoneBy(cfg, enqueued, k + 1) <= Deadline(cfg, enqueued[k])
  {
    var e := enqueued[k];
    assert RecordedAt(cfg, enqueued, k);
    BusyPeriod(cfg, enqueued, k - e.ahead, e.ahead + 1, e.enqueuedAt);
  }

  /**
   Latency: a command with j commands before it when it entered the channel is answered within (j + 1)
   watchdog periods, and j is at most the channel capacity. If the deadline has passed, the answer is in.
   */
  lemma AnsweredInTime(cfg: Config, steps: seq<Step>, k: nat)
    requires PromptRun(cfg, INIT, steps).Some? && k < |PromptRun(cfg, INIT, steps).value.enqueued|
    ensures var s := PromptRun(cfg, INIT, steps).value;
      && s.enqueued[k].ahead <= cfg.capacity
      && (k < |s.answers| ==> s.answers[k].entry == s.enqueued[k] && s.answers[k].at <= Deadline(cfg, s.enqueued[k]))
      && (k >= |s.answers| ==> s.now <= Deadline(cfg, s.enqueued[k]))
  {
    PromptRunOnSchedule(cfg, steps);
    PromptRunIsRecorded(cfg, steps);
    StateAnswersInTime(cfg, PromptRun(cfg, INIT, steps).value, k);
  }

  lemma StateAnswersInTime(cfg: Config, s: State, k: nat)
    requires OnSchedule(cfg, s) && Recorded(cfg, s) && k < |s.enqueued|
    ensures s.enqueued[k].ahead <= cfg.capacity
    ensures k < |s.answers| ==> s.answers[k].entry == s.enqueued[k] && s.answers[k].at <= Deadline(cfg, s.enqueued[k])
    ensures k >= |s.answers| ==> s.now <= Deadline(cfg, s.enqueued[k])
  {
    DoneByDeadline(cfg, s.enqueued, k);
    if k < |s.answers| {
      assert s.enqueued[k] == Entries(s.answers)[k];
    } else {
      PendingNotOverdue(cfg, s, k);
    }
  }
}
