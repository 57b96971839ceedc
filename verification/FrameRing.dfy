/**
 The drop-oldest queues of the phone camera (`camera-phone/phone_camera.rs`): a circular array that refines
 the history of its pushes and polls.
 */
module FrameRing {
  import opened Numerics

  // ---- The history a queue stands for -----------------------------------------------------------------

  /**
   Everything that ever happened to one queue: the pushed items, how many left by eviction, and for each
   polled item its push position and how many pushes there had been by then.
   */
  datatype History<T> = History(capacity: nat, pushed: seq<T>, dropped: nat, polledAt: seq<nat>, pushesAtPoll: seq<nat>)

  function Head<T>(h: History<T>): nat {
    |h.polledAt| + h.dropped
  }

  function Queue<T>(h: History<T>): seq<T> {
    if Head(h) <= |h.pushed| then h.pushed[Head(h)..] else []
  }

  predicate Full<T>(h: History<T>) {
    |h.pushed| - Head(h) >= h.capacity
  }

  function Pushed<T>(h: History<T>, x: T): History<T> {
    h.(pushed := h.pushed + [x], dropped := h.dropped + (if Full(h) then 1 else 0))
  }

  function Polled<T>(h: History<T>): History<T> {
    if Head(h) < |h.pushed| then
      h.(polledAt := h.polledAt + [Head(h)], pushesAtPoll := h.pushesAtPoll + [|h.pushed|])
    else h
  }

  lemma QueuePushed<T>(h: History<T>, x: T)
    requires h.capacity > 0 && Head(h) <= |h.pushed|
    ensures Queue(Pushed(h, x)) == (if Full(h) then Queue(h)[1..] else Queue(h)) + [x]
  {
  }

  // ---- The circular array -------------------------------------------------------------------------------

  function Slot(start: nat, i: nat, n: nat): nat
    requires start < n && i <= n
  {
    if start + i < n then start + i else start + i - n
  }

  /** The len cells from start on, round the end of the array, hold q. */
  ghost predicate Holds<T>(cells: seq<T>, start: nat, len: nat, q: seq<T>)
    requires start < |cells|
  {
    len == |q| <= |cells| && forall i :: 0 <= i < len ==> q[i] == cells[Slot(start, i, |cells|)]
  }

  lemma HoldsRest<T>(cells: seq<T>, start: nat, len: nat, q: seq<T>)
    requires start < |cells| && Holds(cells, start, len, q) && len > 0
    ensures Holds(cells, Slot(start, 1, |cells|), len - 1, q[1..])
  {
    forall i | 0 <= i < len - 1 ensures q[1..][i] == cells[Slot(Slot(start, 1, |cells|), i, |cells|)] {
      assert q[i + 1] == cells[Slot(start, i + 1, |cells|)];
    }
  }

  lemma HoldsOneMore<T>(cells: seq<T>, start: nat, len: nat, q: seq<T>, x: T)
    requires start < |cells| && Holds(cells, start, len, q) && len < |cells|
    ensures Holds(cells[Slot(start, len, |cells|) := x], start, len + 1, q + [x])
  {
  }

  class RingQueue<T(0)> {
    const data: array<T>
    var start: nat
    var len: nat
    var dropped: nat
    ghost var history: History<T>

    ghost predicate Valid()
      reads this, data
    {
      && 0 < data.Length == history.capacity
      && start < data.Length && len <= data.Length
      && dropped == history.dropped
      && Head(history) <= |history.pushed|
      && Holds(data[..], start, len, Queue(history))
    }

    constructor (capacity: nat)
      requires capacity > 0
      ensures Valid() && fresh(data)
      ensures history == History(capacity, [], 0, [], [])
    {
      data := new T[capacity];
      start, len, dropped := 0, 0, 0;
      history := History(capacity, [], 0, [], []);
    }

    /** Evicts the oldest item when full; says whether it did. */
    method Push(x: T) returns (evicted: bool)
      requires Valid()
      modifies this, data
      ensures Valid()
      ensures history == Pushed(old(history), x)
      ensures evicted <==> old(Full(history))
    {
      evicted := len >= data.Length;
      ghost var waiting := Queue(history);
      if evicted {
        HoldsRest(data[..], start, len, waiting);
        waiting := waiting[1..];
        dropped := dropped + 1;
        start := Slot(start, 1, data.Length);
        len := len - 1;
      }
      HoldsOneMore(data[..], start, len, waiting, x);
      QueuePushed(history, x);
      var slot := Slot(start, len, data.Length);
      ghost var cells := data[..];
      data[slot] := x;
      assert data[..] == cells[slot := x];
      len := len + 1;
      history := Pushed(history, x);
    }

    method Poll() returns (r: Option<T>)
      requires Valid()
      modifies this
      ensures Valid()
      ensures history == Polled(old(history))
      ensures r == if old(Queue(history)) == [] then None else Some(old(Queue(history))[0])
    {
      if len == 0 {
        return None;
      }
      r := Some(data[start]);
      HoldsRest(data[..], start, len, Queue(history));
      start := Slot(start, 1, data.Length);
      len := len - 1;
      history := Polled(history);
    }
  }

  class PhoneCamera<Frame(0), Audio(0)> {
    const frames: RingQueue<Frame>
    const audio: RingQueue<Audio>

    ghost predicate Valid()
      reads this, frames, frames.data, audio, audio.data
    {
      && frames.Valid() && audio.Valid()
      && frames as object != audio && frames.data as object != audio.data
    }

    constructor (frameCapacity: nat, audioCapacity: nat)
      requires frameCapacity > 0 && audioCapacity > 0
      ensures Valid() && fresh(frames) && fresh(frames.data) && fresh(audio) && fresh(audio.data)
      ensures frames.history == History(frameCapacity, [], 0, [], [])
      ensures audio.history == History(audioCapacity, [], 0, [], [])
    {
      frames := new RingQueue(frameCapacity);
      audio := new RingQueue(audioCapacity);
    }

    method PushFrame(x: Frame) returns (evicted: bool)
      requires Valid()
      modifies frames, frames.data
      ensures Valid() && audio.history == old(audio.history)
      ensures frames.history == Pushed(old(frames.history), x)
      ensures evicted <==> old(Full(frames.history))
    {
      evicted := frames.Push(x);
    }

    method PushAudioChunk(x: Audio) returns (evicted: bool)
      requires Valid()
      modifies audio, audio.data
      ensures Valid() && frames.history == old(frames.history)
      ensures audio.history == Pushed(old(audio.history), x)
      ensures evicted <==> old(Full(audio.history))
    {
      evicted := audio.Push(x);
    }

    method PollPreviewFrame() returns (r: Option<Frame>)
      requires Valid()
      modifies frames
      ensures Valid() && audio.history == old(audio.history)
      ensures frames.history == Polled(old(frames.history))
      ensures r == if old(Queue(frames.history)) == [] then None else Some(old(Queue(frames.history))[0])
    {
      r := frames.Poll();
    }

    method PollAudioChunk() returns (r: Option<Audio>)
      requires Valid()
      modifies audio
      ensures Valid() && frames.history == old(frames.history)
      ensures audio.history == Polled(old(audio.history))
      ensures r == if old(Queue(audio.history)) == [] then None else Some(old(Queue(audio.history))[0])
    {
      r := audio.Poll();
    }
  }

  // ---- Runs -----------------------------------------------------------------------------------------------

  datatype Op<T> = Push(x: T) | Poll

  function Apply<T>(h: History<T>, op: Op<T>): History<T> {
    match op
    case Push(x) => Pushed(h, x)
    case Poll => Polled(h)
  }

  /** Any interleaving of pushes and polls through shared handles, each under the queue's lock. */
  function Run<T>(capacity: nat, ops: seq<Op<T>>): History<T> {
    if ops == [] then History(capacity, [], 0, [], [])
    else Apply(Run(capacity, ops[..|ops| - 1]), ops[|ops| - 1])
  }

  ghost predicate Consistent<T>(h: History<T>) {
    && |h.pushed| == |h.polledAt| + h.dropped + |Queue(h)|
    && |Queue(h)| <= h.capacity
    && |h.pushesAtPoll| == |h.polledAt|
    && (forall k :: 0 <= k < |h.polledAt| ==> h.polledAt[k] < Head(h))
    && (forall k :: 0 <= k < |h.polledAt| ==>
          h.polledAt[k] < h.pushesAtPoll[k] <= h.polledAt[k] + h.capacity && h.pushesAtPoll[k] <= |h.pushed|)
    && (forall j, k :: 0 <= j < k < |h.polledAt| ==> h.polledAt[j] < h.polledAt[k])
  }

  /**
   Over every run: pushed = polled + dropped + queued, at most `capacity` queued, items come out in push
   order, each at most once, and none more than `capacity` pushes old.
   */
  lemma {:induction false} EveryRunIsConsistent<T>(capacity: nat, ops: seq<Op<T>>)
    requires capacity > 0
    ensures Consistent(Run(capacity, ops)) && Run(capacity, ops).capacity == capacity
  {
    if ops != [] {
      EveryRunIsConsistent(capacity, ops[..|ops| - 1]);
      var h := Run(capacity, ops[..|ops| - 1]);
      var t := Apply(h, ops[|ops| - 1]);
      assert Head(h) <= |h.pushed|;
      forall j, k | 0 <= j < k < |t.polledAt| ensures t.polledAt[j] < t.polledAt[k] {
        if k == |h.polledAt| {
          assert h.polledAt[j] < Head(h);
        }
      }
    }
  }

  function PushAll<T>(items: seq<T>): (r: seq<Op<T>>)
    ensures |r| == |items|
  {
    seq(|items|, i requires 0 <= i < |items| => Push(items[i]))
  }

  /** Without polls the queue holds exactly the newest `capacity` items. */
  lemma {:induction false} PushesKeepNewest<T>(capacity: nat, items: seq<T>)
    requires capacity > 0
    ensures var h := Run(capacity, PushAll(items));
      && h.pushed == items && h.polledAt == [] && h.capacity == capacity
      && h.dropped == Max(0, |items| - capacity)
      && Queue(h) == items[Max(0, |items| - capacity)..]
  {
    if items != [] {
      var last := |items| - 1;
      assert PushAll(items)[..last] == PushAll(items[..last]);
      PushesKeepNewest(capacity, items[..last]);
      assert items[..last] + [items[last]] == items;
    }
  }

  // ---- Two queues -------------------------------------------------------------------------------------------

  datatype CameraOp<F, A> = OnFrames(f: Op<F>) | OnAudio(a: Op<A>)

  datatype Camera<F, A> = Camera(frames: History<F>, audio: History<A>)

  function ApplyCamera<F, A>(before: Camera<F, A>, op: CameraOp<F, A>): Camera<F, A> {
    match op
    case OnFrames(f) => before.(frames := Apply(before.frames, f))
    case OnAudio(a) => before.(audio := Apply(before.audio, a))
  }

  function RunCamera<F, A>(frameCapacity: nat, audioCapacity: nat, ops: seq<CameraOp<F, A>>): Camera<F, A> {
    if ops == [] then Camera(History(frameCapacity, [], 0, [], []), History(audioCapacity, [], 0, [], []))
    else ApplyCamera(RunCamera(frameCapacity, audioCapacity, ops[..|ops| - 1]), ops[|ops| - 1])
  }

  function FrameOps<F, A>(ops: seq<CameraOp<F, A>>): seq<Op<F>> {
    if ops == [] then []
    else FrameOps(ops[..|ops| - 1]) + (if ops[|ops| - 1].OnFrames? then [ops[|ops| - 1].f] else [])
  }

  function AudioOps<F, A>(ops: seq<CameraOp<F, A>>): seq<Op<A>> {
    if ops == [] then []
    else AudioOps(ops[..|ops| - 1]) + (if ops[|ops| - 1].OnAudio? then [ops[|ops| - 1].a] else [])
  }

  lemma RunAppend<T>(capacity: nat, ops: seq<Op<T>>, op: Op<T>)
    ensures Run(capacity, ops + [op]) == Apply(Run(capacity, ops), op)
  {
    assert (ops + [op])[..|ops|] == ops;
  }

  /** The queues never affect each other: each ends as if only its own operations had happened. */
  lemma {:induction false} QueuesAreIndependent<F, A>(frameCapacity: nat, audioCapacity: nat, ops: seq<CameraOp<F, A>>)
    ensures RunCamera(frameCapacity, audioCapacity, ops)
         == Camera(Run(frameCapacity, FrameOps(ops)), Run(audioCapacity, AudioOps(ops)))
  {
    if ops != [] {
      var before := ops[..|ops| - 1];
      QueuesAreIndependent(frameCapacity, audioCapacity, before);
      match ops[|ops| - 1]
      case OnFrames(f) =>
        RunAppend(frameCapacity, FrameOps(before), f);
        assert AudioOps(before) + [] == AudioOps(before);
      case OnAudio(a) =>
        RunAppend(audioCapacity, AudioOps(before), a);
        assert FrameOps(before) + [] == FrameOps(before);
    }
  }

  // ---- The metrics snapshot -----------------------------------------------------------------------------------

  /** What a reader can see of one queue at one moment. */
  datatype Reading = Reading(depth: nat, dropped: nat)

  function ReadingOf<T>(h: History<T>): Reading {
    Reading(|Queue(h)|, h.dropped)
  }

  /** The readings of a run, one for each moment from before the first operation to after the last. */
  function Readings<T>(capacity: nat, ops: seq<Op<T>>): (r: seq<Reading>)
    ensures |r| == |ops| + 1
  {
    seq(|ops| + 1, m requires 0 <= m <= |ops| => ReadingOf(Run(capacity, ops[..m])))
  }

  /** `stats` reads a depth at moment i and, later, the drop counter at moment j; other handles run in between. */
  function Stats(r: seq<Reading>, i: nat, j: nat): Reading
    requires i <= j < |r|
  {
    Reading(r[i].depth, r[j].dropped)
  }

  /** The pair read is the one some single moment between the two reads had. */
  ghost predicate OneMoment(r: seq<Reading>, i: nat, j: nat)
    requires i <= j < |r|
  {
    exists m :: i <= m <= j && r[m] == Stats(r, i, j)
  }

  function AfterPush(x: Reading, capacity: nat): Reading {
    Reading(Min(x.depth + 1, capacity), x.dropped + if x.depth == capacity then 1 else 0)
  }

  function AfterPoll(x: Reading): Reading {
    Reading(Max(0, x.depth - 1), x.dropped)
  }

  /** From moment to moment a push evicts exactly when full, and the depth moves by at most one. */
  ghost predicate Evolves(r: seq<Reading>, capacity: nat) {
    && (forall m :: 0 <= m < |r| ==> r[m].depth <= capacity)
    && (forall m, n :: 0 <= m && n == m + 1 < |r| ==> r[n] == AfterPush(r[m], capacity) || r[n] == AfterPoll(r[m]))
  }

  ghost predicate OnlyPushes(r: seq<Reading>, capacity: nat, i: nat, j: nat) {
    forall m, n :: i <= m && n == m + 1 <= j && n < |r| ==> r[n] == AfterPush(r[m], capacity)
  }

  lemma OneOp<T>(capacity: nat, ops: seq<Op<T>>, m: nat)
    requires capacity > 0 && m < |ops|
    ensures var r := Readings(capacity, ops);
      r[m + 1] == if ops[m].Push? then AfterPush(r[m], capacity) else AfterPoll(r[m])
  {
    EveryRunIsConsistent(capacity, ops[..m]);
    assert ops[..m + 1][..m] == ops[..m];
  }

  /** The readings of every run evolve in this way. */
  lemma RunsEvolve<T>(capacity: nat, ops: seq<Op<T>>)
    requires capacity > 0
    ensures Evolves(Readings(capacity, ops), capacity)
  {
    var r := Readings(capacity, ops);
    forall m | 0 <= m < |r| ensures r[m].depth <= capacity {
      EveryRunIsConsistent(capacity, ops[..m]);
    }
    forall m, n | 0 <= m && n == m + 1 < |r| ensures r[n] == AfterPush(r[m], capacity) || r[n] == AfterPoll(r[m]) {
      OneOp(capacity, ops, m);
    }
  }

  /**
   From a moment m after the last eviction, at which the queue is no deeper than when it was first read, back
   to a moment at which it is exactly that deep: right after an eviction the queue is full.
   */
  lemma {:induction false} MomentOfDepth(r: seq<Reading>, capacity: nat, i: nat, m: nat) returns (k: nat)
    requires Evolves(r, capacity) && i <= m < |r| && r[m].depth <= r[i].depth
    ensures i <= k <= m && r[k] == Reading(r[i].depth, r[m].dropped)
    decreases m - i
  {
    k := m;
    if r[m].depth < r[i].depth {
      k := MomentOfDepth(r, capacity, i, m - 1);
    }
  }

  /** At moment m, since the last eviction before j, the queue is no deeper than it was at i. */
  predicate NoDeeper(r: seq<Reading>, i: nat, j: nat, m: nat)
    requires i <= m <= j < |r|
  {
    r[m].dropped == r[j].dropped && r[m].depth <= r[i].depth
  }

  /**
   Exactly when the pair is that of a single moment: at some moment since the last eviction the queue was no
   deeper than the depth that was read. That holds in particular if nothing was evicted between the reads.
   */
  lemma SnapshotIsOneMomentIff<T>(capacity: nat, ops: seq<Op<T>>, i: nat, j: nat)
    requires capacity > 0 && i <= j <= |ops|
    ensures var r := Readings(capacity, ops);
      && (OneMoment(r, i, j) <==> exists m :: i <= m <= j && NoDeeper(r, i, j, m))
      && (r[i].dropped == r[j].dropped ==> Stats(r, i, j) == r[i])
  {
    var r := Readings(capacity, ops);
    RunsEvolve(capacity, ops);
    if OneMoment(r, i, j) {
      var m :| i <= m <= j && r[m] == Stats(r, i, j);
      assert NoDeeper(r, i, j, m);
    }
    if m :| i <= m <= j && NoDeeper(r, i, j, m) {
      var k := MomentOfDepth(r, capacity, i, m);
      assert r[k] == Stats(r, i, j);
    }
  }

  /** Without polls the depth never falls, and stays once the queue is full. */
  lemma {:induction false} PushesOnlyDeepen(r: seq<Reading>, capacity: nat, i: nat, m: nat)
    requires Evolves(r, capacity) && i <= m < |r| && OnlyPushes(r, capacity, i, m)
    ensures r[m].depth == Min(r[i].depth + (m - i), capacity)
    decreases m - i
  {
    if i < m {
      PushesOnlyDeepen(r, capacity, i, m - 1);
    }
  }

  /**
   While nobody polls, the pair is that of a single moment if and only if nothing was evicted between the two
   reads or the queue was already full at the first.
   */
  lemma SnapshotWithoutPollsIff<T>(capacity: nat, ops: seq<Op<T>>, i: nat, j: nat)
    requires capacity > 0 && i <= j <= |ops| && forall p :: i <= p < j ==> ops[p].Push?
    ensures var r := Readings(capacity, ops);
      OneMoment(r, i, j) <==> r[i].dropped == r[j].dropped || r[i].depth == capacity
  {
    var r := Readings(capacity, ops);
    RunsEvolve(capacity, ops);
    forall m, n | i <= m && n == m + 1 <= j && n < |r| ensures r[n] == AfterPush(r[m], capacity) {
      OneOp(capacity, ops, m);
    }
    if r[i].dropped == r[j].dropped {
      assert r[i] == Stats(r, i, j);
    } else if r[i].depth == capacity {
      PushesOnlyDeepen(r, capacity, i, j);
      assert r[j] == Stats(r, i, j);
    } else if OneMoment(r, i, j) {
      var m :| i <= m <= j && r[m] == Stats(r, i, j);
      PushesOnlyDeepen(r, capacity, i, m);
    }
  }

  /**
   So the snapshot is not atomic, despite its comment. With capacity 1 and two pushes between the reads, an
   empty queue is reported together with a drop.
   */
  lemma StatsCanBeTorn<T>(x: T, y: T)
    ensures var r := Readings(1, [Push(x), Push(y)]);
      Stats(r, 0, 2) == Reading(0, 1) && !OneMoment(r, 0, 2)
  {
    var ops := [Push(x), Push(y)];
    TwoPushes(ops);
    SnapshotWithoutPollsIff(1, ops, 0, 2);
  }

  lemma TwoPushes<T>(ops: seq<Op<T>>)
    requires |ops| == 2 && ops[0].Push? && ops[1].Push?
    ensures var r := Readings(1, ops);
      r[0] == Reading(0, 0) && r[1] == Reading(1, 0) && r[2] == Reading(1, 1)
  {
    assert ops[..0] == [];
    OneOp(1, ops, 0);
    OneOp(1, ops, 1);
  }

  // ---- All four numbers -----------------------------------------------------------------------------------------

  datatype PhoneCameraStats = PhoneCameraStats(
    queuedFrames: nat, queuedAudio: nat, droppedFrames: nat, droppedAudio: nat)

  /** The four reads of `stats`, in its order, each of the camera as it is at that moment. */
  function StatsOf<F, A>(c1: Camera<F, A>, c2: Camera<F, A>, c3: Camera<F, A>, c4: Camera<F, A>): PhoneCameraStats {
    PhoneCameraStats(|Queue(c1.frames)|, |Queue(c2.audio)|, c3.frames.dropped, c4.audio.dropped)
  }

  /** The same at moments i1 <= i2 <= i3 <= i4 of a run. */
  function CameraStats<F, A>(fc: nat, ac: nat, ops: seq<CameraOp<F, A>>, i1: nat, i2: nat, i3: nat, i4: nat)
    : PhoneCameraStats
    requires i1 <= i2 <= i3 <= i4 <= |ops|
  {
    StatsOf(RunCamera(fc, ac, ops[..i1]), RunCamera(fc, ac, ops[..i2]),
            RunCamera(fc, ac, ops[..i3]), RunCamera(fc, ac, ops[..i4]))
  }

  lemma {:induction false} OpsOfPrefix<F, A>(ops: seq<CameraOp<F, A>>, i: nat)
    requires i <= |ops|
    ensures FrameOps(ops[..i]) <= FrameOps(ops) && AudioOps(ops[..i]) <= AudioOps(ops)
    decreases |ops|
  {
    if i < |ops| {
      OpsOfPrefix(ops[..|ops| - 1], i);
      assert ops[..|ops| - 1][..i] == ops[..i];
    } else {
      assert ops[..i] == ops;
    }
  }

  lemma PrefixOfRun<F, A>(fc: nat, ac: nat, ops: seq<CameraOp<F, A>>, i: nat)
    requires i <= |ops|
    ensures |FrameOps(ops[..i])| <= |FrameOps(ops)| && |AudioOps(ops[..i])| <= |AudioOps(ops)|
    ensures RunCamera(fc, ac, ops[..i])
         == Camera(Run(fc, FrameOps(ops)[..|FrameOps(ops[..i])|]), Run(ac, AudioOps(ops)[..|AudioOps(ops[..i])|]))
  {
    var f, a := FrameOps(ops[..i]), AudioOps(ops[..i]);
    OpsOfPrefix(ops, i);
    assert FrameOps(ops)[..|f|] == f && AudioOps(ops)[..|a|] == a;
    QueuesAreIndependent(fc, ac, ops[..i]);
  }

  lemma LaterMoment<F, A>(ops: seq<CameraOp<F, A>>, i: nat, j: nat)
    requires i <= j <= |ops|
    ensures |FrameOps(ops[..i])| <= |FrameOps(ops[..j])| && |AudioOps(ops[..i])| <= |AudioOps(ops[..j])|
  {
    OpsOfPrefix(ops[..j], i);
    assert ops[..j][..i] == ops[..i];
  }

  /** Each queue's pair in the snapshot is what reading that queue alone gives at the matching moments. */
  lemma CameraStatsByQueue<F, A>(fc: nat, ac: nat, ops: seq<CameraOp<F, A>>, i1: nat, i2: nat, i3: nat, i4: nat)
    requires i1 <= i2 <= i3 <= i4 <= |ops|
    ensures var s := CameraStats(fc, ac, ops, i1, i2, i3, i4);
      var f1, f3 := |FrameOps(ops[..i1])|, |FrameOps(ops[..i3])|;
      var a2, a4 := |AudioOps(ops[..i2])|, |AudioOps(ops[..i4])|;
      && f1 <= f3 <= |FrameOps(ops)| && a2 <= a4 <= |AudioOps(ops)|
      && Reading(s.queuedFrames, s.droppedFrames) == Stats(Readings(fc, FrameOps(ops)), f1, f3)
      && Reading(s.queuedAudio, s.droppedAudio) == Stats(Readings(ac, AudioOps(ops)), a2, a4)
  {
    PrefixOfRun(fc, ac, ops, i1);
    PrefixOfRun(fc, ac, ops, i2);
    PrefixOfRun(fc, ac, ops, i3);
    PrefixOfRun(fc, ac, ops, i4);
    LaterMoment(ops, i1, i3);
    LaterMoment(ops, i2, i4);
  }

  /** The four numbers are the ones some single moment of the snapshot had. */
  ghost predicate StatsOfOneMoment<F, A>(
    fc: nat, ac: nat, ops: seq<CameraOp<F, A>>, i1: nat, i2: nat, i3: nat, i4: nat)
    requires i1 <= i2 <= i3 <= i4 <= |ops|
  {
    exists m :: i1 <= m <= i4 && SameStats(fc, ac, ops, i1, i2, i3, i4, m)
  }

  predicate SameStats<F, A>(fc: nat, ac: nat, ops: seq<CameraOp<F, A>>, i1: nat, i2: nat, i3: nat, i4: nat, m: nat)
    requires i1 <= i2 <= i3 <= i4 <= |ops| && m <= |ops|
  {
    CameraStats(fc, ac, ops, m, m, m, m) == CameraStats(fc, ac, ops, i1, i2, i3, i4)
  }

  /** One queue's depth and drop counter at a moment of the camera's run. */
  function CameraReading<F, A>(fc: nat, ac: nat, ops: seq<CameraOp<F, A>>, onFrames: bool, m: nat): Reading
    requires m <= |ops|
  {
    if onFrames then ReadingOf(RunCamera(fc, ac, ops[..m]).frames) else ReadingOf(RunCamera(fc, ac, ops[..m]).audio)
  }

  predicate IsPush<F, A>(op: CameraOp<F, A>) {
    match op
    case OnFrames(f) => f.Push?
    case OnAudio(a) => a.Push?
  }

  ghost predicate PushesOnly<F, A>(ops: seq<CameraOp<F, A>>, i: nat, j: nat)
    requires j <= |ops|
  {
    forall p :: i <= p < j ==> IsPush(ops[p])
  }

  /** How many of the first m operations are on the one queue. */
  function Arrived<F, A>(ops: seq<CameraOp<F, A>>, onFrames: bool, m: nat): nat
    requires m <= |ops|
  {
    if m == 0 then 0 else Arrived(ops, onFrames, m - 1) + if ops[m - 1].OnFrames? == onFrames then 1 else 0
  }

  ghost predicate Quiet<F, A>(ops: seq<CameraOp<F, A>>, onFrames: bool, i: nat, j: nat)
    requires j <= |ops|
  {
    forall p :: i <= p < j ==> ops[p].OnFrames? != onFrames
  }

  lemma {:induction false} QuietIff<F, A>(ops: seq<CameraOp<F, A>>, onFrames: bool, i: nat, j: nat)
    requires i <= j <= |ops|
    ensures Arrived(ops, onFrames, i) <= Arrived(ops, onFrames, j)
    ensures Arrived(ops, onFrames, i) == Arrived(ops, onFrames, j) <==> Quiet(ops, onFrames, i, j)
    decreases j - i
  {
    if i < j {
      QuietIff(ops, onFrames, i, j - 1);
      assert Quiet(ops, onFrames, i, j) <==> Quiet(ops, onFrames, i, j - 1) && ops[j - 1].OnFrames? != onFrames;
    }
  }

  /** One queue's reading after an operation on either queue. */
  function AfterOp<F, A>(x: Reading, op: CameraOp<F, A>, onFrames: bool, capacity: nat): Reading {
    if op.OnFrames? != onFrames then x else if IsPush(op) then AfterPush(x, capacity) else AfterPoll(x)
  }

  /** The readings of one queue at every moment of the camera's run. */
  function CameraReadings<F, A>(fc: nat, ac: nat, ops: seq<CameraOp<F, A>>, onFrames: bool): (r: seq<Reading>)
    ensures |r| == |ops| + 1
  {
    seq(|ops| + 1, m requires 0 <= m <= |ops| => CameraReading(fc, ac, ops, onFrames, m))
  }

  predicate BoundedAt(r: seq<Reading>, capacity: nat, m: nat)
    requires m < |r|
  {
    r[m].depth <= capacity
  }

  predicate FollowsAt<F, A>(r: seq<Reading>, ops: seq<CameraOp<F, A>>, onFrames: bool, capacity: nat, m: nat)
    requires m < |ops| && |r| == |ops| + 1
  {
    r[m + 1] == AfterOp(r[m], ops[m], onFrames, capacity)
  }

  ghost predicate Follows<F, A>(r: seq<Reading>, ops: seq<CameraOp<F, A>>, onFrames: bool, capacity: nat) {
    && |r| == |ops| + 1
    && (forall m :: 0 <= m < |r| ==> BoundedAt(r, capacity, m))
    && (forall m :: 0 <= m < |ops| ==> FollowsAt(r, ops, onFrames, capacity, m))
  }

  lemma CameraAppend<F, A>(fc: nat, ac: nat, ops: seq<CameraOp<F, A>>, op: CameraOp<F, A>)
    ensures RunCamera(fc, ac, ops + [op]) == ApplyCamera(RunCamera(fc, ac, ops), op)
  {
    assert (ops + [op])[..|ops|] == ops;
  }

  lemma CameraStep<F, A>(before: Camera<F, A>, op: CameraOp<F, A>, onFrames: bool)
    requires Consistent(before.frames) && Consistent(before.audio)
    ensures var after := ApplyCamera(before, op);
      if onFrames then ReadingOf(after.frames) == AfterOp(ReadingOf(before.frames), op, true, before.frames.capacity)
      else ReadingOf(after.audio) == AfterOp(ReadingOf(before.audio), op, false, before.audio.capacity)
  {
  }

  lemma CameraConsistent<F, A>(fc: nat, ac: nat, ops: seq<CameraOp<F, A>>)
    requires fc > 0 && ac > 0
    ensures var c := RunCamera(fc, ac, ops);
      Consistent(c.frames) && Consistent(c.audio) && c.frames.capacity == fc && c.audio.capacity == ac
  {
    QueuesAreIndependent(fc, ac, ops);
    EveryRunIsConsistent(fc, FrameOps(ops));
    EveryRunIsConsistent(ac, AudioOps(ops));
  }

  lemma ReadingFollows<F, A>(fc: nat, ac: nat, ops: seq<CameraOp<F, A>>, onFrames: bool, m: nat)
    requires fc > 0 && ac > 0 && m < |ops|
    ensures CameraReading(fc, ac, ops, onFrames, m + 1)
         == AfterOp(CameraReading(fc, ac, ops, onFrames, m), ops[m], onFrames, if onFrames then fc else ac)
  {
    var before := ops[..m];
    assert ops[..m + 1] == before + [ops[m]];
    CameraAppend(fc, ac, before, ops[m]);
    CameraConsistent(fc, ac, before);
    CameraStep(RunCamera(fc, ac, before), ops[m], onFrames);
  }

  lemma CameraFollows<F, A>(fc: nat, ac: nat, ops: seq<CameraOp<F, A>>, onFrames: bool)
    requires fc > 0 && ac > 0
    ensures Follows(CameraReadings(fc, ac, ops, onFrames), ops, onFrames, if onFrames then fc else ac)
  {
    var r, capacity := CameraReadings(fc, ac, ops, onFrames), if onFrames then fc else ac;
    forall m | 0 <= m < |r| ensures BoundedAt(r, capacity, m) {
      CameraConsistent(fc, ac, ops[..m]);
    }
    forall m | 0 <= m < |ops| ensures FollowsAt(r, ops, onFrames, capacity, m) {
      ReadingFollows(fc, ac, ops, onFrames, m);
    }
  }

  /** A reading n pushes after x: they fill the queue first and evict afterwards. */
  predicate Later(x: Reading, y: Reading, n: nat, capacity: nat) {
    y.depth == Min(x.depth + n, capacity) && y.dropped + y.depth == x.dropped + x.depth + n
  }

  lemma OneMorePush(x: Reading, y: Reading, n: nat, capacity: nat)
    requires x.depth <= capacity && Later(x, y, n, capacity)
    ensures Later(x, AfterPush(y, capacity), n + 1, capacity)
  {
  }

  lemma {:induction false} PushesOnWindow<F, A>(
    r: seq<Reading>, ops: seq<CameraOp<F, A>>, onFrames: bool, capacity: nat, i: nat, j: nat)
    requires Follows(r, ops, onFrames, capacity) && i <= j <= |ops| && PushesOnly(ops, i, j)
    ensures Arrived(ops, onFrames, i) <= Arrived(ops, onFrames, j)
    ensures Later(r[i], r[j], Arrived(ops, onFrames, j) - Arrived(ops, onFrames, i), capacity)
    decreases j - i
  {
    assert BoundedAt(r, capacity, i);
    if i < j {
      PushesOnWindow(r, ops, onFrames, capacity, i, j - 1);
      assert IsPush(ops[j - 1]);
      assert FollowsAt(r, ops, onFrames, capacity, j - 1);
      OneMorePush(r[i], r[j - 1], Arrived(ops, onFrames, j - 1) - Arrived(ops, onFrames, i), capacity);
    }
  }

  /** Without an operation on it a queue reads the same, and its drop counter never falls. */
  lemma {:induction false} WindowReadings<F, A>(
    r: seq<Reading>, ops: seq<CameraOp<F, A>>, onFrames: bool, capacity: nat, i: nat, j: nat)
    requires Follows(r, ops, onFrames, capacity) && i <= j <= |ops|
    ensures r[i].dropped <= r[j].dropped
    ensures Quiet(ops, onFrames, i, j) ==> r[i] == r[j]
    decreases j - i
  {
    if i < j {
      WindowReadings(r, ops, onFrames, capacity, i, j - 1);
      assert FollowsAt(r, ops, onFrames, capacity, j - 1);
    }
  }

  /**
   x is a queue's reading when its depth is read, y when its counter is read and z at a third moment, n and k
   pushes after x. The pair read is z exactly if the queue was full at x and z has seen the pushes y has, or
   nothing was evicted by y and z has seen those of x.
   */
  lemma PairIsReadingIff(x: Reading, y: Reading, n: nat, z: Reading, k: nat, capacity: nat)
    requires x.depth <= capacity && Later(x, y, n, capacity) && Later(x, z, k, capacity)
    ensures z == Reading(x.depth, y.dropped) <==>
      if x.depth == capacity then k == n else y.dropped == x.dropped && k == 0
    ensures x.dropped == y.dropped && x.depth == capacity ==> n == 0
  {
  }

  /** The same for a moment z before x, k pushes earlier. */
  lemma EarlierPairIff(z: Reading, x: Reading, k: nat, y: Reading, n: nat, capacity: nat)
    requires z.depth <= capacity && Later(z, x, k, capacity) && Later(x, y, n, capacity)
    ensures z == Reading(x.depth, y.dropped) <==>
      if x.depth == capacity then k == 0 && n == 0 else y.dropped == x.dropped && k == 0
    ensures x.dropped == y.dropped && x.depth == capacity ==> n == 0
  {
  }

  /** Between the moments i and j nothing arrives at the other queue after something arrived at the one. */
  ghost predicate NoneAfter<F, A>(ops: seq<CameraOp<F, A>>, onFrames: bool, i: nat, j: nat)
    requires j <= |ops|
  {
    forall p, q :: i <= p < q < j && ops[p].OnFrames? == onFrames ==> ops[q].OnFrames? == onFrames
  }

  lemma MeetingMoment<F, A>(ops: seq<CameraOp<F, A>>, onFrames: bool, i: nat, j: nat) returns (m: nat)
    requires i <= j <= |ops| && NoneAfter(ops, onFrames, i, j)
    ensures i <= m <= j && Quiet(ops, onFrames, i, m) && Quiet(ops, !onFrames, m, j)
    decreases j - i
  {
    m := i;
    if i < j && ops[i].OnFrames? != onFrames {
      m := MeetingMoment(ops, onFrames, i + 1, j);
    }
  }

  /** A moment that has seen what the one queue had at i and the other at j exists exactly in that case. */
  lemma MeetingMomentIff<F, A>(ops: seq<CameraOp<F, A>>, onFrames: bool, i: nat, j: nat, lo: nat, hi: nat)
    requires lo <= i <= j <= hi <= |ops|
    ensures NoneAfter(ops, onFrames, i, j) <==> exists m :: lo <= m <= hi && Meets(ops, onFrames, i, j, m)
  {
    if NoneAfter(ops, onFrames, i, j) {
      var m := MeetingMoment(ops, onFrames, i, j);
      QuietIff(ops, onFrames, i, m);
      QuietIff(ops, !onFrames, m, j);
      assert Meets(ops, onFrames, i, j, m);
    }
    if m :| lo <= m <= hi && Meets(ops, onFrames, i, j, m) {
      forall p, q | i <= p < q < j && ops[p].OnFrames? == onFrames ensures ops[q].OnFrames? == onFrames {
        if m <= p {
          QuietIff(ops, !onFrames, m, j);
        } else {
          QuietIff(ops, onFrames, i, m);
        }
      }
    }
  }

  ghost predicate Meets<F, A>(ops: seq<CameraOp<F, A>>, onFrames: bool, i: nat, j: nat, m: nat)
    requires i <= |ops| && j <= |ops| && m <= |ops|
  {
    && Arrived(ops, onFrames, m) == Arrived(ops, onFrames, i)
    && Arrived(ops, !onFrames, m) == Arrived(ops, !onFrames, j)
  }

  /** The pair read of one queue is torn for good: it was not full, and something was evicted meanwhile. */
  predicate Torn(atDepth: Reading, atCounter: Reading, capacity: nat) {
    atDepth.depth < capacity && atDepth.dropped < atCounter.dropped
  }

  /** The moment whose arrivals the pair shows: that of its depth, or of its counter if the queue was full. */
  function Shown(atDepth: Reading, i: nat, j: nat, capacity: nat): nat {
    if atDepth.depth == capacity then j else i
  }

  lemma QueuePairIff<F, A>(
    r: seq<Reading>, ops: seq<CameraOp<F, A>>, onFrames: bool, capacity: nat, i: nat, j: nat, lo: nat, hi: nat, m: nat)
    requires Follows(r, ops, onFrames, capacity)
    requires lo <= i <= j <= hi <= |ops| && lo <= m <= hi && PushesOnly(ops, lo, hi)
    ensures r[m] == Reading(r[i].depth, r[j].dropped) <==>
      && !Torn(r[i], r[j], capacity)
      && Arrived(ops, onFrames, m) == Arrived(ops, onFrames, Shown(r[i], i, j, capacity))
    ensures r[i].dropped == r[j].dropped && r[i].depth == capacity ==>
      Arrived(ops, onFrames, i) == Arrived(ops, onFrames, j)
  {
    var ci, cj, cm := Arrived(ops, onFrames, i), Arrived(ops, onFrames, j), Arrived(ops, onFrames, m);
    PushesOnWindow(r, ops, onFrames, capacity, i, j);
    assert BoundedAt(r, capacity, i) && BoundedAt(r, capacity, m);
    assert Arrived(ops, onFrames, Shown(r[i], i, j, capacity)) == if r[i].depth == capacity then cj else ci;
    if i <= m {
      PushesOnWindow(r, ops, onFrames, capacity, i, m);
      PairIsReadingIff(r[i], r[j], cj - ci, r[m], cm - ci, capacity);
    } else {
      PushesOnWindow(r, ops, onFrames, capacity, m, i);
      EarlierPairIff(r[m], r[i], ci - cm, r[j], cj - ci, capacity);
    }
    TornIff(r[i], r[j], cj - ci, capacity);
  }

  lemma TornIff(x: Reading, y: Reading, n: nat, capacity: nat)
    requires x.depth <= capacity && Later(x, y, n, capacity)
    ensures !Torn(x, y, capacity) <==> x.depth == capacity || x.dropped == y.dropped
  {
  }

  lemma StatsByQueue<F, A>(c1: Camera<F, A>, c2: Camera<F, A>, c3: Camera<F, A>, c4: Camera<F, A>)
    ensures StatsOf(c1, c2, c3, c4) ==
      PhoneCameraStats(ReadingOf(c1.frames).depth, ReadingOf(c2.audio).depth,
                       ReadingOf(c3.frames).dropped, ReadingOf(c4.audio).dropped)
  {
  }

  lemma StatsFromReadings<F, A>(fc: nat, ac: nat, ops: seq<CameraOp<F, A>>, i1: nat, i2: nat, i3: nat, i4: nat)
    requires i1 <= i2 <= i3 <= i4 <= |ops|
    ensures var fr, ar := CameraReadings(fc, ac, ops, true), CameraReadings(fc, ac, ops, false);
      CameraStats(fc, ac, ops, i1, i2, i3, i4)
      == PhoneCameraStats(fr[i1].depth, ar[i2].depth, fr[i3].dropped, ar[i4].dropped)
  {
    StatsByQueue(RunCamera(fc, ac, ops[..i1]), RunCamera(fc, ac, ops[..i2]),
                 RunCamera(fc, ac, ops[..i3]), RunCamera(fc, ac, ops[..i4]));
  }

  lemma StatsByReading<F, A>(fc: nat, ac: nat, ops: seq<CameraOp<F, A>>, i1: nat, i2: nat, i3: nat, i4: nat, m: nat)
    requires i1 <= i2 <= i3 <= i4 <= |ops| && m <= |ops|
    ensures var fr, ar := CameraReadings(fc, ac, ops, true), CameraReadings(fc, ac, ops, false);
      SameStats(fc, ac, ops, i1, i2, i3, i4, m) <==>
        fr[m] == Reading(fr[i1].depth, fr[i3].dropped) && ar[m] == Reading(ar[i2].depth, ar[i4].dropped)
  {
    StatsFromReadings(fc, ac, ops, i1, i2, i3, i4);
    StatsFromReadings(fc, ac, ops, m, m, m, m);
  }

  /** Counters that read the same at both ends of a window have read the same all through it. */
  lemma DropsStand<F, A>(fc: nat, ac: nat, ops: seq<CameraOp<F, A>>, lo: nat, hi: nat)
    requires fc > 0 && ac > 0 && lo <= hi <= |ops|
    requires NothingEvicted(fc, ac, ops, lo, hi)
    ensures var fr, ar := CameraReadings(fc, ac, ops, true), CameraReadings(fc, ac, ops, false);
      forall m :: lo <= m <= hi ==> fr[m].dropped == fr[lo].dropped && ar[m].dropped == ar[lo].dropped
  {
    var fr, ar := CameraReadings(fc, ac, ops, true), CameraReadings(fc, ac, ops, false);
    CameraFollows(fc, ac, ops, true);
    CameraFollows(fc, ac, ops, false);
    forall m | lo <= m <= hi ensures fr[m].dropped == fr[lo].dropped && ar[m].dropped == ar[lo].dropped {
      WindowReadings(fr, ops, true, fc, lo, m);
      WindowReadings(fr, ops, true, fc, m, hi);
      WindowReadings(ar, ops, false, ac, lo, m);
      WindowReadings(ar, ops, false, ac, m, hi);
    }
  }

  /** Neither drop counter moved between the two moments. */
  predicate NothingEvicted<F, A>(fc: nat, ac: nat, ops: seq<CameraOp<F, A>>, lo: nat, hi: nat)
    requires lo <= hi <= |ops|
  {
    var c, d := RunCamera(fc, ac, ops[..lo]), RunCamera(fc, ac, ops[..hi]);
    c.frames.dropped == d.frames.dropped && c.audio.dropped == d.audio.dropped
  }

  /**
   While nobody polls, the four numbers are those of a single moment exactly when neither pair is torn and the
   two pairs are in order: nothing arrives at the queue that is shown later after something arrived at the one
   shown earlier.
   */
  lemma StatsOfOneMomentIff<F, A>(fc: nat, ac: nat, ops: seq<CameraOp<F, A>>, i1: nat, i2: nat, i3: nat, i4: nat)
    requires fc > 0 && ac > 0 && i1 <= i2 <= i3 <= i4 <= |ops| && PushesOnly(ops, i1, i4)
    ensures var x, y := CameraReading(fc, ac, ops, true, i1), CameraReading(fc, ac, ops, false, i2);
      var f, a := Shown(x, i1, i3, fc), Shown(y, i2, i4, ac);
      StatsOfOneMoment(fc, ac, ops, i1, i2, i3, i4) <==>
        && !Torn(x, CameraReading(fc, ac, ops, true, i3), fc)
        && !Torn(y, CameraReading(fc, ac, ops, false, i4), ac)
        && if f <= a then NoneAfter(ops, true, f, a) else NoneAfter(ops, false, a, f)
  {
    var x, y := CameraReading(fc, ac, ops, true, i1), CameraReading(fc, ac, ops, false, i2);
    var f, a := Shown(x, i1, i3, fc), Shown(y, i2, i4, ac);
    var fr, ar := CameraReadings(fc, ac, ops, true), CameraReadings(fc, ac, ops, false);
    CameraFollows(fc, ac, ops, true);
    CameraFollows(fc, ac, ops, false);
    var whole := !Torn(x, fr[i3], fc) && !Torn(y, ar[i4], ac);
    forall m | i1 <= m <= i4
      ensures SameStats(fc, ac, ops, i1, i2, i3, i4, m) <==> whole && Meets(ops, true, f, a, m)
    {
      QueuePairIff(fr, ops, true, fc, i1, i3, i1, i4, m);
      QueuePairIff(ar, ops, false, ac, i2, i4, i1, i4, m);
      StatsByReading(fc, ac, ops, i1, i2, i3, i4, m);
    }
    if f <= a {
      MeetingMomentIff(ops, true, f, a, i1, i4);
    } else {
      MeetingMomentIff(ops, false, a, f, i1, i4);
      forall m | i1 <= m <= i4 ensures Meets(ops, true, f, a, m) <==> Meets(ops, false, a, f, m) {
      }
    }
  }

  /** Without evictions they are exactly when no chunk arrives after a frame between the first two reads. */
  lemma StatsWithoutEvictionsIff<F, A>(
    fc: nat, ac: nat, ops: seq<CameraOp<F, A>>, i1: nat, i2: nat, i3: nat, i4: nat)
    requires fc > 0 && ac > 0 && i1 <= i2 <= i3 <= i4 <= |ops| && PushesOnly(ops, i1, i4)
    requires NothingEvicted(fc, ac, ops, i1, i4)
    ensures StatsOfOneMoment(fc, ac, ops, i1, i2, i3, i4) <==>
      forall p, q :: i1 <= p < q < i2 && ops[p].OnFrames? ==> ops[q].OnFrames?
  {
    var fr, ar := CameraReadings(fc, ac, ops, true), CameraReadings(fc, ac, ops, false);
    DropsStand(fc, ac, ops, i1, i4);
    CameraFollows(fc, ac, ops, true);
    CameraFollows(fc, ac, ops, false);
    forall m | i1 <= m <= i4
      ensures SameStats(fc, ac, ops, i1, i2, i3, i4, m) <==> Meets(ops, true, i1, i2, m)
    {
      QueuePairIff(fr, ops, true, fc, i1, i3, i1, i4, m);
      QueuePairIff(ar, ops, false, ac, i2, i4, i1, i4, m);
      StatsByReading(fc, ac, ops, i1, i2, i3, i4, m);
    }
    MeetingMomentIff(ops, true, i1, i2, i1, i4);
    assert NoneAfter(ops, true, i1, i2) <==>
        forall p, q :: i1 <= p < q < i2 && ops[p].OnFrames? ==> ops[q].OnFrames?;
  }

  /** One half of this holds with polls as well, on either queue and by any handle. */
  lemma StatsWithPolls<F, A>(fc: nat, ac: nat, ops: seq<CameraOp<F, A>>, i1: nat, i2: nat, i3: nat, i4: nat)
    requires fc > 0 && ac > 0 && i1 <= i2 <= i3 <= i4 <= |ops|
    requires NothingEvicted(fc, ac, ops, i1, i4)
    requires forall p, q :: i1 <= p < q < i2 && ops[p].OnFrames? ==> ops[q].OnFrames?
    ensures StatsOfOneMoment(fc, ac, ops, i1, i2, i3, i4)
  {
    var m := MeetingMoment(ops, true, i1, i2);
    CameraFollows(fc, ac, ops, true);
    CameraFollows(fc, ac, ops, false);
    WindowReadings(CameraReadings(fc, ac, ops, true), ops, true, fc, i1, m);
    WindowReadings(CameraReadings(fc, ac, ops, false), ops, false, ac, m, i2);
    DropsStand(fc, ac, ops, i1, i4);
    StatsByReading(fc, ac, ops, i1, i2, i3, i4, m);
    assert SameStats(fc, ac, ops, i1, i2, i3, i4, m);
  }

  lemma ReadingsOfTwo<F, A>(fc: nat, ac: nat, ops: seq<CameraOp<F, A>>, onFrames: bool)
    requires fc > 0 && ac > 0 && |ops| == 2
    ensures var r, capacity := CameraReadings(fc, ac, ops, onFrames), if onFrames then fc else ac;
      && r[0] == Reading(0, 0)
      && r[1] == AfterOp(r[0], ops[0], onFrames, capacity)
      && r[2] == AfterOp(r[1], ops[1], onFrames, capacity)
  {
    var r, capacity := CameraReadings(fc, ac, ops, onFrames), if onFrames then fc else ac;
    FirstReading(fc, ac, ops, onFrames);
    CameraFollows(fc, ac, ops, onFrames);
    assert FollowsAt(r, ops, onFrames, capacity, 0) && FollowsAt(r, ops, onFrames, capacity, 1);
  }

  lemma FirstReading<F, A>(fc: nat, ac: nat, ops: seq<CameraOp<F, A>>, onFrames: bool)
    ensures CameraReading(fc, ac, ops, onFrames, 0) == Reading(0, 0)
  {
    assert ops[..0] == [];
  }

  /** So a frame and then a chunk arriving between the first two reads are reported as a chunk without the frame. */
  lemma QueuesAreReadApart<F, A>(x: F, y: A)
    ensures var ops: seq<CameraOp<F, A>> := [OnFrames(Push(x)), OnAudio(Push(y))];
      && CameraStats(2, 2, ops, 0, 2, 2, 2) == PhoneCameraStats(0, 1, 0, 0)
      && !StatsOfOneMoment(2, 2, ops, 0, 2, 2, 2)
  {
    var ops: seq<CameraOp<F, A>> := [OnFrames(Push(x)), OnAudio(Push(y))];
    var fr, ar := CameraReadings(2, 2, ops, true), CameraReadings(2, 2, ops, false);
    ReadingsOfTwo(2, 2, ops, true);
    ReadingsOfTwo(2, 2, ops, false);
    StatsFromReadings(2, 2, ops, 0, 2, 2, 2);
    StatsFromReadings(2, 2, ops, 0, 0, 0, 0);
    StatsFromReadings(2, 2, ops, 2, 2, 2, 2);
    StatsWithoutEvictionsIff(2, 2, ops, 0, 2, 2, 2);
    assert ops[0].OnFrames? && !ops[1].OnFrames?;
  }
}
