/** The single-producer, single-consumer audio ring: modular slots, 64-bit
    counters that wrap, and copies of single samples made from counter values
    that may be out of date. */
module AudioRing {

  import opened Arithmetic

  const WORD := 0x1_0000_0000_0000_0000

  // The value a 64-bit counter holds.
  function Wrap(x: int): (word: nat)
    ensures word < WORD
  {
    x % WORD
  }

  predicate RingSize(cap: nat) {
    0 < cap < WORD && WORD % cap == 0
  }

  // The default capacity.
  const CAPACITY := 8192

  // ---- Counters and slots ------------------------------------------------------------

  // Position of a sample in the storage, from an unbounded or a wrapped counter.
  function At(cap: nat, channels: nat, counter: nat, channel: nat): (place: nat)
    requires cap > 0
    ensures 1 <= channels <= 2 && channel < channels ==> place < 2 * cap
  {
    (counter % cap) * channels + channel
  }

  // What the code computes: a 64-bit sum, then the remainder.
  function WordAt(cap: nat, channels: nat, counter: nat, frame: nat, channel: nat): nat
    requires cap > 0
  {
    At(cap, channels, Wrap(counter + frame), channel)
  }

  lemma Multiplied(a: int, b: int, c: int)
    ensures (a * b) * c == a * (b * c)
  {
  }

  lemma WrappedRemainder(cap: nat, x: nat)
    requires RingSize(cap)
    ensures Wrap(x) % cap == x % cap
  {
    var q, r := x / WORD, Wrap(x);
    var k := WORD / cap;
    assert WORD == k * cap;
    Multiplied(q, k, cap);
    assert x == (q * k + r / cap) * cap + r % cap;
    QuotientIs(x, q * k + r / cap, r % cap, cap);
  }

  /** Wrapped counters reach the same slots as unbounded ones. */
  lemma WordSlot(cap: nat, channels: nat, h: nat, frame: nat, channel: nat)
    requires RingSize(cap)
    ensures WordAt(cap, channels, Wrap(h), frame, channel) == At(cap, channels, h + frame, channel)
  {
    WrappedRemainder(cap, h + frame);
    assert Wrap(Wrap(h) + frame) == Wrap(h + frame) by { AddWrapped(h, frame); }
  }

  lemma AddWrapped(h: nat, k: nat)
    ensures Wrap(Wrap(h) + k) == Wrap(h + k)
  {
    var s := Wrap(h) + k;
    assert h + k == (h / WORD + s / WORD) * WORD + Wrap(s);
    QuotientIs(h + k, h / WORD + s / WORD, Wrap(s), WORD);
  }

  lemma SubtractWrapped(h: nat, t: nat)
    requires t <= h < t + WORD
    ensures Wrap(Wrap(h) - Wrap(t)) == h - t
  {
    var q := t / WORD - h / WORD;
    assert Wrap(h) - Wrap(t) == q * WORD + (h - t);
    QuotientIs(Wrap(h) - Wrap(t), q, h - t, WORD);
  }

  lemma WrapStep(cap: nat, h: nat)
    requires RingSize(cap)
    ensures NextSlotFollows(cap, h)
  {
    WrappedRemainder(cap, h + 1);
    WrappedRemainder(cap, h);
    AddWrapped(h, 1);
    NextRemainder(h, cap);
  }

  // Otherwise the step at the largest counter value goes wrong.
  lemma WrapFails(cap: nat)
    requires 0 < cap < WORD && WORD % cap != 0
    ensures !NextSlotFollows(cap, WORD - 1)
  {
    var last: nat, words: nat := WORD - 1, WORD;
    NextRemainder(last, cap);
    assert last + 1 == words;
    assert Wrap(last) == last;
    assert (last % cap + 1) % cap == words % cap;
    assert Wrap(words) == 0;
    QuotientIs(0, 0, 0, cap);
  }

  /** Exactly when a counter that wraps steps through the slots in order: when the
      capacity divides the number of counter values. */
  lemma WrapsSafelyIff(cap: nat)
    requires 0 < cap < WORD
    ensures RingSize(cap) <==> forall h: nat :: NextSlotFollows(cap, h)
    ensures RingSize(CAPACITY)
  {
    hide NextSlotFollows;
    if WORD % cap == 0 {
      forall h: nat ensures NextSlotFollows(cap, h) { WrapStep(cap, h); }
    } else {
      WrapFails(cap);
    }
  }

  predicate NextSlotFollows(cap: nat, h: nat)
    requires cap > 0
  {
    Wrap(Wrap(h) + 1) % cap == (Wrap(h) % cap + 1) % cap
  }

  // Two frames less than a ring apart never share storage.
  lemma SlotsApart(cap: nat, channels: nat, i: nat, c: nat, j: nat, d: nat)
    requires cap > 0 && 1 <= channels <= 2 && c < channels && d < channels
    requires i < j < i + cap || (i == j && c != d)
    ensures At(cap, channels, i, c) != At(cap, channels, j, d)
  {
    if i < j { RemaindersDiffer(i, j, cap); }
  }

  // ---- Both threads, one memory access at a time -----------------------------------------

  type Frames<T> = seq<seq<T>>

  datatype Producer<T> =
    | Resting
    | HeadLoaded(source: Frames<T>, head: nat)
    | Copying(source: Frames<T>, head: nat, written: nat, frame: nat, channel: nat)

  datatype Consumer<T> =
    | Idle
    | TailLoaded(count: nat, tail: nat)
    | Reading(count: nat, tail: nat, read: nat, frame: nat, channel: nat, output: Frames<T>, partial: seq<T>)

  // `accepted` and `popped` record all published frames and all returned ones.
  datatype State<T> = State(
    samples: seq<T>, head: nat, tail: nat, underruns: nat,
    producer: Producer<T>, consumer: Consumer<T>, accepted: Frames<T>, popped: Frames<T>)

  datatype Step<T> =
    | Push(source: Frames<T>)
    | LoadTail
    | WriteSample
    | Publish
    | Pop(count: nat)
    | LoadHead
    | ReadSample
    | Release

  predicate Shaped<T>(frames: Frames<T>, channels: nat) {
    forall k :: 0 <= k < |frames| ==> |frames[k]| == channels
  }

  // An empty call returns at once and is no step.
  predicate Enabled<T>(s: State<T>, channels: nat, step: Step<T>) {
    match step
    case Push(source) => s.producer.Resting? && source != [] && Shaped(source, channels)
    case LoadTail => s.producer.HeadLoaded?
    case WriteSample => s.producer.Copying? && s.producer.frame < s.producer.written
    case Publish => s.producer.Copying? && s.producer.frame == s.producer.written
    case Pop(count) => s.consumer.Idle? && count > 0
    case LoadHead => s.consumer.TailLoaded?
    case ReadSample => s.consumer.Reading? && s.consumer.frame < s.consumer.read
    case Release => s.consumer.Reading? && s.consumer.frame == s.consumer.read
  }

  function Min(a: nat, b: nat): nat {
    if a < b then a else b
  }

  // The places the producer writes next and the consumer reads next.
  function WritePlace<T>(s: State<T>, cap: nat, channels: nat): nat
    requires cap > 0 && s.producer.Copying?
  {
    WordAt(cap, channels, s.producer.head, s.producer.frame, s.producer.channel)
  }

  function ReadPlace<T>(s: State<T>, cap: nat, channels: nat): nat
    requires cap > 0 && s.consumer.Reading?
  {
    WordAt(cap, channels, s.consumer.tail, s.consumer.frame, s.consumer.channel)
  }

  // Indices stay in bounds in every reachable state; see Inv.
  predicate InBounds<T>(s: State<T>, cap: nat, channels: nat)
    requires cap > 0
  {
    && (s.producer.Copying? && s.producer.frame < s.producer.written ==>
          WritePlace(s, cap, channels) < |s.samples| && s.producer.frame < |s.producer.source| &&
          s.producer.channel < |s.producer.source[s.producer.frame]|)
    && (s.producer.Copying? ==> s.producer.written <= |s.producer.source|)
    && (s.consumer.Reading? && s.consumer.frame < s.consumer.read ==> ReadPlace(s, cap, channels) < |s.samples|)
  }

  function Next<T>(s: State<T>, cap: nat, channels: nat, step: Step<T>): State<T>
    requires cap > 0 && InBounds(s, cap, channels) && Enabled(s, channels, step)
  {
    match step
    case Push(source) => s.(producer := HeadLoaded(source, s.head))
    case LoadTail =>
      var p := s.producer;
      var available: nat := Wrap(cap - Wrap(p.head - s.tail));
      s.(producer := Copying(p.source, p.head, Min(|p.source|, available), 0, 0))
    case WriteSample =>
      var p := s.producer;
      var next := if p.channel + 1 < channels then p.(channel := p.channel + 1)
                  else p.(frame := p.frame + 1, channel := 0);
      s.(samples := s.samples[WritePlace(s, cap, channels) := p.source[p.frame][p.channel]], producer := next)
    case Publish =>
      var p := s.producer;
      s.(head := Wrap(p.head + p.written), accepted := s.accepted + p.source[..p.written], producer := Resting)
    case Pop(count) => s.(consumer := TailLoaded(count, s.tail))
    case LoadHead =>
      var c := s.consumer;
      var readable: nat := Wrap(s.head - c.tail);
      s.(consumer := Reading(c.count, c.tail, Min(c.count, readable), 0, 0, [], []))
    case ReadSample =>
      var c := s.consumer;
      var partial := c.partial + [s.samples[ReadPlace(s, cap, channels)]];
      s.(consumer := if c.channel + 1 < channels then c.(channel := c.channel + 1, partial := partial)
                     else c.(frame := c.frame + 1, channel := 0, output := c.output + [partial], partial := []))
    case Release =>
      var c := s.consumer;
      s.(underruns := if c.read < c.count then s.underruns + 1 else s.underruns,
         tail := Wrap(c.tail + c.read), popped := s.popped + c.output, consumer := Idle)
  }

  ghost predicate Initial<T>(s: State<T>, cap: nat) {
    && |s.samples| == 2 * cap && s.head == s.tail == s.underruns == 0
    && s.producer.Resting? && s.consumer.Idle? && s.accepted == s.popped == []
  }

  // ---- What always holds --------------------------------------------------------------

  ghost predicate Counters<T>(s: State<T>, cap: nat, channels: nat) {
    && RingSize(cap) && 1 <= channels <= 2 && |s.samples| == 2 * cap
    && s.head == Wrap(|s.accepted|) && s.tail == Wrap(|s.popped|)
    && s.popped <= s.accepted && |s.accepted| <= |s.popped| + cap && Shaped(s.accepted, channels)
  }

  // Every frame not yet popped is in its slot.
  ghost predicate Stored<T>(s: State<T>, cap: nat, channels: nat)
    requires Counters(s, cap, channels)
  {
    forall j: nat, c: nat :: |s.popped| <= j < |s.accepted| && c < channels ==>
      s.samples[At(cap, channels, j, c)] == s.accepted[j][c]
  }

  predicate Before(f: nat, c: nat, frame: nat, channel: nat) {
    f < frame || (f == frame && c < channel)
  }

  ghost predicate ProducerFits<T>(s: State<T>, cap: nat, channels: nat)
    requires Counters(s, cap, channels)
  {
    match s.producer
    case Resting => true
    case HeadLoaded(source, head) => head == s.head && Shaped(source, channels)
    case Copying(source, head, written, frame, channel) =>
      && head == s.head && Shaped(source, channels) && frame <= written <= |source|
      && |s.accepted| + written <= |s.popped| + cap
      && channel < channels && (frame == written ==> channel == 0)
      && (forall f: nat, c: nat :: f < written && c < channels && Before(f, c, frame, channel) ==>
            s.samples[At(cap, channels, |s.accepted| + f, c)] == source[f][c])
  }

  ghost predicate ConsumerFits<T>(s: State<T>, cap: nat, channels: nat)
    requires Counters(s, cap, channels)
  {
    match s.consumer
    case Idle => true
    case TailLoaded(_, tail) => tail == s.tail
    case Reading(count, tail, read, frame, channel, output, partial) =>
      && tail == s.tail && |s.popped| + read <= |s.accepted| && frame <= read <= count && channel < channels
      && output == s.accepted[|s.popped|..|s.popped| + frame]
      && (frame < read ==> partial == s.accepted[|s.popped| + frame][..channel])
      && (frame == read ==> channel == 0)
  }

  ghost predicate Inv<T>(s: State<T>, cap: nat, channels: nat) {
    Counters(s, cap, channels) && Stored(s, cap, channels) && ProducerFits(s, cap, channels) && ConsumerFits(s, cap, channels)
  }

  lemma InvInBounds<T>(s: State<T>, cap: nat, channels: nat)
    requires Inv(s, cap, channels)
    ensures InBounds(s, cap, channels)
    ensures s.producer.Copying? ==>
              WritePlace(s, cap, channels) == At(cap, channels, |s.accepted| + s.producer.frame, s.producer.channel)
    ensures s.consumer.Reading? ==>
              ReadPlace(s, cap, channels) == At(cap, channels, |s.popped| + s.consumer.frame, s.consumer.channel)
  {
    hide At, WordAt;
    if s.producer.Copying? {
      WordSlot(cap, channels, |s.accepted|, s.producer.frame, s.producer.channel);
    }
    if s.consumer.Reading? {
      WordSlot(cap, channels, |s.popped|, s.consumer.frame, s.consumer.channel);
    }
  }

  /** A push accepts as many frames as fit when it reads the consumer's counter;
      a pop takes as many as are there when it reads the producer's. */
  lemma SnapshotsExact<T>(s: State<T>, cap: nat, channels: nat)
    requires Inv(s, cap, channels)
    ensures s.producer.HeadLoaded? ==>
              Wrap(cap - Wrap(s.producer.head - s.tail)) == cap - (|s.accepted| - |s.popped|)
    ensures s.consumer.TailLoaded? ==> Wrap(s.head - s.consumer.tail) == |s.accepted| - |s.popped|
  {
    hide Wrap, Stored, At, WordAt;
    SubtractWrapped(|s.accepted|, |s.popped|);
    WrapSmall(cap - (|s.accepted| - |s.popped|));
  }

  lemma CallKeeps<T>(s: State<T>, cap: nat, channels: nat, step: Step<T>)
    requires Inv(s, cap, channels) && InBounds(s, cap, channels) && Enabled(s, channels, step) && (step.Push? || step.Pop?)
    ensures Inv(Next(s, cap, channels, step), cap, channels)
  {
    hide At, WordAt;
  }

  lemma LoadTailKeeps<T>(s: State<T>, cap: nat, channels: nat)
    requires Inv(s, cap, channels) && InBounds(s, cap, channels) && Enabled(s, channels, LoadTail)
    ensures Inv(Next(s, cap, channels, LoadTail), cap, channels)
  {
    hide At, WordAt, WritePlace, ReadPlace, Wrap;
    SnapshotsExact(s, cap, channels);
    hide RingSize;
    var s' := Next(s, cap, channels, LoadTail);
    assert s'.producer.written == Min(|s.producer.source|, cap - (|s.accepted| - |s.popped|));
    assert Counters(s', cap, channels) && Stored(s', cap, channels) && ConsumerFits(s', cap, channels);
  }

  lemma LoadHeadKeeps<T>(s: State<T>, cap: nat, channels: nat)
    requires Inv(s, cap, channels) && InBounds(s, cap, channels) && Enabled(s, channels, LoadHead)
    ensures Inv(Next(s, cap, channels, LoadHead), cap, channels)
  {
    hide At, WordAt, WritePlace, ReadPlace, Wrap;
    SnapshotsExact(s, cap, channels);
    hide RingSize;
    var s' := Next(s, cap, channels, LoadHead);
    assert s'.consumer.read == Min(s.consumer.count, |s.accepted| - |s.popped|);
    assert Counters(s', cap, channels) && Stored(s', cap, channels) && ProducerFits(s', cap, channels);
  }

  /** The producer's write goes to none of the places that hold a frame not yet
      popped or a sample of this push already written. */
  lemma WriteMissesLive<T>(s: State<T>, cap: nat, channels: nat, j: nat, c: nat)
    requires Inv(s, cap, channels) && s.producer.Copying? && s.producer.frame < s.producer.written && c < channels
    requires |s.popped| <= j
    requires j < |s.accepted| || Before(j - |s.accepted|, c, s.producer.frame, s.producer.channel)
    ensures At(cap, channels, j, c) != WritePlace(s, cap, channels)
  {
    hide At, WordAt, WritePlace, ReadPlace, Stored;
    var p := s.producer;
    InvInBounds(s, cap, channels);
    SlotsApart(cap, channels, j, c, |s.accepted| + p.frame, p.channel);
  }

  lemma WriteKeeps<T>(s: State<T>, cap: nat, channels: nat)
    requires Inv(s, cap, channels) && InBounds(s, cap, channels) && Enabled(s, channels, WriteSample)
    ensures Inv(Next(s, cap, channels, WriteSample), cap, channels)
  {
    hide At, WordAt, WritePlace, ReadPlace, Wrap;
    var s' := Next(s, cap, channels, WriteSample);
    var p := s.producer;
    InvInBounds(s, cap, channels);
    assert Counters(s', cap, channels);
    forall j: nat, c: nat | |s.popped| <= j < |s.accepted| && c < channels
      ensures s'.samples[At(cap, channels, j, c)] == s.accepted[j][c]
    {
      WriteMissesLive(s, cap, channels, j, c);
    }
    assert Stored(s', cap, channels) && ConsumerFits(s', cap, channels);
    forall f: nat, c: nat | f < p.written && c < channels && Before(f, c, s'.producer.frame, s'.producer.channel)
      ensures s'.samples[At(cap, channels, |s.accepted| + f, c)] == p.source[f][c]
    {
      if f != p.frame || c != p.channel {
        assert Before(f, c, p.frame, p.channel);
        WriteMissesLive(s, cap, channels, |s.accepted| + f, c);
      }
    }
  }

  lemma PublishKeeps<T>(s: State<T>, cap: nat, channels: nat)
    requires Inv(s, cap, channels) && InBounds(s, cap, channels) && Enabled(s, channels, Publish)
    ensures Inv(Next(s, cap, channels, Publish), cap, channels)
  {
    hide At, WordAt, WritePlace, ReadPlace, Wrap;
    var s' := Next(s, cap, channels, Publish);
    var p := s.producer;
    AddWrapped(|s.accepted|, p.written);
    assert Counters(s', cap, channels);
    forall j: nat, c: nat | |s.popped| <= j < |s'.accepted| && c < channels
      ensures s'.samples[At(cap, channels, j, c)] == s'.accepted[j][c]
    {
      if j >= |s.accepted| {
        var f: nat := j - |s.accepted|;
        assert Before(f, c, p.frame, p.channel);
        assert |s.accepted| + f == j;
      }
    }
    assert Stored(s', cap, channels);
    if s.consumer.Reading? {
      var c := s.consumer;
      assert s'.accepted[|s.popped|..|s.popped| + c.frame] == s.accepted[|s.popped|..|s.popped| + c.frame];
    }
  }

  lemma ReadKeeps<T>(s: State<T>, cap: nat, channels: nat)
    requires Inv(s, cap, channels) && InBounds(s, cap, channels) && Enabled(s, channels, ReadSample)
    ensures Inv(Next(s, cap, channels, ReadSample), cap, channels)
  {
    hide At, WordAt, WritePlace, ReadPlace, Wrap;
    var s' := Next(s, cap, channels, ReadSample);
    var c := s.consumer;
    InvInBounds(s, cap, channels);
    assert Counters(s', cap, channels) && Stored(s', cap, channels) && ProducerFits(s', cap, channels);
    var frame := s.accepted[|s.popped| + c.frame];
    assert c.partial + [frame[c.channel]] == frame[..c.channel + 1];
    assert frame[..channels] == frame;
    assert c.output + [frame] == s.accepted[|s.popped|..|s.popped| + c.frame + 1];
  }

  lemma ReleaseKeeps<T>(s: State<T>, cap: nat, channels: nat)
    requires Inv(s, cap, channels) && InBounds(s, cap, channels) && Enabled(s, channels, Release)
    ensures Inv(Next(s, cap, channels, Release), cap, channels)
  {
    hide At, WordAt, WritePlace, ReadPlace, Wrap;
    var s' := Next(s, cap, channels, Release);
    AddWrapped(|s.popped|, s.consumer.read);
    assert s'.popped == s.accepted[..|s'.popped|];
    assert Counters(s', cap, channels);
  }

  lemma StepKeeps<T>(s: State<T>, cap: nat, channels: nat, step: Step<T>)
    requires Inv(s, cap, channels) && InBounds(s, cap, channels) && Enabled(s, channels, step)
    ensures Inv(Next(s, cap, channels, step), cap, channels)
  {
    hide Inv, InBounds, Enabled, Next;
    match step
    case Push(_) => CallKeeps(s, cap, channels, step);
    case Pop(_) => CallKeeps(s, cap, channels, step);
    case LoadTail => LoadTailKeeps(s, cap, channels);
    case LoadHead => LoadHeadKeeps(s, cap, channels);
    case WriteSample => WriteKeeps(s, cap, channels);
    case Publish => PublishKeeps(s, cap, channels);
    case ReadSample => ReadKeeps(s, cap, channels);
    case Release => ReleaseKeeps(s, cap, channels);
  }

  ghost predicate Steps<T(!new)>(s: State<T>, s': State<T>, cap: nat, channels: nat)
    requires cap > 0
  {
    InBounds(s, cap, channels) && exists step :: Enabled(s, channels, step) && s' == Next(s, cap, channels, step)
  }

  ghost predicate IsRun<T(!new)>(run: seq<State<T>>, cap: nat, channels: nat) {
    && RingSize(cap) && 1 <= channels <= 2 && run != [] && Initial(run[0], cap)
    && forall n :: 0 < n < |run| ==> Steps(run[n - 1], run[n], cap, channels)
  }

  lemma {:induction false} RunInv<T(!new)>(run: seq<State<T>>, cap: nat, channels: nat, n: nat)
    requires IsRun(run, cap, channels) && n < |run|
    ensures Inv(run[n], cap, channels)
  {
    hide InBounds, Enabled, Next;
    if n > 0 {
      hide Inv;
      RunInv(run, cap, channels, n - 1);
      var s := run[n - 1];
      assert Steps(s, run[n], cap, channels);
      var step :| Enabled(s, channels, step) && run[n] == Next(s, cap, channels, step);
      StepKeeps(s, cap, channels, step);
    }
  }

  /** The ring is a bounded FIFO under every interleaving: what was popped is a
      prefix of what was accepted, at most `cap` frames lie between them, and a
      pop in progress is copying the very next frames. */
  lemma RingIsFifo<T(!new)>(run: seq<State<T>>, cap: nat, channels: nat, n: nat)
    requires IsRun(run, cap, channels) && n < |run|
    ensures var s := run[n];
            && s.popped <= s.accepted && |s.accepted| - |s.popped| <= cap
            && Wrap(s.head - s.tail) == |s.accepted| - |s.popped|
            && (s.consumer.Reading? ==> s.popped + s.consumer.output <= s.accepted)
  {
    RunInv(run, cap, channels, n);
    var s := run[n];
    SubtractWrapped(|s.accepted|, |s.popped|);
    if s.consumer.Reading? {
      assert s.popped + s.consumer.output == s.accepted[..|s.popped| + s.consumer.frame];
    }
  }

  /** In every run a push decides to take exactly as many of its frames as there is room
      for when it loads the consumer's counter, and a pop exactly as many as there are when
      it loads the producer's; a push that ends has added just those frames, and a pop that
      ends has returned the oldest frames in order and counts an underrun if there were
      too few. */
  lemma CountsExact<T(!new)>(run: seq<State<T>>, cap: nat, channels: nat, n: nat)
    requires IsRun(run, cap, channels) && n < |run|
    ensures InBounds(run[n], cap, channels)
    ensures var s := run[n];
            var room, content := cap - (|s.accepted| - |s.popped|), |s.accepted| - |s.popped|;
            && room >= 0 && content >= 0
            && (Enabled(s, channels, LoadTail) ==>
                  var p := Next(s, cap, channels, LoadTail).producer;
                  p.written == (if |s.producer.source| <= room then |s.producer.source| else room))
            && (Enabled(s, channels, LoadHead) ==>
                  var c := Next(s, cap, channels, LoadHead).consumer;
                  c.read == (if s.consumer.count <= content then s.consumer.count else content))
            && (Enabled(s, channels, Publish) ==>
                  Next(s, cap, channels, Publish).accepted == s.accepted + s.producer.source[..s.producer.written])
            && (Enabled(s, channels, Release) ==>
                  var s', read := Next(s, cap, channels, Release), s.consumer.read;
                  && |s.popped| + read <= |s.accepted|
                  && s'.popped == s.popped + s.accepted[|s.popped|..|s.popped| + read]
                  && s'.underruns == s.underruns + if read < s.consumer.count then 1 else 0)
  {
    hide At, WordAt, WritePlace, ReadPlace, Wrap, Stored;
    RunInv(run, cap, channels, n);
    InvInBounds(run[n], cap, channels);
    SnapshotsExact(run[n], cap, channels);
  }

  /** While both sides copy, they never touch the same place. */
  lemma NoSharedPlace<T(!new)>(run: seq<State<T>>, cap: nat, channels: nat, n: nat)
    requires IsRun(run, cap, channels) && n < |run|
    requires Enabled(run[n], channels, WriteSample) && Enabled(run[n], channels, ReadSample)
    ensures WritePlace(run[n], cap, channels) != ReadPlace(run[n], cap, channels)
  {
    hide At, WordAt, WritePlace, ReadPlace, Wrap;
    RunInv(run, cap, channels, n);
    var s := run[n];
    InvInBounds(s, cap, channels);
    WriteMissesLive(s, cap, channels, |s.popped| + s.consumer.frame, s.consumer.channel);
  }

  // No access of any run is outside the storage.
  lemma RunInBounds<T(!new)>(run: seq<State<T>>, cap: nat, channels: nat, n: nat)
    requires IsRun(run, cap, channels) && n < |run|
    ensures InBounds(run[n], cap, channels)
  {
    RunInv(run, cap, channels, n);
    InvInBounds(run[n], cap, channels);
  }

  // ---- Asking how full the ring is ----------------------------------------------------------

  // From two separate loads, in either order.
  function Available(head: nat, tail: nat): nat {
    Wrap(head - tail)
  }

  lemma SameDifference(a: nat, b: nat, c: nat, d: nat)
    requires a < WORD && b < WORD && c < WORD && d < WORD && (a == c || b == d)
    ensures Wrap(a - b) == Wrap(c - d) <==> a == c && b == d
  {
  }

  /** The answer is the content of the ring at the later load exactly when the
      counter that was loaded first has not changed its value in between. */
  lemma AvailableExactIff<T(!new)>(run: seq<State<T>>, cap: nat, channels: nat, m: nat, n: nat)
    requires IsRun(run, cap, channels) && m < |run| && n < |run|
    ensures var s, answer := run[if m <= n then n else m], Available(run[m].head, run[n].tail);
            answer == |s.accepted| - |s.popped| <==> run[m].head == s.head && run[n].tail == s.tail
  {
    hide Wrap;
    var last := if m <= n then n else m;
    RunInv(run, cap, channels, m);
    RunInv(run, cap, channels, n);
    RingIsFifo(run, cap, channels, last);
    SameDifference(run[m].head, run[n].tail, run[last].head, run[last].tail);
  }

  // Reachable with one channel from a first state whose counters are 0.
  ghost predicate Reachable(s: State<int>, cap: nat) {
    exists run :: IsRun(run, cap, 1) && run[|run| - 1] == s
  }

  lemma ReachStep(s: State<int>, cap: nat, step: Step<int>, s': State<int>)
    requires cap > 0 && Reachable(s, cap) && Enabled(s, 1, step) && InBounds(s, cap, 1) && s' == Next(s, cap, 1, step)
    ensures Reachable(s', cap)
  {
    hide Initial, Enabled, Next, InBounds;
    var run :| IsRun(run, cap, 1) && run[|run| - 1] == s;
    var longer := run + [s'];
    assert Steps(s, s', cap, 1);
    forall n | 0 < n < |longer| ensures Steps(longer[n - 1], longer[n], cap, 1) {
      if n < |run| { assert Steps(run[n - 1], run[n], cap, 1); }
    }
    assert IsRun(longer, cap, 1) && longer[|longer| - 1] == s';
  }

  // A ring of zeros but for its first sample.
  function Passing(cap: nat, first: int, head: nat, tail: nat, producer: Producer<int>, consumer: Consumer<int>): State<int>
    requires cap > 0
  {
    State([first] + seq(2 * cap - 1, _ => 0), head, tail, 0, producer, consumer,
          if head == 0 then [] else [[7]], if tail == 0 then [] else [[7]])
  }

  lemma FrameAccepted(cap: nat)
    requires RingSize(cap)
    ensures Reachable(Passing(cap, 0, 0, 0, Copying([[7]], 0, 1, 0, 0), Idle), cap)
  {
    var s0 := Passing(cap, 0, 0, 0, Resting, Idle);
    assert IsRun([s0], cap, 1) && Reachable(s0, cap);
    hide Reachable, At;
    var s1 := Passing(cap, 0, 0, 0, HeadLoaded([[7]], 0), Idle);
    ReachStep(s0, cap, Push([[7]]), s1);
    ReachStep(s1, cap, LoadTail, Passing(cap, 0, 0, 0, Copying([[7]], 0, 1, 0, 0), Idle));
  }

  lemma FramePushed(cap: nat)
    requires RingSize(cap)
    ensures Reachable(Passing(cap, 7, 1, 0, Resting, Idle), cap)
  {
    hide Reachable;
    FrameAccepted(cap);
    var s := Passing(cap, 0, 0, 0, Copying([[7]], 0, 1, 0, 0), Idle);
    var s1 := Passing(cap, 7, 0, 0, Copying([[7]], 0, 1, 1, 0), Idle);
    assert WritePlace(s, cap, 1) == 0 && s.samples[0 := 7] == s1.samples;
    ReachStep(s, cap, WriteSample, s1);
    ReachStep(s1, cap, Publish, Passing(cap, 7, 1, 0, Resting, Idle));
  }

  lemma FrameFound(cap: nat)
    requires RingSize(cap)
    ensures Reachable(Passing(cap, 7, 1, 0, Resting, Reading(1, 0, 1, 0, 0, [], [])), cap)
  {
    hide Reachable, At;
    FramePushed(cap);
    var s := Passing(cap, 7, 1, 0, Resting, Idle);
    var s1 := Passing(cap, 7, 1, 0, Resting, TailLoaded(1, 0));
    ReachStep(s, cap, Pop(1), s1);
    ReachStep(s1, cap, LoadHead, Passing(cap, 7, 1, 0, Resting, Reading(1, 0, 1, 0, 0, [], [])));
  }

  lemma FramePassed(cap: nat)
    requires RingSize(cap)
    ensures Reachable(Passing(cap, 7, 1, 1, Resting, Idle), cap)
  {
    hide Reachable;
    FrameFound(cap);
    var s := Passing(cap, 7, 1, 0, Resting, Reading(1, 0, 1, 0, 0, [], []));
    var s1 := Passing(cap, 7, 1, 0, Resting, Reading(1, 0, 1, 1, 0, [[7]], []));
    assert ReadPlace(s, cap, 1) == 0 && s.samples[0] == 7;
    hide ReadPlace, WordAt, At;
    assert [] + [7] == [7] && [] + [[7]] == [[7]];
    ReachStep(s, cap, ReadSample, s1);
    ReachStep(s1, cap, Release, Passing(cap, 7, 1, 1, Resting, Idle));
  }

  /** With the producer's counter loaded first, a frame that is pushed and popped
      before the other load makes the answer 2^64 - 1. */
  lemma AvailableCanBeHuge(cap: nat)
    requires RingSize(cap)
    ensures exists run: seq<State<int>>, m: nat, n: nat ::
              IsRun(run, cap, 1) && m < n < |run| && Available(run[m].head, run[n].tail) == WORD - 1
  {
    FramePassed(cap);
    var s := Passing(cap, 7, 1, 1, Resting, Idle);
    var run: seq<State<int>> :| IsRun(run, cap, 1) && run[|run| - 1] == s;
    var m: nat, n: nat := 0, |run| - 1;
    assert run[m].head == 0 && run[n].tail == 1;
  }

  // ---- The buffer itself, called by one thread at a time --------------------------------

  lemma FrameInside(n: nat, channels: nat, f: nat, c: nat)
    requires f < n && c < channels
    ensures f * channels + c < n * channels
  {
    MultipleOrder(n - f, channels);
    assert n * channels == f * channels + (n - f) * channels;
  }

  // The first n frames of interleaved samples.
  function Grouped<T>(samples: seq<T>, channels: nat, n: nat): (r: Frames<T>)
    requires n * channels <= |samples|
    ensures |r| == n && Shaped(r, channels)
  {
    seq(n, f requires 0 <= f < n =>
      seq(channels, c requires 0 <= c < channels => (FrameInside(n, channels, f, c); samples[f * channels + c])))
  }

  // The n frames in the slots from an unbounded counter on.
  function Window<T>(samples: seq<T>, cap: nat, channels: nat, from: nat, n: nat): (r: Frames<T>)
    requires cap > 0 && 1 <= channels <= 2 && |samples| == 2 * cap
    ensures |r| == n && Shaped(r, channels)
    ensures forall j: nat, c: nat :: j < n && c < channels ==> r[j][c] == samples[At(cap, channels, from + j, c)]
  {
    seq(n, j requires 0 <= j < n =>
      seq(channels, c requires 0 <= c < channels => samples[At(cap, channels, from + j, c)]))
  }

  lemma SameFrames<T>(a: Frames<T>, b: Frames<T>, channels: nat)
    requires |a| == |b| && Shaped(a, channels) && Shaped(b, channels)
    requires forall j: nat, c: nat :: j < |a| && c < channels ==> a[j][c] == b[j][c]
    ensures a == b
  {
    forall j | 0 <= j < |a| ensures a[j] == b[j] {
      assert |a[j]| == |b[j]| == channels;
      assert forall c: nat :: c < channels ==> a[j][c] == b[j][c];
    }
  }

  // A window read from a later counter is the rest of the window.
  lemma WindowDrop<T>(samples: seq<T>, cap: nat, channels: nat, from: nat, n: nat, k: nat)
    requires RingSize(cap) && 1 <= channels <= 2 && |samples| == 2 * cap && k <= n
    ensures Window(samples, cap, channels, Wrap(from + k), n - k) == Window(samples, cap, channels, from, n)[k..]
  {
    hide At;
    var a, b := Window(samples, cap, channels, Wrap(from + k), n - k), Window(samples, cap, channels, from, n)[k..];
    forall j: nat, c: nat | j < n - k && c < channels ensures a[j][c] == b[j][c] {
      SlotFromWord(cap, channels, from + k, j, c);
    }
    SameFrames(a, b, channels);
  }

  lemma SlotFromWord(cap: nat, channels: nat, h: nat, j: nat, c: nat)
    requires RingSize(cap)
    ensures At(cap, channels, Wrap(h) + j, c) == At(cap, channels, h + j, c)
  {
    WrappedRemainder(cap, Wrap(h) + j);
    WrappedRemainder(cap, h + j);
    AddWrapped(h, j);
  }

  // The slots hold the queued frames followed by a push's samples so far.
  ghost predicate Written<T>(samples: seq<T>, cap: nat, channels: nat, from: nat,
      queued: Frames<T>, pushed: Frames<T>, frame: nat, channel: nat)
    requires cap > 0 && 1 <= channels <= 2 && |samples| == 2 * cap && Shaped(queued, channels) && Shaped(pushed, channels)
  {
    && (forall j: nat, c: nat :: j < |queued| && c < channels ==>
          samples[At(cap, channels, from + j, c)] == queued[j][c])
    && (forall f: nat, c: nat :: f < |pushed| && c < channels && Before(f, c, frame, channel) ==>
          samples[At(cap, channels, from + |queued| + f, c)] == pushed[f][c])
  }

  lemma WriteOne<T>(samples: seq<T>, cap: nat, channels: nat, from: nat,
      queued: Frames<T>, pushed: Frames<T>, frame: nat, channel: nat)
    requires cap > 0 && 1 <= channels <= 2 && |samples| == 2 * cap && Shaped(queued, channels) && Shaped(pushed, channels)
    requires Written(samples, cap, channels, from, queued, pushed, frame, channel)
    requires frame < |pushed| && |queued| + frame < cap && channel < channels
    ensures var place := At(cap, channels, from + |queued| + frame, channel);
            Written(samples[place := pushed[frame][channel]], cap, channels, from, queued, pushed, frame, channel + 1)
  {
    hide At;
    var place := At(cap, channels, from + |queued| + frame, channel);
    var samples' := samples[place := pushed[frame][channel]];
    forall j: nat, c: nat | j < |queued| && c < channels ensures samples'[At(cap, channels, from + j, c)] == queued[j][c] {
      SlotsApart(cap, channels, from + j, c, from + |queued| + frame, channel);
    }
    forall f: nat, c: nat | f < |pushed| && c < channels && Before(f, c, frame, channel + 1)
      ensures samples'[At(cap, channels, from + |queued| + f, c)] == pushed[f][c]
    {
      if f != frame || c != channel {
        assert Before(f, c, frame, channel);
        SlotsApart(cap, channels, from + |queued| + f, c, from + |queued| + frame, channel);
      }
    }
  }

  lemma FrameWritten<T>(samples: seq<T>, cap: nat, channels: nat, from: nat, queued: Frames<T>, pushed: Frames<T>, frame: nat)
    requires cap > 0 && 1 <= channels <= 2 && |samples| == 2 * cap && Shaped(queued, channels) && Shaped(pushed, channels)
    requires Written(samples, cap, channels, from, queued, pushed, frame, channels)
    ensures Written(samples, cap, channels, from, queued, pushed, frame + 1, 0)
  {
    hide At;
    forall f: nat, c: nat | f < |pushed| && c < channels && Before(f, c, frame + 1, 0)
      ensures samples[At(cap, channels, from + |queued| + f, c)] == pushed[f][c]
    {
      assert Before(f, c, frame, channels);
    }
  }

  lemma NothingWritten<T>(samples: seq<T>, cap: nat, channels: nat, from: nat, n: nat, pushed: Frames<T>)
    requires cap > 0 && 1 <= channels <= 2 && |samples| == 2 * cap && Shaped(pushed, channels)
    ensures Written(samples, cap, channels, from, Window(samples, cap, channels, from, n), pushed, 0, 0)
  {
    hide At;
  }

  // The first samples of a destination agree with the frames copied so far.
  ghost predicate Copied<T>(grouped: Frames<T>, queued: Frames<T>, channels: nat, frame: nat, channel: nat)
    requires Shaped(grouped, channels) && Shaped(queued, channels)
  {
    forall f: nat, c: nat :: f < |grouped| && f < |queued| && c < channels && Before(f, c, frame, channel) ==>
      grouped[f][c] == queued[f][c]
  }

  lemma CopyOne<T>(destination: seq<T>, queued: Frames<T>, channels: nat, n: nat, frame: nat, channel: nat)
    requires n * channels <= |destination| && Shaped(queued, channels) && frame < n && frame < |queued| && channel < channels
    requires Copied(Grouped(destination, channels, n), queued, channels, frame, channel)
    ensures frame * channels + channel < |destination|
    ensures Copied(Grouped(destination[frame * channels + channel := queued[frame][channel]], channels, n),
                   queued, channels, frame, channel + 1)
  {
    FrameInside(n, channels, frame, channel);
    var k := frame * channels + channel;
    var before, after := Grouped(destination, channels, n), Grouped(destination[k := queued[frame][channel]], channels, n);
    forall f: nat, c: nat | f < n && f < |queued| && c < channels && Before(f, c, frame, channel + 1)
      ensures after[f][c] == queued[f][c]
    {
      if f < frame {
        FrameInside(frame, channels, f, c);
      }
      FrameInside(n, channels, f, c);
      if f != frame || c != channel {
        assert Before(f, c, frame, channel);
        assert after[f][c] == before[f][c];
      }
    }
  }

  lemma NothingCopied<T>(grouped: Frames<T>, queued: Frames<T>, channels: nat)
    requires Shaped(grouped, channels) && Shaped(queued, channels)
    ensures Copied(grouped, queued, channels, 0, 0)
  {
  }

  lemma FrameCopied<T>(grouped: Frames<T>, queued: Frames<T>, channels: nat, frame: nat)
    requires Shaped(grouped, channels) && Shaped(queued, channels) && Copied(grouped, queued, channels, frame, channels)
    ensures Copied(grouped, queued, channels, frame + 1, 0)
  {
    forall f: nat, c: nat | f < |grouped| && f < |queued| && c < channels && Before(f, c, frame + 1, 0)
      ensures grouped[f][c] == queued[f][c]
    {
      assert Before(f, c, frame, channels);
    }
  }

  lemma AllCopied<T>(grouped: Frames<T>, queued: Frames<T>, channels: nat, n: nat)
    requires Shaped(grouped, channels) && Shaped(queued, channels) && n <= |grouped| && n <= |queued|
    requires Copied(grouped, queued, channels, n, 0)
    ensures grouped[..n] == queued[..n]
  {
    forall f: nat, c: nat | f < n && c < channels ensures grouped[..n][f][c] == queued[..n][f][c] {
      assert Before(f, c, n, 0);
    }
    SameFrames(grouped[..n], queued[..n], channels);
  }

  lemma AllWritten<T>(samples: seq<T>, cap: nat, channels: nat, from: nat, queued: Frames<T>, pushed: Frames<T>, n: nat)
    requires cap > 0 && 1 <= channels <= 2 && |samples| == 2 * cap && Shaped(queued, channels) && Shaped(pushed, channels)
    requires Written(samples, cap, channels, from, queued, pushed, n, 0) && n <= |pushed|
    ensures Window(samples, cap, channels, from, |queued| + n) == queued + pushed[..n]
  {
    hide At;
    var window, frames := Window(samples, cap, channels, from, |queued| + n), queued + pushed[..n];
    forall j: nat, c: nat | j < |queued| + n && c < channels ensures window[j][c] == frames[j][c] {
      if j >= |queued| {
        var f: nat := j - |queued|;
        assert Before(f, c, n, 0) && from + |queued| + f == from + j;
      }
    }
    SameFrames(window, frames, channels);
  }

  lemma WindowPlace<T>(samples: seq<T>, cap: nat, channels: nat, tail: nat, n: nat, frame: nat, channel: nat)
    requires RingSize(cap) && 1 <= channels <= 2 && |samples| == 2 * cap && tail < WORD && frame < n && channel < channels
    ensures WordAt(cap, channels, tail, frame, channel) < |samples|
    ensures samples[WordAt(cap, channels, tail, frame, channel)] == Window(samples, cap, channels, tail, n)[frame][channel]
  {
    hide At, WordAt;
    WordSlot(cap, channels, tail, frame, channel);
    assert Wrap(tail) == tail;
  }

  lemma WrapSmall(x: nat)
    requires x < WORD
    ensures Wrap(x) == x
  {
  }

  lemma HeadIs(head: nat, tail: nat)
    requires head < WORD && tail < WORD
    ensures Wrap(tail + Wrap(head - tail)) == head
  {
  }

  lemma HeadMoves(head: nat, tail: nat, written: nat)
    requires head < WORD && tail < WORD && Wrap(head - tail) + written < WORD
    ensures Wrap(Wrap(head + written) - tail) == Wrap(head - tail) + written
  {
    hide Wrap;
    var used := Wrap(head - tail);
    HeadIs(head, tail);
    AddWrapped(tail + used, written);
    WrapSmall(tail);
    SubtractWrapped(tail + used + written, tail);
  }

  lemma TailMoves(head: nat, tail: nat, read: nat)
    requires head < WORD && tail < WORD && read <= Wrap(head - tail)
    ensures Wrap(head - Wrap(tail + read)) == Wrap(head - tail) - read
  {
    hide Wrap;
    var used := Wrap(head - tail);
    HeadIs(head, tail);
    SubtractWrapped(tail + used, tail + read);
  }

  class AudioRingBuffer<T(0)> {
    const cap: nat
    const channels: nat
    const samples: array<T>
    var head: nat
    var tail: nat
    var underruns: nat

    ghost predicate Valid()
      reads this
    {
      && RingSize(cap) && 0 < cap < WORD && 1 <= channels <= 2 && samples.Length == 2 * cap
      && head < WORD && tail < WORD && Wrap(head - tail) <= cap
    }

    // The frames in the ring, oldest first.
    ghost function Queued(): (r: Frames<T>)
      requires Valid()
      reads this, samples
      ensures |r| == Wrap(head - tail) && Shaped(r, channels)
    {
      Window(samples[..], cap, channels, tail, Wrap(head - tail))
    }

    constructor (cap: nat, channels: nat)
      requires RingSize(cap) && channels <= 2
      ensures Valid() && fresh(samples) && Queued() == [] && underruns == 0
      ensures this.cap == cap && this.channels == if channels == 0 then 1 else channels
    {
      this.cap, this.channels := cap, if channels == 0 then 1 else channels;
      head, tail, underruns := 0, 0, 0;
      samples := new T[2 * cap];
    }

    /** Takes as many frames as fit and puts them behind those queued. */
    method Push(source: seq<T>, count: nat) returns (written: nat)
      requires Valid() && count * channels <= |source|
      modifies `head, samples
      ensures Valid() && written == Min(count, cap - |old(Queued())|)
      ensures Queued() == old(Queued()) + Grouped(source, channels, count)[..written]
    {
      hide At, WordAt, Written, Window, Grouped, RingSize, Wrap;
      if count == 0 {
        return 0;
      }
      ghost var queued, pushed := Queued(), Grouped(source, channels, count);
      var available: nat := cap - Wrap(head - tail);
      written := Min(count, available);
      NothingWritten(samples[..], cap, channels, tail, |queued|, pushed);
      var frame := 0;
      while frame < written
        invariant frame <= written && head == old(head)
        invariant Written(samples[..], cap, channels, tail, queued, pushed, frame, 0)
      {
        var channel := 0;
        while channel < channels
          invariant channel <= channels && head == old(head)
          invariant Written(samples[..], cap, channels, tail, queued, pushed, frame, channel)
        {
          PushPlace(frame, channel);
          SourceFrame(source, count, frame, channel);
          WriteOne(samples[..], cap, channels, tail, queued, pushed, frame, channel);
          samples[WordAt(cap, channels, head, frame, channel)] := source[frame * channels + channel];
          channel := channel + 1;
        }
        FrameWritten(samples[..], cap, channels, tail, queued, pushed, frame);
        frame := frame + 1;
      }
      AllWritten(samples[..], cap, channels, tail, queued, pushed, written);
      HeadMoves(head, tail, written);
      head := Wrap(head + written);
    }

    lemma SourceFrame(source: seq<T>, count: nat, frame: nat, channel: nat)
      requires count * channels <= |source| && frame < count && channel < channels
      ensures frame * channels + channel < |source|
      ensures source[frame * channels + channel] == Grouped(source, channels, count)[frame][channel]
    {
      FrameInside(count, channels, frame, channel);
    }

    lemma PushPlace(frame: nat, channel: nat)
      requires Valid() && channel < channels
      ensures WordAt(cap, channels, head, frame, channel) ==
              At(cap, channels, tail + Wrap(head - tail) + frame, channel) < samples.Length
    {
      hide Wrap;
      var h := tail + Wrap(head - tail);
      AddWrapped(tail, Wrap(head - tail));
      assert head == Wrap(h) by { HeadIs(head, tail); }
      WordSlot(cap, channels, h, frame, channel);
    }

    lemma PopPlace(frame: nat, channel: nat)
      requires Valid() && channel < channels && frame < Wrap(head - tail)
      ensures WordAt(cap, channels, tail, frame, channel) < samples.Length
      ensures samples[WordAt(cap, channels, tail, frame, channel)] == Queued()[frame][channel]
    {
      hide At, WordAt, Window, RingSize;
      WindowPlace(samples[..], cap, channels, tail, Wrap(head - tail), frame, channel);
    }

    /** Removes up to count frames from the front and copies them out. */
    method Pop(destination: array<T>, count: nat) returns (read: nat)
      requires Valid() && count * channels <= destination.Length && destination != samples
      modifies `tail, `underruns, destination
      ensures Valid() && read == Min(count, |old(Queued())|)
      ensures Queued() == old(Queued())[read..]
      ensures Grouped(destination[..], channels, count)[..read] == old(Queued())[..read]
      ensures forall k :: read * channels <= k < destination.Length ==> destination[k] == old(destination[k])
      ensures underruns == old(underruns) + if read < count then 1 else 0
    {
      hide At, WordAt, Copied, Window, Grouped, RingSize, Wrap;
      if count == 0 {
        return 0;
      }
      ghost var queued := Queued();
      var readable: nat := Wrap(head - tail);
      read := Min(count, readable);
      NothingCopied(Grouped(destination[..], channels, count), queued, channels);
      var frame := 0;
      while frame < read
        invariant frame <= read && tail == old(tail) && underruns == old(underruns)
        invariant Copied(Grouped(destination[..], channels, count), queued, channels, frame, 0)
        invariant forall k :: frame * channels <= k < destination.Length ==> destination[k] == old(destination[k])
      {
        var channel := 0;
        while channel < channels
          invariant channel <= channels && tail == old(tail) && underruns == old(underruns)
          invariant Copied(Grouped(destination[..], channels, count), queued, channels, frame, channel)
          invariant forall k :: frame * channels + channel <= k < destination.Length ==> destination[k] == old(destination[k])
        {
          PopPlace(frame, channel);
          CopyOne(destination[..], queued, channels, count, frame, channel);
          destination[frame * channels + channel] := samples[WordAt(cap, channels, tail, frame, channel)];
          channel := channel + 1;
        }
        FrameCopied(Grouped(destination[..], channels, count), queued, channels, frame);
        assert (frame + 1) * channels == frame * channels + channels;
        frame := frame + 1;
      }
      AllCopied(Grouped(destination[..], channels, count), queued, channels, read);
      if read < count {
        underruns := underruns + 1;
      }
      WindowDrop(samples[..], cap, channels, tail, readable, read);
      TailMoves(head, tail, read);
      tail := Wrap(tail + read);
    }
  }
}
