/** apps/data_recorder/obj_detector/objDetector.cpp: `runLoop` receives frames, `inferenceLoop` works on
    them, and the two threads exchange frame buffers through a free queue and an inference queue.
    Every region under a lock is one atomic step; the unlocked test for an empty free queue is a step
    of its own, and copying into a buffer and reading it proceed byte by byte. */
module FramePipeline {
  import opened Wrappers

  const MAX_FREE: nat := 50
  const MAX_INFERENCE: nat := 50

  // ------------------------------------------------- the state

  /** All messages announce frames of one size. */
  datatype Setup = Setup(frameSize: nat, slots: nat, slotSize: nat)
  {
    /** The number of bytes that `receiveSharedMemData` copies for a slot number. */
    function Available(slot: nat): nat {
      if slot >= slots then 0 else if frameSize < slotSize then frameSize else slotSize
    }
  }

  /** The n-th message received, with the slot number it carries unless it cannot be unpacked. */
  datatype Message = Message(n: nat, slot: Option<nat>)

  /** Where `runLoop` stands, with what it holds there. */
  datatype RunPc =
    | RunTop
    | Receiving
    | Draining(m: Message)
    | Unpacking(m: Message)
    | Checking(m: Message)
    | Allocating(m: Message)
    | Taking(m: Message)
    | Copying(m: Message, frame: nat, bytes: seq<u8>, before: seq<u8>, recycled: bool)
    | Trimming
    | RunExited
    | RunUndefined // `front` of an empty queue, or access outside a live buffer

  datatype InferPc =
    | InferTop
    | Popping
    | Inferring(n: nat, frame: nat, seen: seq<u8>)
    | InferExited
    | InferUndefined

  /** A frame buffer in the inference queue, and which message it was filled for. */
  datatype Queued = Queued(frame: nat, n: nat)

  /** How a message leaves the inference queue. */
  datatype Taken = Given(n: nat) | Dropped(n: nat)

  /** The bytes copied for a message, what the buffer held before and whether it came from the free queue,
      and the whole buffer when it was queued. */
  datatype Pushed = Pushed(copied: seq<u8>, before: seq<u8>, recycled: bool, image: seq<u8>)

  datatype Inferred = Inferred(n: nat, bytes: seq<u8>)

  /** `heap` holds the live frame buffers by address.  The last five fields only record the past, as do
      `before` and `recycled` while a frame is copied. */
  datatype State = State(
    setup: Setup, free: seq<nat>, inference: seq<Queued>, heap: map<nat, seq<u8>>, stop: bool,
    run: RunPc, infer: InferPc,
    received: seq<Option<nat>>, rejected: seq<nat>, taken: seq<Taken>, pushed: map<nat, Pushed>,
    inferred: seq<Inferred>)

  datatype Step =
    | Stop
    | RunTest
    | ReceiveFails
    | Receive(slot: Option<nat>)
    | Drain
    | Unpack
    | CheckEmpty
    | AllocFails
    | Alloc(frame: nat, content: seq<u8>)
    | Take
    | CopyByte(b: u8)
    | Push
    | Trim
    | InferTest
    | Pop
    | ReadByte
    | GiveBack
  {
    /** `runLoop` handles a message before it has a buffer. */
    predicate OnMessage() { Receive? || Drain? || Unpack? || CheckEmpty? || AllocFails? }

    /** `runLoop` obtains, fills and queues a buffer. */
    predicate OnFrame() { Alloc? || Take? || CopyByte? || Push? || Trim? }

    /** `inferenceLoop` handles a buffer. */
    predicate OnInference() { Pop? || ReadByte? || GiveBack? }

    /** The remaining steps only move one thread or set the stop flag. */
    predicate OnControl() { Stop? || RunTest? || ReceiveFails? || InferTest? }
  }

  ghost predicate Init(s: State) {
    && s.free == [] && s.inference == [] && s.heap == map[] && !s.stop && s.run == RunTop && s.infer == InferTop
    && s.received == [] && s.rejected == [] && s.taken == [] && s.pushed == map[] && s.inferred == []
  }

  predicate Enabled(s: State, step: Step) {
    match step
    case Stop => true
    case RunTest => s.run.RunTop?
    case ReceiveFails => s.run.Receiving?
    case Receive(_) => s.run.Receiving?
    case Drain => s.run.Draining?
    case Unpack => s.run.Unpacking?
    case CheckEmpty => s.run.Checking?
    case AllocFails => s.run.Allocating?
    case Alloc(f, content) => s.run.Allocating? && f !in s.heap && |content| == s.setup.frameSize
    case Take => s.run.Taking?
    case CopyByte(_) => s.run.Copying? && |s.run.bytes| < AvailableFor(s, s.run.m)
    case Push => s.run.Copying? && |s.run.bytes| == AvailableFor(s, s.run.m)
    case Trim => s.run.Trimming?
    case InferTest => s.infer.InferTop?
    case Pop => s.infer.Popping?
    case ReadByte => s.infer.Inferring? && |s.infer.seen| < s.setup.frameSize
    case GiveBack => s.infer.Inferring? && |s.infer.seen| == s.setup.frameSize
  }

  function AvailableFor(s: State, m: Message): nat {
    if m.slot.Some? then s.setup.Available(m.slot.value) else 0
  }

  /** The oldest frame of the inference queue is popped and its buffer freed. */
  function DropOldest(s: State): State
    requires s.inference != []
  {
    s.(inference := s.inference[1..], heap := s.heap - {s.inference[0].frame},
       taken := s.taken + [Dropped(s.inference[0].n)])
  }

  function Drained(s: State): State
    decreases |s.inference|
  {
    if |s.inference| >= MAX_INFERENCE then Drained(DropOldest(s)) else s
  }

  function FreeOldest(s: State): State
    requires s.free != []
  {
    s.(free := s.free[1..], heap := s.heap - {s.free[0]})
  }

  function Trimmed(s: State): State
    decreases |s.free|
  {
    if |s.free| >= MAX_FREE then Trimmed(FreeOldest(s)) else s
  }

  function ReceiveMessage(s: State, slot: Option<nat>): State {
    s.(received := s.received + [slot], run := Draining(Message(|s.received|, slot)))
  }

  function Reject(s: State, m: Message): State {
    s.(rejected := s.rejected + [m.n], run := RunTop)
  }

  function Contents(s: State, f: nat): seq<u8> { if f in s.heap then s.heap[f] else [] }

  function Overwritten(content: seq<u8>, k: nat, b: u8): seq<u8>
    requires k < |content|
  {
    content[k := b]
  }

  function DrainQueue(s: State): State
    requires s.run.Draining?
  {
    Drained(s).(run := Unpacking(s.run.m))
  }

  function UnpackMessage(s: State): State
    requires s.run.Unpacking?
  {
    if s.run.m.slot.None? then Reject(s, s.run.m) else s.(run := Checking(s.run.m))
  }

  function CheckQueue(s: State): State
    requires s.run.Checking?
  {
    s.(run := if s.free == [] then Allocating(s.run.m) else Taking(s.run.m))
  }

  function TrimQueue(s: State): State {
    Trimmed(s).(run := RunTop)
  }

  function Allocate(s: State, f: nat, content: seq<u8>): State
    requires s.run.Allocating?
  {
    s.(heap := s.heap[f := content], run := Copying(s.run.m, f, [], content, false))
  }

  function TakeFree(s: State): State
    requires s.run.Taking?
  {
    if s.free == [] then s.(run := RunUndefined)
    else s.(free := s.free[1..], run := Copying(s.run.m, s.free[0], [], Contents(s, s.free[0]), true))
  }

  function CopyInto(s: State, b: u8): State
    requires s.run.Copying?
  {
    var f, k := s.run.frame, |s.run.bytes|;
    if k >= |Contents(s, f)| then s.(run := RunUndefined)
    else s.(heap := s.heap[f := Overwritten(s.heap[f], k, b)], run := s.run.(bytes := s.run.bytes + [b]))
  }

  function PushFrame(s: State): State
    requires s.run.Copying?
  {
    s.(inference := s.inference + [Queued(s.run.frame, s.run.m.n)],
       pushed := s.pushed[s.run.m.n := Pushed(s.run.bytes, s.run.before, s.run.recycled, Contents(s, s.run.frame))],
       run := Trimming)
  }

  function PopFrame(s: State): State {
    if s.inference == [] then s.(infer := InferTop)
    else
      var q := s.inference[0];
      s.(inference := s.inference[1..], taken := s.taken + [Given(q.n)], infer := Inferring(q.n, q.frame, []))
  }

  function ReadFrom(s: State): State
    requires s.infer.Inferring?
  {
    var f, k := s.infer.frame, |s.infer.seen|;
    if k >= |Contents(s, f)| then s.(infer := InferUndefined)
    else s.(infer := Inferring(s.infer.n, f, s.infer.seen + [s.heap[f][k]]))
  }

  function ReturnFrame(s: State): State
    requires s.infer.Inferring?
  {
    var f := s.infer.frame;
    var t := s.(inferred := s.inferred + [Inferred(s.infer.n, s.infer.seen)], infer := InferTop);
    if |s.free| < MAX_FREE then t.(free := s.free + [f]) else t.(heap := s.heap - {f})
  }

  function Next(s: State, step: Step): State
    requires Enabled(s, step)
  {
    match step
    case Stop => s.(stop := true)
    case RunTest => s.(run := if s.stop then RunExited else Receiving)
    case ReceiveFails => s.(run := RunTop)
    case Receive(slot) => ReceiveMessage(s, slot)
    case Drain => DrainQueue(s)
    case Unpack => UnpackMessage(s)
    case CheckEmpty => CheckQueue(s)
    case AllocFails => Reject(s, s.run.m)
    case Alloc(f, content) => Allocate(s, f, content)
    case Take => TakeFree(s)
    case CopyByte(b) => CopyInto(s, b)
    case Push => PushFrame(s)
    case Trim => TrimQueue(s)
    case InferTest => s.(infer := if s.stop then InferExited else Popping)
    case Pop => PopFrame(s)
    case ReadByte => ReadFrom(s)
    case GiveBack => ReturnFrame(s)
  }

  // ------------------------------------------------- ownership

  function Frames(q: seq<Queued>): (r: seq<nat>)
    ensures |r| == |q| && forall i | 0 <= i < |q| :: r[i] == q[i].frame
  {
    seq(|q|, i requires 0 <= i < |q| => q[i].frame)
  }

  function RunHolds(s: State): multiset<nat> { if s.run.Copying? then multiset{s.run.frame} else multiset{} }

  function InferHolds(s: State): multiset<nat> { if s.infer.Inferring? then multiset{s.infer.frame} else multiset{} }

  /** Every place that refers to a frame buffer. */
  function Holders(s: State): multiset<nat> {
    multiset(s.free) + multiset(Frames(s.inference)) + RunHolds(s) + InferHolds(s)
  }

  /** Every live buffer is held in exactly one place, and nothing else is held. */
  ghost predicate Owned(s: State) { HeldOnce(Holders(s), s.heap, s.setup.frameSize) }

  ghost predicate HeldOnce(holders: multiset<nat>, heap: map<nat, seq<u8>>, size: nat) {
    && (forall f :: holders[f] == if f in heap then 1 else 0)
    && forall f | f in heap :: |heap[f]| == size
  }

  lemma HeldOnceFreed(before: multiset<nat>, after: multiset<nat>, heap: map<nat, seq<u8>>, size: nat, f: nat)
    requires HeldOnce(before, heap, size) && before == after + multiset{f}
    ensures HeldOnce(after, heap - {f}, size)
  {
    assert before[f] == 1;
  }

  lemma FirstAndRest(q: seq<nat>)
    requires q != []
    ensures multiset(q) == multiset(q[1..]) + multiset{q[0]}
  {
    assert q == [q[0]] + q[1..];
  }

  lemma FramesRest(q: seq<Queued>)
    requires q != []
    ensures multiset(Frames(q)) == multiset(Frames(q[1..])) + multiset{q[0].frame}
  {
    FirstAndRest(Frames(q));
    assert Frames(q)[1..] == Frames(q[1..]);
  }

  lemma FramesPushed(q: seq<Queued>, e: Queued)
    ensures Frames(q + [e]) == Frames(q) + [e.frame]
  {}

  lemma HolderIsLive(s: State, f: nat)
    requires Owned(s) && f in Holders(s)
    ensures f in s.heap && |s.heap[f]| == s.setup.frameSize
  {}

  lemma DropKeepsOwned(s: State)
    requires Owned(s) && s.inference != []
    ensures Owned(DropOldest(s))
  {
    FramesRest(s.inference);
    HeldOnceFreed(Holders(s), Holders(DropOldest(s)), s.heap, s.setup.frameSize, s.inference[0].frame);
  }

  lemma FreeKeepsOwned(s: State)
    requires Owned(s) && s.free != []
    ensures Owned(FreeOldest(s))
  {
    FirstAndRest(s.free);
    HeldOnceFreed(Holders(s), Holders(FreeOldest(s)), s.heap, s.setup.frameSize, s.free[0]);
  }

  lemma AllocateOwned(s: State, f: nat, content: seq<u8>)
    requires Owned(s) && s.run.Allocating? && f !in s.heap && |content| == s.setup.frameSize
    ensures Owned(Allocate(s, f, content))
  {
    assert Holders(Allocate(s, f, content)) == Holders(s) + multiset{f};
  }

  lemma TakeOwned(s: State)
    requires Owned(s) && s.run.Taking? && s.free != []
    ensures Owned(TakeFree(s)) && Holders(TakeFree(s)) == Holders(s)
  {
    FirstAndRest(s.free);
  }

  lemma CopyOwned(s: State, b: u8)
    requires Owned(s) && s.run.Copying? && |s.run.bytes| < s.setup.frameSize
    ensures Owned(CopyInto(s, b)) && !CopyInto(s, b).run.RunUndefined?
  {
    HolderIsLive(s, s.run.frame);
    assert Holders(CopyInto(s, b)) == Holders(s);
  }

  lemma PushOwned(s: State)
    requires Owned(s) && s.run.Copying?
    ensures Owned(PushFrame(s)) && Holders(PushFrame(s)) == Holders(s)
  {
    FramesPushed(s.inference, Queued(s.run.frame, s.run.m.n));
  }

  lemma PopOwned(s: State)
    requires Owned(s) && s.infer.Popping?
    ensures Owned(PopFrame(s)) && Holders(PopFrame(s)) == Holders(s)
  {
    if s.inference != [] { FramesRest(s.inference); }
  }

  lemma ReadOwned(s: State)
    requires Owned(s) && s.infer.Inferring? && |s.infer.seen| < s.setup.frameSize
    ensures Owned(ReadFrom(s)) && !ReadFrom(s).infer.InferUndefined?
  {
    HolderIsLive(s, s.infer.frame);
  }

  lemma RecycledHolders(s: State)
    requires s.infer.Inferring? && |s.free| < MAX_FREE
    ensures Holders(ReturnFrame(s)) == Holders(s)
  {
    assert multiset(s.free + [s.infer.frame]) == multiset(s.free) + multiset{s.infer.frame};
  }

  lemma FreedHolders(s: State)
    requires s.infer.Inferring? && |s.free| >= MAX_FREE
    ensures Holders(s) == Holders(ReturnFrame(s)) + multiset{s.infer.frame}
  {}

  lemma ReturnOwned(s: State)
    requires Owned(s) && s.infer.Inferring?
    ensures Owned(ReturnFrame(s))
  {
    if |s.free| < MAX_FREE {
      RecycledHolders(s);
    } else {
      FreedHolders(s);
      HeldOnceFreed(Holders(s), Holders(ReturnFrame(s)), s.heap, s.setup.frameSize, s.infer.frame);
    }
  }

  // ------------------------------------------------- the invariant

  ghost predicate Bounded(s: State) {
    && !s.run.RunUndefined? && !s.infer.InferUndefined?
    && |s.inference| <= MAX_INFERENCE && |s.free| <= MAX_FREE
    && (s.run.Unpacking? || s.run.Checking? || s.run.Allocating? || s.run.Taking? || s.run.Copying?
        ==> |s.inference| < MAX_INFERENCE)
    && (s.run.Taking? ==> s.free != [])
    && Held(s) <= MAX_INFERENCE + 1
    && (s.infer.Inferring? ==> |s.infer.seen| <= s.setup.frameSize)
    && (s.run.Copying? ==> |s.run.bytes| <= AvailableFor(s, s.run.m))
    && (s.run.Allocating? ==> Held(s) <= MAX_INFERENCE)
  }

  /** The number of places that refer to a frame buffer. */
  function Held(s: State): nat {
    |s.free| + |s.inference| + (if s.run.Copying? then 1 else 0) + if s.infer.Inferring? then 1 else 0
  }

  /** The message that `runLoop` is working on. */
  function Current(run: RunPc): Option<Message> {
    match run
    case Draining(m) => Some(m)
    case Unpacking(m) => Some(m)
    case Checking(m) => Some(m)
    case Allocating(m) => Some(m)
    case Taking(m) => Some(m)
    case Copying(m, _, _, _, _) => Some(m)
    case _ => None
  }

  function CurrentNumber(run: RunPc): seq<nat> { if Current(run).Some? then [Current(run).value.n] else [] }

  function InferNumber(infer: InferPc): seq<nat> { if infer.Inferring? then [infer.n] else [] }

  function TakenNumbers(t: seq<Taken>): (r: seq<nat>)
    ensures |r| == |t| && forall i | 0 <= i < |t| :: r[i] == t[i].n
  {
    seq(|t|, i requires 0 <= i < |t| => t[i].n)
  }

  function QueuedNumbers(q: seq<Queued>): (r: seq<nat>)
    ensures |r| == |q| && forall i | 0 <= i < |q| :: r[i] == q[i].n
  {
    seq(|q|, i requires 0 <= i < |q| => q[i].n)
  }

  function InferredNumbers(t: seq<Inferred>): (r: seq<nat>)
    ensures |r| == |t| && forall i | 0 <= i < |t| :: r[i] == t[i].n
  {
    seq(|t|, i requires 0 <= i < |t| => t[i].n)
  }

  function GivenNumbers(t: seq<Taken>): seq<nat> {
    if t == [] then []
    else
      var last := t[|t| - 1];
      GivenNumbers(t[..|t| - 1]) + if last.Given? then [last.n] else []
  }

  /** The messages that came through: first those taken from the inference queue, then those in it, then
      the one `runLoop` is working on. */
  function Line(s: State): seq<nat> {
    TakenNumbers(s.taken) + QueuedNumbers(s.inference) + CurrentNumber(s.run)
  }

  ghost predicate Increasing(q: seq<nat>) {
    forall i, j | 0 <= i < j < |q| :: q[i] < q[j]
  }

  function UpTo(n: nat): seq<nat> { seq(n, i => i) }

  /** No message is lost, doubled or overtaken. */
  ghost predicate LineRight(line: seq<nat>, rejected: seq<nat>, count: nat) {
    && Increasing(line)
    && (forall i | 0 <= i < |line| :: line[i] < count)
    && multiset(line + rejected) == multiset(UpTo(count))
  }

  /** Inference works on what it was given, in that order. */
  ghost predicate GivenRight(taken: seq<Taken>, inferred: seq<Inferred>, infer: InferPc) {
    GivenNumbers(taken) == InferredNumbers(inferred) + InferNumber(infer)
  }

  ghost predicate Ordered(s: State) {
    && LineRight(Line(s), s.rejected, |s.received|)
    && (Current(s.run).Some? ==> Current(s.run).value.n == |s.received| - 1)
    && GivenRight(s.taken, s.inferred, s.infer)
  }

  /** A buffer after its beginning was overwritten. */
  function Overlaid(before: seq<u8>, bytes: seq<u8>): (r: seq<u8>)
    requires |bytes| <= |before|
    ensures |r| == |before| && bytes <= r
  {
    bytes + before[|bytes|..]
  }

  /** What is queued for a message: the copied bytes, then what the buffer held before. */
  predicate PushedFor(p: Pushed, message: Option<nat>, setup: Setup) {
    && message.Some?
    && |p.before| == setup.frameSize
    && |p.copied| == setup.Available(message.value)
    && p.image == Overlaid(p.before, p.copied)
  }

  ghost predicate PushedRight(pushed: map<nat, Pushed>, received: seq<Option<nat>>, setup: Setup, bound: int) {
    bound <= |received| && forall n | n in pushed :: n < bound && PushedFor(pushed[n], received[n], setup)
  }

  ghost predicate StillHolds(heap: map<nat, seq<u8>>, pushed: map<nat, Pushed>, frame: nat, n: nat) {
    n in pushed && frame in heap && heap[frame] == pushed[n].image
  }

  ghost predicate QueueRight(q: seq<Queued>, heap: map<nat, seq<u8>>, pushed: map<nat, Pushed>) {
    forall i | 0 <= i < |q| :: StillHolds(heap, pushed, q[i].frame, q[i].n)
  }

  ghost predicate InferRight(infer: InferPc, heap: map<nat, seq<u8>>, pushed: map<nat, Pushed>) {
    infer.Inferring? ==> StillHolds(heap, pushed, infer.frame, infer.n) && infer.seen <= pushed[infer.n].image
  }

  ghost predicate LogRight(inferred: seq<Inferred>, pushed: map<nat, Pushed>) {
    forall i | 0 <= i < |inferred| :: inferred[i].n in pushed && inferred[i].bytes == pushed[inferred[i].n].image
  }

  ghost predicate RunRight(run: RunPc, heap: map<nat, seq<u8>>, received: seq<Option<nat>>) {
    && (Current(run).Some? ==> received != [] && Current(run).value.slot == received[|received| - 1])
    && (run.Checking? || run.Allocating? || run.Taking? || run.Copying? ==> run.m.slot.Some?)
    && (run.Copying? ==>
          run.frame in heap && |run.bytes| <= |run.before| && heap[run.frame] == Overlaid(run.before, run.bytes))
  }

  function Finished(s: State): int { |s.received| - |CurrentNumber(s.run)| }

  /** Buffers hold what was queued until inference has read it. */
  ghost predicate Faithful(s: State) {
    && PushedRight(s.pushed, s.received, s.setup, Finished(s))
    && QueueRight(s.inference, s.heap, s.pushed)
    && InferRight(s.infer, s.heap, s.pushed)
    && LogRight(s.inferred, s.pushed)
    && RunRight(s.run, s.heap, s.received)
  }

  /** An earlier message left the buffer with this content. */
  ghost predicate LeftBehind(content: seq<u8>, inferred: seq<Inferred>, bound: int) {
    exists k :: 0 <= k < |inferred| && inferred[k].n < bound && inferred[k].bytes == content
  }

  ghost predicate FreeTraced(free: seq<nat>, heap: map<nat, seq<u8>>, inferred: seq<Inferred>, bound: int) {
    forall i | 0 <= i < |free| :: free[i] in heap && LeftBehind(heap[free[i]], inferred, bound)
  }

  ghost predicate RunTraced(run: RunPc, inferred: seq<Inferred>) {
    run.Copying? && run.recycled ==> LeftBehind(run.before, inferred, run.m.n)
  }

  ghost predicate PushedTraced(pushed: map<nat, Pushed>, inferred: seq<Inferred>) {
    forall n | n in pushed :: pushed[n].recycled ==> LeftBehind(pushed[n].before, inferred, n)
  }

  /** A recycled buffer holds what inference read from it for some earlier message. */
  ghost predicate Traced(s: State) {
    && FreeTraced(s.free, s.heap, s.inferred, Finished(s))
    && RunTraced(s.run, s.inferred)
    && PushedTraced(s.pushed, s.inferred)
  }

  // ------------------------------------------------- exclusive ownership

  lemma Twice(q: seq<nat>, i: nat, j: nat)
    requires i < j < |q| && q[i] == q[j]
    ensures multiset(q)[q[i]] >= 2
  {
    assert q == q[..j] + [q[j]] + q[j + 1..];
    assert q[i] in q[..j];
  }

  /** A frame buffer is in at most one of the free queue, the inference queue and the hands of the two
      threads, and at most once in a queue. */
  ghost predicate Exclusive(s: State) {
    && (forall i, j | 0 <= i < j < |s.free| :: s.free[i] != s.free[j])
    && (forall i, j | 0 <= i < j < |s.inference| :: s.inference[i].frame != s.inference[j].frame)
    && (forall i, j | 0 <= i < |s.free| && 0 <= j < |s.inference| :: s.free[i] != s.inference[j].frame)
    && (s.run.Copying? ==>
          && s.run.frame !in s.free
          && (forall j | 0 <= j < |s.inference| :: s.run.frame != s.inference[j].frame)
          && (s.infer.Inferring? ==> s.run.frame != s.infer.frame))
    && (s.infer.Inferring? ==>
          && s.infer.frame !in s.free
          && (forall j | 0 <= j < |s.inference| :: s.infer.frame != s.inference[j].frame))
  }

  lemma OwnedCounts(s: State)
    requires Owned(s)
    ensures forall f :: multiset(s.free)[f] + multiset(Frames(s.inference))[f] + RunHolds(s)[f] + InferHolds(s)[f] <= 1
    ensures forall i | 0 <= i < |s.inference| :: multiset(Frames(s.inference))[s.inference[i].frame] >= 1
    ensures forall i | 0 <= i < |s.free| :: multiset(s.free)[s.free[i]] >= 1
  {
    var free, queued := multiset(s.free), multiset(Frames(s.inference));
    assert forall f :: free[f] + queued[f] + RunHolds(s)[f] + InferHolds(s)[f] == Holders(s)[f] <= 1;
    forall j | 0 <= j < |s.inference| ensures queued[s.inference[j].frame] >= 1 {
      assert Frames(s.inference)[j] in queued;
    }
    forall i | 0 <= i < |s.free| ensures free[s.free[i]] >= 1 {
      assert s.free[i] in free;
    }
  }

  lemma OwnedIsExclusive(s: State)
    requires Owned(s)
    ensures Exclusive(s)
  {
    OwnedCounts(s);
    forall i, j | 0 <= i < j < |s.free| ensures s.free[i] != s.free[j] {
      if s.free[i] == s.free[j] { Twice(s.free, i, j); }
    }
    forall i, j | 0 <= i < j < |s.inference| ensures s.inference[i].frame != s.inference[j].frame {
      if s.inference[i].frame == s.inference[j].frame { Twice(Frames(s.inference), i, j); }
    }
  }

  /** The live buffers are as many as the places that hold one. */
  lemma LiveCount(s: State)
    requires Owned(s)
    ensures |s.heap| == Held(s)
  {
    assert Holders(s) == multiset(s.heap.Keys);
    assert |Holders(s)| == |multiset(s.free)| + |multiset(Frames(s.inference))| + |RunHolds(s)| + |InferHolds(s)|;
    assert |multiset(s.heap.Keys)| == |s.heap.Keys|;
  }

  // ------------------------------------------------- order, step by step

  /** Taking the oldest message from the queue leaves the line as it is. */
  lemma LineTaken(taken: seq<Taken>, q: seq<Queued>, x: Taken)
    requires q != [] && x.n == q[0].n
    ensures TakenNumbers(taken + [x]) + QueuedNumbers(q[1..]) == TakenNumbers(taken) + QueuedNumbers(q)
  {
    TakenLast(taken, x);
    QueuedFirst(q);
    Regroup(TakenNumbers(taken), x.n, QueuedNumbers(q[1..]));
  }

  lemma Regroup(a: seq<nat>, n: nat, b: seq<nat>)
    ensures (a + [n]) + b == a + ([n] + b)
  {}

  lemma TakenLast(taken: seq<Taken>, x: Taken)
    ensures TakenNumbers(taken + [x]) == TakenNumbers(taken) + [x.n]
  {}

  lemma QueuedFirst(q: seq<Queued>)
    requires q != []
    ensures QueuedNumbers(q) == [q[0].n] + QueuedNumbers(q[1..])
  {}

  lemma GivenLast(taken: seq<Taken>, x: Taken)
    ensures GivenNumbers(taken + [x]) == GivenNumbers(taken) + if x.Given? then [x.n] else []
  {
    assert (taken + [x])[..|taken|] == taken;
  }

  lemma DropOrdered(s: State)
    requires Ordered(s) && s.inference != []
    ensures Ordered(DropOldest(s))
  {
    var x := Dropped(s.inference[0].n);
    LineTaken(s.taken, s.inference, x);
    GivenLast(s.taken, x);
  }

  lemma LineReceived(line: seq<nat>, rejected: seq<nat>, count: nat)
    requires LineRight(line, rejected, count)
    ensures LineRight(line + [count], rejected, count + 1)
  {
    assert UpTo(count + 1) == UpTo(count) + [count];
    assert multiset((line + [count]) + rejected) == multiset(line + rejected) + multiset{count};
  }

  lemma LineRejected(line: seq<nat>, n: nat, rejected: seq<nat>, count: nat)
    requires LineRight(line + [n], rejected, count)
    ensures LineRight(line, rejected + [n], count)
  {
    assert multiset(line + (rejected + [n])) == multiset((line + [n]) + rejected);
    assert forall i | 0 <= i < |line| :: line[i] == (line + [n])[i];
  }

  lemma ReceiveOrdered(s: State, slot: Option<nat>)
    requires Ordered(s) && s.run.Receiving?
    ensures Ordered(ReceiveMessage(s, slot))
  {
    ReceiveLine(s, slot);
    LineReceived(Line(s), s.rejected, |s.received|);
  }

  lemma ReceiveLine(s: State, slot: Option<nat>)
    requires s.run.Receiving?
    ensures Line(ReceiveMessage(s, slot)) == Line(s) + [|s.received|]
  {}

  lemma RejectOrdered(s: State)
    requires Ordered(s) && (s.run.Unpacking? || s.run.Allocating?)
    ensures Ordered(Reject(s, s.run.m))
  {
    RejectLine(s);
    LineRejected(Line(Reject(s, s.run.m)), s.run.m.n, s.rejected, |s.received|);
  }

  lemma RejectLine(s: State)
    requires s.run.Unpacking? || s.run.Allocating?
    ensures Line(s) == Line(Reject(s, s.run.m)) + [s.run.m.n]
  {}

  lemma PushOrdered(s: State)
    requires Ordered(s) && s.run.Copying?
    ensures Ordered(PushFrame(s))
  {
    assert Line(PushFrame(s)) == Line(s);
  }

  lemma PopOrdered(s: State)
    requires Ordered(s) && s.infer.Popping?
    ensures Ordered(PopFrame(s))
  {
    if s.inference != [] {
      var x := Given(s.inference[0].n);
      LineTaken(s.taken, s.inference, x);
      GivenLast(s.taken, x);
    }
  }

  lemma ReturnOrdered(s: State)
    requires Ordered(s) && s.infer.Inferring?
    ensures Ordered(ReturnFrame(s))
  {
    assert Line(ReturnFrame(s)) == Line(s);
    ReturnGiven(s);
  }

  lemma ReturnGiven(s: State)
    requires s.infer.Inferring? && GivenRight(s.taken, s.inferred, s.infer)
    ensures GivenRight(ReturnFrame(s).taken, ReturnFrame(s).inferred, ReturnFrame(s).infer)
  {
    InferredLast(s.inferred, Inferred(s.infer.n, s.infer.seen));
  }

  lemma InferredLast(inferred: seq<Inferred>, x: Inferred)
    ensures InferredNumbers(inferred + [x]) + [] == InferredNumbers(inferred) + [x.n]
  {}

  // ------------------------------------------------- bytes, step by step

  /** The queued bytes are undisturbed if the buffers still queued kept their contents. */
  lemma QueueKept(q: seq<Queued>, heap: map<nat, seq<u8>>, q': seq<Queued>, heap': map<nat, seq<u8>>,
                  pushed: map<nat, Pushed>)
    requires QueueRight(q, heap, pushed)
    requires forall i | 0 <= i < |q'| ::
               q'[i] in q && (q'[i].frame in heap ==> q'[i].frame in heap' && heap'[q'[i].frame] == heap[q'[i].frame])
    ensures QueueRight(q', heap', pushed)
  {}

  /** Neither the given part of the inference queue nor a thread holds the buffer. */
  ghost predicate NotInUse(s: State, q: seq<Queued>, f: nat) {
    && (forall i | 0 <= i < |q| :: q[i] in s.inference && q[i].frame != f)
    && (s.run.Copying? ==> s.run.frame != f)
    && (s.infer.Inferring? ==> s.infer.frame != f)
  }

  lemma DroppedNotInUse(s: State)
    requires Owned(s) && s.inference != []
    ensures NotInUse(s, s.inference[1..], s.inference[0].frame)
  {
    OwnedIsExclusive(s);
  }

  lemma FreeNotInUse(s: State)
    requires Owned(s) && s.free != []
    ensures NotInUse(s, s.inference, s.free[0])
  {
    OwnedIsExclusive(s);
    assert s.free[0] in s.free;
  }

  lemma ReleaseFaithful(s: State, q: seq<Queued>, f: nat)
    requires Faithful(s) && NotInUse(s, q, f)
    ensures QueueRight(q, s.heap - {f}, s.pushed) && InferRight(s.infer, s.heap - {f}, s.pushed)
    ensures RunRight(s.run, s.heap - {f}, s.received)
  {
    QueueKept(s.inference, s.heap, q, s.heap - {f}, s.pushed);
  }

  lemma DropFaithful(s: State)
    requires Owned(s) && Faithful(s) && s.inference != []
    ensures Faithful(DropOldest(s))
  {
    DroppedNotInUse(s);
    ReleaseFaithful(s, s.inference[1..], s.inference[0].frame);
  }

  lemma FreeFaithful(s: State)
    requires Owned(s) && Faithful(s) && s.free != []
    ensures Faithful(FreeOldest(s))
  {
    FreeNotInUse(s);
    ReleaseFaithful(s, s.inference, s.free[0]);
  }

  lemma ReceiveFaithful(s: State, slot: Option<nat>)
    requires Faithful(s) && s.run.Receiving?
    ensures Faithful(ReceiveMessage(s, slot))
  {}

  lemma AllocateFaithful(s: State, f: nat, content: seq<u8>)
    requires Faithful(s) && s.run.Allocating? && f !in s.heap
    ensures Faithful(Allocate(s, f, content))
  {
    QueueKept(s.inference, s.heap, s.inference, s.heap[f := content], s.pushed);
  }

  lemma FreeIsLive(s: State)
    requires Owned(s) && s.free != []
    ensures s.free[0] in s.heap && |s.heap[s.free[0]]| == s.setup.frameSize
  {
    assert s.free[0] in multiset(s.free);
    HolderIsLive(s, s.free[0]);
  }

  lemma TakeFaithful(s: State)
    requires Faithful(s) && s.run.Taking? && s.free != [] && s.free[0] in s.heap
    ensures Faithful(TakeFree(s))
  {}

  lemma OverlayGrows(before: seq<u8>, bytes: seq<u8>, b: u8)
    requires |bytes| < |before|
    ensures Overwritten(Overlaid(before, bytes), |bytes|, b) == Overlaid(before, bytes + [b])
  {}

  /** Copying touches no buffer that is queued or being read. */
  lemma CopyFaithful(s: State, b: u8)
    requires Owned(s) && Faithful(s) && s.run.Copying? && |s.run.bytes| < s.setup.frameSize
    ensures Faithful(CopyInto(s, b))
  {
    var f := s.run.frame;
    OwnedIsExclusive(s);
    HolderIsLive(s, f);
    OverlayGrows(s.run.before, s.run.bytes, b);
    QueueKept(s.inference, s.heap, s.inference, CopyInto(s, b).heap, s.pushed);
  }

  /** A new image disturbs none of the earlier ones. */
  lemma PushedMore(s: State, n: nat, p: Pushed)
    requires Faithful(s) && n == |s.received| - 1 && Current(s.run).Some? && PushedFor(p, s.received[n], s.setup)
    ensures PushedRight(s.pushed[n := p], s.received, s.setup, |s.received|)
    ensures QueueRight(s.inference, s.heap, s.pushed[n := p])
    ensures InferRight(s.infer, s.heap, s.pushed[n := p])
    ensures LogRight(s.inferred, s.pushed[n := p])
  {
    assert n !in s.pushed;
  }

  lemma QueueMore(q: seq<Queued>, e: Queued, heap: map<nat, seq<u8>>, pushed: map<nat, Pushed>)
    requires QueueRight(q, heap, pushed) && StillHolds(heap, pushed, e.frame, e.n)
    ensures QueueRight(q + [e], heap, pushed)
  {}

  lemma PushFaithful(s: State)
    requires Owned(s) && Faithful(s) && Enabled(s, Push) && s.run.m.n == |s.received| - 1
    ensures Faithful(PushFrame(s))
  {
    HolderIsLive(s, s.run.frame);
    var n, p := s.run.m.n, Pushed(s.run.bytes, s.run.before, s.run.recycled, s.heap[s.run.frame]);
    PushedMore(s, n, p);
    QueueMore(s.inference, Queued(s.run.frame, n), s.heap, s.pushed[n := p]);
  }

  lemma PopFaithful(s: State)
    requires Faithful(s) && s.infer.Popping?
    ensures Faithful(PopFrame(s))
  {
    if s.inference != [] { QueueKept(s.inference, s.heap, s.inference[1..], s.heap, s.pushed); }
  }

  lemma ReadFaithful(s: State)
    requires Faithful(s) && s.infer.Inferring? && !ReadFrom(s).infer.InferUndefined?
    ensures Faithful(ReadFrom(s))
  {}

  lemma ReturnFaithful(s: State)
    requires Owned(s) && Faithful(s) && Enabled(s, GiveBack)
    ensures Faithful(ReturnFrame(s))
  {
    HolderIsLive(s, s.infer.frame);
    ReadToTheEnd(s.infer, s.heap, s.pushed);
    LogMore(s.inferred, s.pushed, Inferred(s.infer.n, s.infer.seen));
    ReturnKeepsOthers(s);
  }

  lemma LogMore(inferred: seq<Inferred>, pushed: map<nat, Pushed>, x: Inferred)
    requires LogRight(inferred, pushed) && x.n in pushed && x.bytes == pushed[x.n].image
    ensures LogRight(inferred + [x], pushed)
  {}

  lemma ReturnKeepsOthers(s: State)
    requires Owned(s) && QueueRight(s.inference, s.heap, s.pushed) && RunRight(s.run, s.heap, s.received)
    requires s.infer.Inferring?
    ensures QueueRight(s.inference, ReturnFrame(s).heap, s.pushed) && RunRight(s.run, ReturnFrame(s).heap, s.received)
  {
    OwnedIsExclusive(s);
    QueueKept(s.inference, s.heap, s.inference, s.heap - {s.infer.frame}, s.pushed);
  }

  lemma ReadToTheEnd(infer: InferPc, heap: map<nat, seq<u8>>, pushed: map<nat, Pushed>)
    requires infer.Inferring? && InferRight(infer, heap, pushed) && |infer.seen| == |heap[infer.frame]|
    ensures infer.seen == pushed[infer.n].image
  {}

  // ------------------------------------------------- every step is safe

  ghost predicate Safe(s: State) { Owned(s) && Bounded(s) }

  lemma DropSafe(s: State)
    requires Safe(s) && |s.inference| >= MAX_INFERENCE
    ensures Safe(DropOldest(s))
  {
    DropKeepsOwned(s);
  }

  lemma {:induction false} DrainedSafe(s: State)
    requires Safe(s)
    ensures Safe(Drained(s)) && Drained(s).run == s.run && |Drained(s).inference| < MAX_INFERENCE
    decreases |s.inference|
  {
    if |s.inference| >= MAX_INFERENCE {
      DropSafe(s);
      DrainedSafe(DropOldest(s));
    }
  }

  lemma FreeSafe(s: State)
    requires Safe(s) && s.free != [] && s.run.Trimming?
    ensures Safe(FreeOldest(s))
  {
    FreeKeepsOwned(s);
  }

  lemma {:induction false} TrimmedSafe(s: State)
    requires Safe(s) && s.run.Trimming?
    ensures Safe(Trimmed(s)) && Trimmed(s).run == s.run
    decreases |s.free|
  {
    if |s.free| >= MAX_FREE {
      FreeSafe(s);
      TrimmedSafe(FreeOldest(s));
    }
  }

  /** Moving `runLoop` on where it holds no frame. */
  lemma RunMoveSafe(s: State, run: RunPc)
    requires Safe(s) && !s.run.Copying? && !run.Copying? && !run.Allocating? && !run.RunUndefined?
    requires run.Unpacking? || run.Checking? || run.Taking? ==> |s.inference| < MAX_INFERENCE
    requires run.Taking? ==> s.free != []
    ensures Safe(s.(run := run))
  {
    assert Holders(s.(run := run)) == Holders(s);
  }

  lemma DrainSafe(s: State)
    requires Safe(s) && s.run.Draining?
    ensures Safe(DrainQueue(s))
  {
    DrainedSafe(s);
    RunMoveSafe(Drained(s), Unpacking(s.run.m));
  }

  lemma TrimSafe(s: State)
    requires Safe(s) && s.run.Trimming?
    ensures Safe(TrimQueue(s))
  {
    TrimmedSafe(s);
    RunMoveSafe(Trimmed(s), RunTop);
  }

  lemma ReceiveSafe(s: State, slot: Option<nat>)
    requires Safe(s) && s.run.Receiving?
    ensures Safe(ReceiveMessage(s, slot))
  {
    assert Holders(ReceiveMessage(s, slot)) == Holders(s);
  }

  lemma RejectSafe(s: State)
    requires Safe(s) && (s.run.Unpacking? || s.run.Allocating?)
    ensures Safe(Reject(s, s.run.m))
  {
    assert Holders(Reject(s, s.run.m)) == Holders(s);
  }

  lemma UnpackSafe(s: State)
    requires Safe(s) && s.run.Unpacking?
    ensures Safe(UnpackMessage(s))
  {
    if s.run.m.slot.None? { RejectSafe(s); } else { RunMoveSafe(s, Checking(s.run.m)); }
  }

  /** Few enough frames are queued whenever a buffer is about to be allocated. */
  lemma CheckSafe(s: State)
    requires Safe(s) && s.run.Checking?
    ensures Safe(CheckQueue(s))
  {
    assert Holders(CheckQueue(s)) == Holders(s);
  }

  lemma AllocateSafe(s: State, f: nat, content: seq<u8>)
    requires Safe(s) && s.run.Allocating? && f !in s.heap && |content| == s.setup.frameSize
    ensures Safe(Allocate(s, f, content))
  {
    AllocateOwned(s, f, content);
  }

  lemma CopySafe(s: State, b: u8)
    requires Safe(s) && Enabled(s, CopyByte(b))
    ensures Safe(CopyInto(s, b))
  {
    CopyOwned(s, b);
    assert Holders(CopyInto(s, b)) == Holders(s);
  }

  lemma ReadSafe(s: State)
    requires Safe(s) && Enabled(s, ReadByte)
    ensures Safe(ReadFrom(s))
  {
    ReadOwned(s);
    ReadBounded(s);
  }

  lemma ReadBounded(s: State)
    requires Bounded(s) && Enabled(s, ReadByte) && !ReadFrom(s).infer.InferUndefined?
    ensures Bounded(ReadFrom(s))
  {}

  lemma TakeSafe(s: State)
    requires Safe(s) && s.run.Taking?
    ensures Safe(TakeFree(s))
  {
    TakeOwned(s);
  }

  lemma PushSafe(s: State)
    requires Safe(s) && s.run.Copying?
    ensures Safe(PushFrame(s))
  {
    PushOwned(s);
  }

  lemma QueueStepsBounded(s: State)
    requires Bounded(s)
    ensures s.infer.Popping? ==> Bounded(PopFrame(s))
    ensures s.infer.Inferring? ==> Bounded(ReturnFrame(s))
  {}

  lemma PopSafe(s: State)
    requires Safe(s) && s.infer.Popping?
    ensures Safe(PopFrame(s))
  {
    QueueStepsBounded(s);
    PopOwned(s);
  }

  lemma ReturnSafe(s: State)
    requires Safe(s) && s.infer.Inferring?
    ensures Safe(ReturnFrame(s))
  {
    QueueStepsBounded(s);
    ReturnOwned(s);
  }

  lemma InferMoveSafe(s: State, infer: InferPc)
    requires Safe(s) && s.infer.InferTop? && (infer.InferExited? || infer.Popping?)
    ensures Safe(s.(infer := infer))
  {
    assert Holders(s.(infer := infer)) == Holders(s);
  }

  lemma StopSafe(s: State)
    requires Safe(s)
    ensures Safe(s.(stop := true))
  {
    assert Holders(s.(stop := true)) == Holders(s);
  }

  lemma ControlSafe(s: State, step: Step)
    requires Safe(s) && Enabled(s, step) && step.OnControl()
    ensures Safe(Next(s, step))
  {
    match step {
      case Stop => StopSafe(s);
      case RunTest => RunMoveSafe(s, if s.stop then RunExited else Receiving);
      case ReceiveFails => RunMoveSafe(s, RunTop);
      case InferTest => InferMoveSafe(s, if s.stop then InferExited else Popping);
    }
  }

  lemma MessageSafe(s: State, step: Step)
    requires Safe(s) && Enabled(s, step)
    requires step.OnMessage()
    ensures Safe(Next(s, step))
  {
    match step {
      case Receive(slot) => ReceiveSafe(s, slot);
      case Drain => DrainSafe(s);
      case Unpack => UnpackSafe(s);
      case CheckEmpty => CheckSafe(s);
      case AllocFails => RejectSafe(s);
    }
  }

  lemma FrameSafe(s: State, step: Step)
    requires Safe(s) && Enabled(s, step) && step.OnFrame()
    ensures Safe(Next(s, step))
  {
    match step {
      case Alloc(f, content) => AllocateSafe(s, f, content);
      case Take => TakeSafe(s);
      case CopyByte(b) => CopySafe(s, b);
      case Push => PushSafe(s);
      case Trim => TrimSafe(s);
    }
  }

  lemma InferSafe(s: State, step: Step)
    requires Safe(s) && Enabled(s, step) && step.OnInference()
    ensures Safe(Next(s, step))
  {
    match step {
      case Pop => PopSafe(s);
      case ReadByte => ReadSafe(s);
      case GiveBack => ReturnSafe(s);
    }
  }

  /** Every step keeps ownership and bounds, and none has undefined behaviour. */
  lemma SafeStep(s: State, step: Step)
    requires Safe(s) && Enabled(s, step)
    ensures Safe(Next(s, step))
  {
    if step.OnMessage() {
      MessageSafe(s, step);
    } else if step.OnFrame() {
      FrameSafe(s, step);
    } else if step.OnInference() {
      InferSafe(s, step);
    } else {
      ControlSafe(s, step);
    }
  }

  // ------------------------------------------------- every step keeps the order

  /** A buffer in the hands of a thread is live and of full size. */
  lemma HasRoom(s: State)
    requires Owned(s)
    ensures s.run.Copying? ==> |Contents(s, s.run.frame)| == s.setup.frameSize
    ensures s.infer.Inferring? ==> |Contents(s, s.infer.frame)| == s.setup.frameSize
  {
    if s.run.Copying? { HolderIsLive(s, s.run.frame); }
    if s.infer.Inferring? { HolderIsLive(s, s.infer.frame); }
  }

  /** The step finds what it accesses. */
  predicate Fit(s: State, step: Step)
    requires Enabled(s, step)
  {
    match step
    case Take => s.free != [] && s.run.m.n == |s.received| - 1
    case CopyByte(_) => |s.run.bytes| < s.setup.frameSize == |Contents(s, s.run.frame)|
    case Push => s.run.m.n == |s.received| - 1
    case ReadByte => |s.infer.seen| < |Contents(s, s.infer.frame)|
    case _ => true
  }

  lemma StepFits(s: State, step: Step)
    requires Safe(s) && Enabled(s, step) && (Current(s.run).Some? ==> Current(s.run).value.n == |s.received| - 1)
    ensures Fit(s, step)
  {
    HasRoom(s);
  }

  lemma {:induction false} DrainedOrdered(s: State)
    requires Ordered(s)
    ensures Ordered(Drained(s)) && Drained(s).run == s.run
    decreases |s.inference|
  {
    if |s.inference| >= MAX_INFERENCE {
      DropOrdered(s);
      DrainedOrdered(DropOldest(s));
    }
  }

  lemma {:induction false} TrimmedOrdered(s: State)
    requires Ordered(s)
    ensures Ordered(Trimmed(s)) && Trimmed(s).run == s.run
    decreases |s.free|
  {
    if |s.free| >= MAX_FREE {
      assert Line(FreeOldest(s)) == Line(s);
      TrimmedOrdered(FreeOldest(s));
    }
  }

  lemma RunMoveOrdered(s: State, run: RunPc)
    requires Ordered(s) && Current(run) == Current(s.run)
    ensures Ordered(s.(run := run))
  {
    assert Line(s.(run := run)) == Line(s);
  }

  lemma DrainOrdered(s: State)
    requires Ordered(s) && s.run.Draining?
    ensures Ordered(DrainQueue(s))
  {
    DrainedOrdered(s);
    RunMoveOrdered(Drained(s), Unpacking(s.run.m));
  }

  lemma UnpackOrdered(s: State)
    requires Ordered(s) && s.run.Unpacking?
    ensures Ordered(UnpackMessage(s))
  {
    if s.run.m.slot.None? { RejectOrdered(s); } else { RunMoveOrdered(s, Checking(s.run.m)); }
  }

  lemma CheckOrdered(s: State)
    requires Ordered(s) && s.run.Checking?
    ensures Ordered(CheckQueue(s))
  {
    RunMoveOrdered(s, CheckQueue(s).run);
  }

  lemma MessageOrdered(s: State, step: Step)
    requires Ordered(s) && Enabled(s, step)
    requires step.OnMessage()
    ensures Ordered(Next(s, step))
  {
    match step {
      case Receive(slot) => ReceiveOrdered(s, slot);
      case Drain => DrainOrdered(s);
      case Unpack => UnpackOrdered(s);
      case CheckEmpty => CheckOrdered(s);
      case AllocFails => RejectOrdered(s);
    }
  }

  lemma AllocateOrdered(s: State, f: nat, content: seq<u8>)
    requires Ordered(s) && s.run.Allocating?
    ensures Ordered(Allocate(s, f, content))
  {
    assert Line(Allocate(s, f, content)) == Line(s);
  }

  lemma TakeOrdered(s: State)
    requires Ordered(s) && s.run.Taking? && s.free != []
    ensures Ordered(TakeFree(s))
  {
    assert Line(TakeFree(s)) == Line(s);
  }

  lemma CopyOrdered(s: State, b: u8)
    requires Ordered(s) && s.run.Copying? && |s.run.bytes| < |Contents(s, s.run.frame)|
    ensures Ordered(CopyInto(s, b))
  {
    assert Line(CopyInto(s, b)) == Line(s);
  }

  lemma TrimOrdered(s: State)
    requires Ordered(s) && s.run.Trimming?
    ensures Ordered(TrimQueue(s))
  {
    TrimmedOrdered(s);
    RunMoveOrdered(Trimmed(s), RunTop);
  }

  lemma FrameOrdered(s: State, step: Step)
    requires Ordered(s) && Enabled(s, step) && Fit(s, step) && step.OnFrame()
    ensures Ordered(Next(s, step))
  {
    match step {
      case Push => PushOrdered(s);
      case Trim => TrimOrdered(s);
      case Alloc(f, content) => AllocateOrdered(s, f, content);
      case Take => TakeOrdered(s);
      case CopyByte(b) => CopyOrdered(s, b);
    }
  }

  lemma InferOrdered(s: State, step: Step)
    requires Ordered(s) && Enabled(s, step) && Fit(s, step) && step.OnInference()
    ensures Ordered(Next(s, step))
  {
    match step {
      case Pop => PopOrdered(s);
      case ReadByte => assert Line(ReadFrom(s)) == Line(s);
      case GiveBack => ReturnOrdered(s);
    }
  }

  lemma ControlOrdered(s: State, step: Step)
    requires Ordered(s) && Enabled(s, step) && step.OnControl()
    ensures Ordered(Next(s, step))
  {
    assert Line(Next(s, step)) == Line(s);
  }

  lemma FitOrdered(s: State, step: Step)
    requires Ordered(s) && Enabled(s, step) && Fit(s, step)
    ensures Ordered(Next(s, step))
  {
    if step.OnMessage() {
      MessageOrdered(s, step);
    } else if step.OnFrame() {
      FrameOrdered(s, step);
    } else if step.OnInference() {
      InferOrdered(s, step);
    } else {
      ControlOrdered(s, step);
    }
  }

  lemma OrderedStep(s: State, step: Step)
    requires Safe(s) && Ordered(s) && Enabled(s, step)
    ensures Ordered(Next(s, step))
  {
    StepFits(s, step);
    FitOrdered(s, step);
  }

  // ------------------------------------------------- every step keeps the bytes

  lemma {:induction false} DrainedFaithful(s: State)
    requires Owned(s) && Faithful(s)
    ensures Faithful(Drained(s)) && Drained(s).run == s.run
    decreases |s.inference|
  {
    if |s.inference| >= MAX_INFERENCE {
      DropKeepsOwned(s);
      DropFaithful(s);
      DrainedFaithful(DropOldest(s));
    }
  }

  lemma {:induction false} TrimmedFaithful(s: State)
    requires Owned(s) && Faithful(s)
    ensures Faithful(Trimmed(s)) && Trimmed(s).run == s.run
    decreases |s.free|
  {
    if |s.free| >= MAX_FREE {
      FreeKeepsOwned(s);
      FreeFaithful(s);
      TrimmedFaithful(FreeOldest(s));
    }
  }

  lemma RunMoveFaithful(s: State, run: RunPc)
    requires Faithful(s) && Current(run) == Current(s.run) && !run.Copying?
    requires run.Checking? || run.Allocating? || run.Taking? ==> run.m.slot.Some?
    ensures Faithful(s.(run := run))
  {}

  lemma DrainFaithful(s: State)
    requires Owned(s) && Faithful(s) && s.run.Draining?
    ensures Faithful(DrainQueue(s))
  {
    DrainedFaithful(s);
    RunMoveFaithful(Drained(s), Unpacking(s.run.m));
  }

  lemma TrimFaithful(s: State)
    requires Owned(s) && Faithful(s) && s.run.Trimming?
    ensures Faithful(TrimQueue(s))
  {
    TrimmedFaithful(s);
    RunMoveFaithful(Trimmed(s), RunTop);
  }

  lemma RejectFaithful(s: State)
    requires Faithful(s) && (s.run.Unpacking? || s.run.Allocating?)
    ensures Faithful(Reject(s, s.run.m))
  {}

  lemma UnpackFaithful(s: State)
    requires Faithful(s) && s.run.Unpacking?
    ensures Faithful(UnpackMessage(s))
  {
    if s.run.m.slot.None? { RejectFaithful(s); } else { RunMoveFaithful(s, Checking(s.run.m)); }
  }

  lemma CheckFaithful(s: State)
    requires Faithful(s) && s.run.Checking?
    ensures Faithful(CheckQueue(s))
  {
    RunMoveFaithful(s, CheckQueue(s).run);
  }

  lemma MessageFaithful(s: State, step: Step)
    requires Owned(s) && Faithful(s) && Enabled(s, step)
    requires step.OnMessage()
    ensures Faithful(Next(s, step))
  {
    match step {
      case Receive(slot) => ReceiveFaithful(s, slot);
      case Drain => DrainFaithful(s);
      case Unpack => UnpackFaithful(s);
      case CheckEmpty => CheckFaithful(s);
      case AllocFails => RejectFaithful(s);
    }
  }

  lemma FrameFaithful(s: State, step: Step)
    requires Owned(s) && Faithful(s) && Enabled(s, step) && Fit(s, step) && step.OnFrame()
    ensures Faithful(Next(s, step))
  {
    match step {
      case Alloc(f, content) => AllocateFaithful(s, f, content);
      case Take => FreeIsLive(s); TakeFaithful(s);
      case CopyByte(b) => CopyFaithful(s, b);
      case Push => PushFaithful(s);
      case Trim => TrimFaithful(s);
    }
  }

  lemma InferFaithful(s: State, step: Step)
    requires Owned(s) && Faithful(s) && Enabled(s, step) && Fit(s, step) && step.OnInference()
    ensures Faithful(Next(s, step))
  {
    match step {
      case Pop => PopFaithful(s);
      case ReadByte => ReadFaithful(s);
      case GiveBack => ReturnFaithful(s);
    }
  }

  lemma ControlFaithful(s: State, step: Step)
    requires Faithful(s) && Enabled(s, step) && step.OnControl()
    ensures Faithful(Next(s, step))
  {}

  lemma FaithfulStep(s: State, step: Step)
    requires Safe(s) && Ordered(s) && Faithful(s) && Enabled(s, step)
    ensures Faithful(Next(s, step))
  {
    StepFits(s, step);
    FitFaithful(s, step);
  }

  lemma FitFaithful(s: State, step: Step)
    requires Owned(s) && Faithful(s) && Enabled(s, step) && Fit(s, step)
    ensures Faithful(Next(s, step))
  {
    if step.OnMessage() {
      MessageFaithful(s, step);
    } else if step.OnFrame() {
      FrameFaithful(s, step);
    } else if step.OnInference() {
      InferFaithful(s, step);
    } else {
      ControlFaithful(s, step);
    }
  }

  // ------------------------------------------------- every step keeps the trace

  lemma LeftMore(content: seq<u8>, inferred: seq<Inferred>, x: Inferred, bound: int)
    requires LeftBehind(content, inferred, bound)
    ensures LeftBehind(content, inferred + [x], bound)
  {
    var k :| 0 <= k < |inferred| && inferred[k].n < bound && inferred[k].bytes == content;
    assert (inferred + [x])[k] == inferred[k];
  }

  lemma LeftLater(content: seq<u8>, inferred: seq<Inferred>, bound: int, bound': int)
    requires LeftBehind(content, inferred, bound) && bound <= bound'
    ensures LeftBehind(content, inferred, bound')
  {}

  /** Buffers that stay free, with the same content, stay traced. */
  lemma FreeKept(s: State, free: seq<nat>, heap: map<nat, seq<u8>>, bound: int)
    requires FreeTraced(s.free, s.heap, s.inferred, Finished(s)) && Finished(s) <= bound
    requires forall i | 0 <= i < |free| :: free[i] in s.free && free[i] in heap && heap[free[i]] == Contents(s, free[i])
    ensures FreeTraced(free, heap, s.inferred, bound)
  {
    forall i | 0 <= i < |free| ensures LeftBehind(heap[free[i]], s.inferred, bound) {
      LeftLater(heap[free[i]], s.inferred, Finished(s), bound);
    }
  }

  lemma DropTraced(s: State)
    requires Owned(s) && Traced(s) && s.inference != []
    ensures Traced(DropOldest(s))
  {
    OwnedIsExclusive(s);
    FreeKept(s, s.free, DropOldest(s).heap, Finished(s));
  }

  lemma FreeOldestTraced(s: State)
    requires Owned(s) && Traced(s) && s.free != []
    ensures Traced(FreeOldest(s))
  {
    OwnedIsExclusive(s);
    FreeKept(s, s.free[1..], FreeOldest(s).heap, Finished(s));
  }

  lemma {:induction false} DrainedTraced(s: State)
    requires Owned(s) && Traced(s)
    ensures Traced(Drained(s)) && Drained(s).run == s.run && Drained(s).received == s.received
    decreases |s.inference|
  {
    if |s.inference| >= MAX_INFERENCE {
      DropKeepsOwned(s);
      DropTraced(s);
      DrainedTraced(DropOldest(s));
    }
  }

  lemma {:induction false} TrimmedTraced(s: State)
    requires Owned(s) && Traced(s)
    ensures Traced(Trimmed(s)) && Trimmed(s).run == s.run && Trimmed(s).received == s.received
    decreases |s.free|
  {
    if |s.free| >= MAX_FREE {
      FreeKeepsOwned(s);
      FreeOldestTraced(s);
      TrimmedTraced(FreeOldest(s));
    }
  }

  /** Moving on without touching a buffer. */
  lemma MoveTraced(s: State, t: State)
    requires Traced(s) && t.free == s.free && t.heap == s.heap && t.inferred == s.inferred && t.pushed == s.pushed
    requires Finished(s) <= Finished(t) && (t.run == s.run || !t.run.Copying?)
    ensures Traced(t)
  {
    FreeKept(s, t.free, t.heap, Finished(t));
  }

  lemma DrainTraced(s: State)
    requires Owned(s) && Traced(s) && s.run.Draining?
    ensures Traced(DrainQueue(s))
  {
    DrainedTraced(s);
    MoveTraced(Drained(s), DrainQueue(s));
  }

  lemma ReceiveTraced(s: State, slot: Option<nat>)
    requires Traced(s) && s.run.Receiving?
    ensures Traced(ReceiveMessage(s, slot))
  {
    MoveTraced(s, ReceiveMessage(s, slot));
  }

  lemma UnpackTraced(s: State)
    requires Traced(s) && s.run.Unpacking?
    ensures Traced(UnpackMessage(s))
  {
    MoveTraced(s, UnpackMessage(s));
  }

  lemma CheckTraced(s: State)
    requires Traced(s) && s.run.Checking?
    ensures Traced(CheckQueue(s))
  {
    MoveTraced(s, CheckQueue(s));
  }

  lemma RejectTraced(s: State)
    requires Traced(s) && s.run.Allocating?
    ensures Traced(Reject(s, s.run.m))
  {
    MoveTraced(s, Reject(s, s.run.m));
  }

  lemma MessageTraced(s: State, step: Step)
    requires Owned(s) && Traced(s) && Enabled(s, step) && step.OnMessage()
    ensures Traced(Next(s, step))
  {
    match step {
      case Receive(slot) => ReceiveTraced(s, slot);
      case Drain => DrainTraced(s);
      case Unpack => UnpackTraced(s);
      case CheckEmpty => CheckTraced(s);
      case AllocFails => RejectTraced(s);
    }
  }

  lemma AllocateTraced(s: State, f: nat, content: seq<u8>)
    requires Owned(s) && Traced(s) && s.run.Allocating? && f !in s.heap
    ensures Traced(Allocate(s, f, content))
  {
    FreeKept(s, s.free, Allocate(s, f, content).heap, Finished(s));
  }

  lemma TakeTraced(s: State)
    requires Owned(s) && Traced(s) && s.run.Taking? && s.free != [] && s.run.m.n == |s.received| - 1
    ensures Traced(TakeFree(s))
  {
    FreeKept(s, s.free[1..], s.heap, Finished(s));
  }

  lemma CopyTraced(s: State, b: u8)
    requires Owned(s) && Traced(s) && s.run.Copying? && |s.run.bytes| < s.setup.frameSize
    ensures Traced(CopyInto(s, b))
  {
    OwnedIsExclusive(s);
    HolderIsLive(s, s.run.frame);
    FreeKept(s, s.free, CopyInto(s, b).heap, Finished(s));
  }

  lemma PushTraced(s: State)
    requires Traced(s) && s.run.Copying? && s.run.m.n == |s.received| - 1
    ensures Traced(PushFrame(s))
  {
    FreeKept(s, s.free, s.heap, Finished(PushFrame(s)));
  }

  lemma TrimTraced(s: State)
    requires Owned(s) && Traced(s) && s.run.Trimming?
    ensures Traced(TrimQueue(s))
  {
    TrimmedTraced(s);
    MoveTraced(Trimmed(s), TrimQueue(s));
  }

  lemma FrameTraced(s: State, step: Step)
    requires Owned(s) && Traced(s) && Enabled(s, step) && Fit(s, step) && step.OnFrame()
    ensures Traced(Next(s, step))
  {
    match step {
      case Alloc(f, content) => AllocateTraced(s, f, content);
      case Take => TakeTraced(s);
      case CopyByte(b) => CopyTraced(s, b);
      case Push => PushTraced(s);
      case Trim => TrimTraced(s);
    }
  }

  /** What was left behind stays so when the log of inference grows. */
  lemma LogTraced(run: RunPc, pushed: map<nat, Pushed>, inferred: seq<Inferred>, x: Inferred)
    requires RunTraced(run, inferred) && PushedTraced(pushed, inferred)
    ensures RunTraced(run, inferred + [x]) && PushedTraced(pushed, inferred + [x])
  {
    if run.Copying? && run.recycled { LeftMore(run.before, inferred, x, run.m.n); }
    forall n | n in pushed && pushed[n].recycled ensures LeftBehind(pushed[n].before, inferred + [x], n) {
      LeftMore(pushed[n].before, inferred, x, n);
    }
  }

  /** A buffer is added to the free queue, or freed, after its content was logged. */
  lemma FreeReturned(free: seq<nat>, heap: map<nat, seq<u8>>, inferred: seq<Inferred>, x: Inferred, f: nat, bound: int)
    requires FreeTraced(free, heap, inferred, bound) && x.n < bound && f in heap && heap[f] == x.bytes && f !in free
    ensures FreeTraced(free + [f], heap, inferred + [x], bound) && FreeTraced(free, heap - {f}, inferred + [x], bound)
  {
    assert (inferred + [x])[|inferred|] == x;
    forall i | 0 <= i < |free| ensures LeftBehind(heap[free[i]], inferred + [x], bound) {
      LeftMore(heap[free[i]], inferred, x, bound);
    }
  }

  /** The buffer that inference works on holds what it has read, and is not free. */
  ghost predicate WholeRead(s: State) {
    && s.infer.Inferring? && s.infer.frame in s.heap && s.heap[s.infer.frame] == s.infer.seen
    && s.infer.frame !in s.free && s.infer.n < Finished(s)
  }

  lemma ReadContent(s: State)
    requires Owned(s) && Faithful(s) && Enabled(s, GiveBack)
    ensures WholeRead(s)
  {
    OwnedIsExclusive(s);
    HolderIsLive(s, s.infer.frame);
    ReadToTheEnd(s.infer, s.heap, s.pushed);
  }

  lemma ReturnTraced(s: State)
    requires Traced(s) && WholeRead(s)
    ensures Traced(ReturnFrame(s))
  {
    var x := Inferred(s.infer.n, s.infer.seen);
    FreeReturned(s.free, s.heap, s.inferred, x, s.infer.frame, Finished(s));
    LogTraced(s.run, s.pushed, s.inferred, x);
  }

  lemma GiveBackTraced(s: State)
    requires Owned(s) && Faithful(s) && Traced(s) && Enabled(s, GiveBack)
    ensures Traced(ReturnFrame(s))
  {
    ReadContent(s);
    ReturnTraced(s);
  }

  lemma PopTraced(s: State)
    requires Traced(s)
    ensures Traced(PopFrame(s))
  {
    MoveTraced(s, PopFrame(s));
  }

  lemma ReadTraced(s: State)
    requires Traced(s) && s.infer.Inferring?
    ensures Traced(ReadFrom(s))
  {
    MoveTraced(s, ReadFrom(s));
  }

  lemma InferTraced(s: State, step: Step)
    requires Owned(s) && Faithful(s) && Traced(s) && Enabled(s, step) && Fit(s, step) && step.OnInference()
    ensures Traced(Next(s, step))
  {
    match step {
      case Pop => PopTraced(s);
      case ReadByte => ReadTraced(s);
      case GiveBack => GiveBackTraced(s);
    }
  }

  lemma ControlTraced(s: State, step: Step)
    requires Traced(s) && Enabled(s, step) && step.OnControl()
    ensures Traced(Next(s, step))
  {
    MoveTraced(s, Next(s, step));
  }

  lemma FitTraced(s: State, step: Step)
    requires Owned(s) && Faithful(s) && Traced(s) && Enabled(s, step) && Fit(s, step)
    ensures Traced(Next(s, step))
  {
    if step.OnMessage() {
      MessageTraced(s, step);
    } else if step.OnFrame() {
      FrameTraced(s, step);
    } else if step.OnInference() {
      InferTraced(s, step);
    } else {
      ControlTraced(s, step);
    }
  }

  lemma TracedStep(s: State, step: Step)
    requires Safe(s) && Ordered(s) && Faithful(s) && Traced(s) && Enabled(s, step)
    ensures Traced(Next(s, step))
  {
    StepFits(s, step);
    FitTraced(s, step);
  }

  // ------------------------------------------------- runs

  /** An interleaving of the two threads. */
  ghost predicate IsRun(states: seq<State>, steps: seq<Step>) {
    && |states| == |steps| + 1 && Init(states[0])
    && forall i | 0 <= i < |steps| :: Enabled(states[i], steps[i]) && states[i + 1] == Next(states[i], steps[i])
  }

  lemma {:induction false} RunSafe(states: seq<State>, steps: seq<Step>, i: nat)
    requires IsRun(states, steps) && i < |states|
    ensures Safe(states[i])
  {
    if i > 0 {
      RunSafe(states, steps, i - 1);
      SafeStep(states[i - 1], steps[i - 1]);
    }
  }

  lemma {:induction false} RunOrdered(states: seq<State>, steps: seq<Step>, i: nat)
    requires IsRun(states, steps) && i < |states|
    ensures Ordered(states[i])
  {
    if i > 0 {
      RunOrdered(states, steps, i - 1);
      RunSafe(states, steps, i - 1);
      OrderedStep(states[i - 1], steps[i - 1]);
    }
  }

  lemma {:induction false} RunIsFaithful(states: seq<State>, steps: seq<Step>, i: nat)
    requires IsRun(states, steps) && i < |states|
    ensures Faithful(states[i])
  {
    if i > 0 {
      RunIsFaithful(states, steps, i - 1);
      RunSafe(states, steps, i - 1);
      RunOrdered(states, steps, i - 1);
      FaithfulStep(states[i - 1], steps[i - 1]);
    }
  }

  lemma {:induction false} RunTraces(states: seq<State>, steps: seq<Step>, i: nat)
    requires IsRun(states, steps) && i < |states|
    ensures Traced(states[i])
  {
    if i > 0 {
      RunTraces(states, steps, i - 1);
      RunIsFaithful(states, steps, i - 1);
      RunSafe(states, steps, i - 1);
      RunOrdered(states, steps, i - 1);
      TracedStep(states[i - 1], steps[i - 1]);
    }
  }

  // ------------------------------------------------- the theorems

  /** In every interleaving a frame buffer is held in at most one place, nothing else is accessed, and
      `front` is called on a queue that is not empty although the test was made without the lock. */
  lemma BuffersAreExclusive(states: seq<State>, steps: seq<Step>, i: nat)
    requires IsRun(states, steps) && i < |states|
    ensures Exclusive(states[i])
    ensures !states[i].run.RunUndefined? && !states[i].infer.InferUndefined?
    ensures states[i].run.Taking? ==> states[i].free != []
  {
    RunSafe(states, steps, i);
    OwnedIsExclusive(states[i]);
  }

  /** At most 50 frames are in each queue, and at most 51 buffers are live: one is only allocated when
      there are 50 at most. */
  lemma BuffersAreBounded(states: seq<State>, steps: seq<Step>, i: nat)
    requires IsRun(states, steps) && i < |states|
    ensures |states[i].free| <= MAX_FREE && |states[i].inference| <= MAX_INFERENCE
    ensures |states[i].heap| <= MAX_INFERENCE + 1
    ensures states[i].run.Allocating? ==> |states[i].heap| <= MAX_INFERENCE
  {
    RunSafe(states, steps, i);
    LiveCount(states[i]);
  }

  /** A live buffer is never forgotten: it is in a queue or in the hands of a thread. */
  lemma NoBufferLeaks(states: seq<State>, steps: seq<Step>, i: nat, f: nat)
    requires IsRun(states, steps) && i < |states| && f in states[i].heap
    ensures var s := states[i];
            || f in s.free || f in Frames(s.inference)
            || (s.run.Copying? && s.run.frame == f) || (s.infer.Inferring? && s.infer.frame == f)
  {
    RunSafe(states, steps, i);
    assert Holders(states[i])[f] == 1;
  }

  /** All the bytes of a frame are copied: the slot exists and is large enough, or there is none to copy. */
  predicate CopiedWhole(setup: Setup, slot: nat) {
    setup.frameSize == 0 || (slot < setup.slots && setup.frameSize <= setup.slotSize)
  }

  /** While inference works on a frame, the buffer holds what was queued for its message ... */
  lemma BytesDuringInference(states: seq<State>, steps: seq<Step>, i: nat)
    requires IsRun(states, steps) && i < |states| && states[i].infer.Inferring?
    ensures var s := states[i];
            && s.infer.n in s.pushed && s.infer.n < |s.received| && s.infer.frame in s.heap
            && PushedFor(s.pushed[s.infer.n], s.received[s.infer.n], s.setup)
            && s.heap[s.infer.frame] == s.pushed[s.infer.n].image
  {
    RunIsFaithful(states, steps, i);
  }

  /** ... and what it has read at the end is the bytes copied for that message, followed by the tail of
      what the buffer held before.  For a recycled buffer that is what inference read for some earlier
      message; for a new one it is whatever the allocation left there. */
  lemma InferredBytes(states: seq<State>, steps: seq<Step>, i: nat, k: nat)
    requires IsRun(states, steps) && i < |states| && k < |states[i].inferred|
    ensures var s := states[i];
            var x := s.inferred[k];
            && x.n in s.pushed && x.n < |s.received| && s.received[x.n].Some?
            && var slot, p := s.received[x.n].value, s.pushed[x.n];
               && |p.copied| == s.setup.Available(slot) && |p.before| == s.setup.frameSize
               && x.bytes == p.copied + p.before[|p.copied|..]
               && (p.recycled ==>
                     exists j :: 0 <= j < |s.inferred| && s.inferred[j].n < x.n && s.inferred[j].bytes == p.before)
  {
    RunIsFaithful(states, steps, i);
    RunTraces(states, steps, i);
    var s := states[i];
    assert PushedFor(s.pushed[s.inferred[k].n], s.received[s.inferred[k].n], s.setup);
  }

  function DroppedCount(t: seq<Taken>): nat {
    if t == [] then 0
    else DroppedCount(t[..|t| - 1]) + if t[|t| - 1].Dropped? then 1 else 0
  }

  lemma {:induction false} GivenAndDropped(t: seq<Taken>)
    ensures |t| == |GivenNumbers(t)| + DroppedCount(t)
  {
    if t != [] { GivenAndDropped(t[..|t| - 1]); }
  }

  /** The messages given to inference keep the order in which messages were taken. */
  lemma {:induction false} GivenIncreasing(t: seq<Taken>)
    requires Increasing(TakenNumbers(t))
    ensures Increasing(GivenNumbers(t))
    ensures forall i | 0 <= i < |GivenNumbers(t)| :: t != [] && GivenNumbers(t)[i] <= t[|t| - 1].n
  {
    if t != [] {
      var rest := t[..|t| - 1];
      assert forall i | 0 <= i < |rest| :: TakenNumbers(t)[i] == TakenNumbers(rest)[i];
      GivenIncreasing(rest);
      if rest != [] {
        assert TakenNumbers(t)[|rest| - 1] < TakenNumbers(t)[|rest|];
      }
    }
  }

  lemma IncreasingPart(a: seq<nat>, b: seq<nat>)
    requires Increasing(a + b)
    ensures Increasing(a)
  {
    assert forall i | 0 <= i < |a| :: a[i] == (a + b)[i];
  }

  /** The frames given to inference are received frames in the order of their reception, each at most once. */
  lemma InferenceKeepsOrder(states: seq<State>, steps: seq<Step>, i: nat)
    requires IsRun(states, steps) && i < |states|
    ensures Increasing(InferredNumbers(states[i].inferred) + InferNumber(states[i].infer))
    ensures forall k | 0 <= k < |states[i].inferred| :: states[i].inferred[k].n < |states[i].received|
  {
    RunOrdered(states, steps, i);
    var s := states[i];
    var rest := QueuedNumbers(s.inference) + CurrentNumber(s.run);
    assert Line(s) == TakenNumbers(s.taken) + rest;
    IncreasingPart(TakenNumbers(s.taken), rest);
    GivenIncreasing(s.taken);
    assert forall k | 0 <= k < |s.taken| :: Line(s)[k] == s.taken[k].n;
    var given := GivenNumbers(s.taken);
    forall k | 0 <= k < |s.inferred| ensures s.inferred[k].n < |s.received| {
      assert given[k] == s.inferred[k].n;
      assert Line(s)[|s.taken| - 1] < |s.received|;
    }
  }

  /** Every message received is in exactly one place: rejected, taken from the inference queue, still in
      it, or in the hands of `runLoop`. */
  lemma MessagesConserved(states: seq<State>, steps: seq<Step>, i: nat)
    requires IsRun(states, steps) && i < |states|
    ensures multiset(Line(states[i]) + states[i].rejected) == multiset(UpTo(|states[i].received|))
    ensures var s := states[i];
            |s.received| == |s.rejected| + DroppedCount(s.taken) + |s.inferred| + |InferNumber(s.infer)|
                            + |s.inference| + |CurrentNumber(s.run)|
  {
    RunOrdered(states, steps, i);
    var s := states[i];
    GivenAndDropped(s.taken);
    CountUpTo(|s.received|);
    assert |multiset(Line(s) + s.rejected)| == |Line(s)| + |s.rejected|;
  }

  lemma CountUpTo(n: nat)
    ensures |multiset(UpTo(n))| == n
  {
    assert |multiset(UpTo(n))| == |UpTo(n)|;
  }

  // ------------------------------------------------- states that are reached

  ghost predicate Reachable(s: State) {
    exists states, steps :: IsRun(states, steps) && states[|steps|] == s
  }

  lemma ReachableIsRight(s: State)
    requires Reachable(s)
    ensures Safe(s) && Ordered(s) && Faithful(s)
  {
    var states, steps :| IsRun(states, steps) && states[|steps|] == s;
    RunSafe(states, steps, |steps|);
    RunOrdered(states, steps, |steps|);
    RunIsFaithful(states, steps, |steps|);
  }

  lemma Reach(s: State, step: Step)
    requires Reachable(s) && Enabled(s, step)
    ensures Reachable(Next(s, step))
  {
    var states, steps :| IsRun(states, steps) && states[|steps|] == s;
    var states', steps' := states + [Next(s, step)], steps + [step];
    assert IsRun(states', steps') && states'[|steps'|] == Next(s, step);
  }

  function Start(setup: Setup): State {
    State(setup, [], [], map[], false, RunTop, InferTop, [], [], [], map[], [])
  }

  lemma ReachStart(setup: Setup)
    ensures Reachable(Start(setup))
  {
    var states: seq<State>, steps: seq<Step> := [Start(setup)], [];
    assert IsRun(states, steps) && states[|steps|] == Start(setup);
  }

  /** `runLoop` is at its top with room in the inference queue. */
  predicate Idle(s: State) { s.run.RunTop? && !s.stop && |s.inference| < MAX_INFERENCE && |s.free| <= MAX_FREE }

  /** A message has arrived and the free queue has been looked at. */
  function Arrived(s: State, slot: nat): State {
    CheckQueue(s.(received := s.received + [Some(slot)], run := Checking(Message(|s.received|, Some(slot)))))
  }

  lemma ReachArrived(s: State, slot: nat)
    requires Reachable(s) && Idle(s)
    ensures Reachable(Arrived(s, slot))
  {
    Reach(s, RunTest);
    var r := s.(run := Receiving);
    Reach(r, Receive(Some(slot)));
    var d := ReceiveMessage(r, Some(slot));
    Reach(d, Drain);
    Reach(DrainQueue(d), Unpack);
    Reach(UnpackMessage(DrainQueue(d)), CheckEmpty);
  }

  /** The copy has come so far. */
  function Copied(s: State, bytes: seq<u8>): State
    requires s.run.Copying? && |bytes| <= |s.run.before|
  {
    s.(heap := s.heap[s.run.frame := Overlaid(s.run.before, bytes)], run := s.run.(bytes := bytes))
  }

  ghost predicate CopyBegins(s: State) {
    && s.run.Copying? && s.run.bytes == [] && |s.run.before| == s.setup.frameSize
    && s.run.frame in s.heap && s.heap[s.run.frame] == s.run.before
  }

  lemma {:induction false} ReachCopied(s: State, bytes: seq<u8>)
    requires Reachable(s) && CopyBegins(s) && |bytes| <= AvailableFor(s, s.run.m)
    ensures Reachable(Copied(s, bytes))
    decreases |bytes|
  {
    if bytes == [] {
      assert Overlaid(s.run.before, []) == s.run.before;
      assert Copied(s, []) == s;
    } else {
      var most, b := bytes[..|bytes| - 1], bytes[|bytes| - 1];
      ReachCopied(s, most);
      Reach(Copied(s, most), CopyByte(b));
      CopiedMore(s, most, b);
      assert most + [b] == bytes;
    }
  }

  lemma CopiedMore(s: State, bytes: seq<u8>, b: u8)
    requires CopyBegins(s) && |bytes| < s.setup.frameSize
    ensures CopyInto(Copied(s, bytes), b) == Copied(s, bytes + [b])
  {
    OverlayGrows(s.run.before, bytes, b);
  }

  /** The frame is queued and `runLoop` is back at its top. */
  function Queueing(s: State, bytes: seq<u8>): State
    requires s.run.Copying? && |bytes| <= |s.run.before|
  {
    PushFrame(Copied(s, bytes)).(run := RunTop)
  }

  lemma ReachQueueing(s: State, bytes: seq<u8>)
    requires Reachable(s) && CopyBegins(s) && |bytes| == AvailableFor(s, s.run.m) && |s.free| < MAX_FREE
    ensures Reachable(Queueing(s, bytes))
  {
    ReachCopied(s, bytes);
    Reach(Copied(s, bytes), Push);
    Reach(PushFrame(Copied(s, bytes)), Trim);
  }

  /** A whole message for which a buffer is allocated. */
  function SentNew(s: State, slot: nat, bytes: seq<u8>, frame: nat, content: seq<u8>): State
    requires s.free == [] && |bytes| <= |content|
  {
    Queueing(Allocate(Arrived(s, slot), frame, content), bytes)
  }

  lemma ReachSentNew(s: State, slot: nat, bytes: seq<u8>, frame: nat, content: seq<u8>)
    requires Reachable(s) && Idle(s) && s.free == [] && frame !in s.heap
    requires |content| == s.setup.frameSize && |bytes| == s.setup.Available(slot)
    ensures Reachable(SentNew(s, slot, bytes, frame, content))
  {
    ReachArrived(s, slot);
    Reach(Arrived(s, slot), Alloc(frame, content));
    ReachQueueing(Allocate(Arrived(s, slot), frame, content), bytes);
  }

  /** A whole message for which a buffer is recycled. */
  function SentRecycled(s: State, slot: nat, bytes: seq<u8>): State
    requires s.free != [] && |bytes| <= |Contents(s, s.free[0])|
  {
    Queueing(TakeFree(Arrived(s, slot)), bytes)
  }

  lemma ReachSentRecycled(s: State, slot: nat, bytes: seq<u8>)
    requires Reachable(s) && Idle(s) && s.free != [] && |bytes| == s.setup.Available(slot)
    ensures s.free[0] in s.heap && |s.heap[s.free[0]]| == s.setup.frameSize
    ensures Reachable(SentRecycled(s, slot, bytes))
  {
    ReachableIsRight(s);
    FreeIsLive(s);
    ReachArrived(s, slot);
    Reach(Arrived(s, slot), Take);
    ReachQueueing(TakeFree(Arrived(s, slot)), bytes);
  }

  /** Inference has taken the oldest frame ... */
  function Started(s: State): State { PopFrame(s.(infer := Popping)) }

  lemma ReachStarted(s: State)
    requires Reachable(s) && s.infer.InferTop? && !s.stop
    ensures Reachable(Started(s))
  {
    Reach(s, InferTest);
    Reach(s.(infer := Popping), Pop);
  }

  lemma {:induction false} ReachRead(s: State, k: nat)
    requires Reachable(s) && s.infer.Inferring? && s.infer.seen == [] && s.infer.frame in s.heap
    requires |s.heap[s.infer.frame]| == s.setup.frameSize && k <= s.setup.frameSize
    ensures Reachable(s.(infer := s.infer.(seen := s.heap[s.infer.frame][..k])))
  {
    var content := s.heap[s.infer.frame];
    if k == 0 {
      assert s.(infer := s.infer.(seen := content[..0])) == s;
    } else {
      ReachRead(s, k - 1);
      Reach(s.(infer := s.infer.(seen := content[..k - 1])), ReadByte);
      assert content[..k - 1] + [content[k - 1]] == content[..k];
    }
  }

  /** ... and has read the whole of it and given the buffer back. */
  function Finishing(s: State): State
    requires s.infer.Inferring?
  {
    ReturnFrame(s.(infer := s.infer.(seen := Contents(s, s.infer.frame))))
  }

  lemma ReachFinishing(s: State)
    requires Reachable(s) && s.infer.Inferring? && s.infer.seen == []
    ensures Reachable(Finishing(s))
  {
    ReachableIsRight(s);
    HolderIsLive(s, s.infer.frame);
    var content := s.heap[s.infer.frame];
    ReachRead(s, |content|);
    assert content[..|content|] == content;
    Reach(s.(infer := s.infer.(seen := content)), GiveBack);
  }

  /** The oldest frame of the inference queue was read and its buffer recycled. */
  function Handled(s: State): State
    requires s.inference != []
  {
    var q := s.inference[0];
    s.(inference := s.inference[1..], taken := s.taken + [Given(q.n)], free := s.free + [q.frame],
       inferred := s.inferred + [Inferred(q.n, Contents(s, q.frame))])
  }

  lemma ReachHandled(s: State)
    requires Reachable(s) && s.infer.InferTop? && !s.stop && s.inference != [] && |s.free| < MAX_FREE
    ensures Reachable(Handled(s))
  {
    ReachStarted(s);
    ReachFinishing(Started(s));
  }

  // ------------------------------------------------- what inference can read

  /** All messages have been handled. */
  predicate Quiet(s: State) { Idle(s) && s.infer.InferTop? && s.inference == [] }

  /** One message from beginning to end, in a new buffer. */
  lemma FirstFrame(setup: Setup, slot: nat, bytes: seq<u8>, content: seq<u8>) returns (s: State)
    requires |bytes| == setup.Available(slot) && |content| == setup.frameSize
    ensures Reachable(s) && Quiet(s) && s.setup == setup && s.received == [Some(slot)]
    ensures s.inferred == [Inferred(0, Overlaid(content, bytes))]
    ensures s.free == [0] && s.heap == map[0 := Overlaid(content, bytes)]
    ensures 0 in s.pushed && s.pushed[0].copied == bytes
  {
    ReachStart(setup);
    ReachSentNew(Start(setup), slot, bytes, 0, content);
    s := SentNew(Start(setup), slot, bytes, 0, content);
    ReachHandled(s);
    s := Handled(s);
  }

  /** The next one, in a recycled buffer. */
  lemma NextFrame(s: State, slot: nat, bytes: seq<u8>) returns (t: State)
    requires Reachable(s) && Quiet(s) && s.free != [] && |bytes| == s.setup.Available(slot)
    ensures s.free[0] in s.heap && |s.heap[s.free[0]]| == s.setup.frameSize
    ensures Reachable(t) && Quiet(t) && t.setup == s.setup && t.received == s.received + [Some(slot)]
    ensures t.inferred == s.inferred + [Inferred(|s.received|, Overlaid(s.heap[s.free[0]], bytes))]
  {
    ReachSentRecycled(s, slot, bytes);
    t := SentRecycled(s, slot, bytes);
    ReachHandled(t);
    t := Handled(t);
  }

  /** A stale frame, for every setup: whatever the first message left in the buffer, the second message
      overwrites only as much of it as is copied for it, and inference reads the rest again.  If nothing is
      copied, because the slot does not exist, inference reads the first frame a second time. */
  lemma StaleFrame(setup: Setup, slot: nat, bytes: seq<u8>, content: seq<u8>, slot': nat, bytes': seq<u8>)
    returns (s: State)
    requires |bytes| == setup.Available(slot) && |content| == setup.frameSize && |bytes'| == setup.Available(slot')
    ensures Reachable(s) && s.setup == setup && s.received == [Some(slot), Some(slot')]
    ensures var first := bytes + content[|bytes|..];
            s.inferred == [Inferred(0, first), Inferred(1, bytes' + first[|bytes'|..])]
    ensures CopiedWhole(setup, slot) && slot' >= setup.slots ==> s.inferred == [Inferred(0, bytes), Inferred(1, bytes)]
  {
    s := FirstFrame(setup, slot, bytes, content);
    s := NextFrame(s, slot', bytes');
    var first := Overlaid(content, bytes);
    assert CopiedWhole(setup, slot) ==> first == bytes;
    assert bytes' == [] ==> Overlaid(first, bytes') == first;
  }

  /** In some run inference reads `bytes` for a message with this slot, after `copied` was copied for it. */
  ghost predicate CanRead(setup: Setup, slot: nat, copied: seq<u8>, bytes: seq<u8>) {
    exists s, k :: Reachable(s) && s.setup == setup && ReadFor(s, k, slot, copied, bytes)
  }

  predicate ReadFor(s: State, k: nat, slot: nat, copied: seq<u8>, bytes: seq<u8>) {
    && k < |s.inferred| && s.inferred[k].bytes == bytes
    && s.inferred[k].n < |s.received| && s.received[s.inferred[k].n] == Some(slot)
    && s.inferred[k].n in s.pushed && s.pushed[s.inferred[k].n].copied == copied
  }

  /** Exactly the frames that begin with the bytes copied can be read. */
  lemma ReadableBytes(setup: Setup, slot: nat, copied: seq<u8>, bytes: seq<u8>)
    requires |copied| == setup.Available(slot)
    ensures CanRead(setup, slot, copied, bytes) <==> |bytes| == setup.frameSize && copied <= bytes
  {
    if CanRead(setup, slot, copied, bytes) {
      var s, k :| Reachable(s) && s.setup == setup && ReadFor(s, k, slot, copied, bytes);
      var states, steps :| IsRun(states, steps) && states[|steps|] == s;
      InferredBytes(states, steps, |steps|, k);
    }
    if |bytes| == setup.frameSize && copied <= bytes {
      var s := FirstFrame(setup, slot, copied, bytes);
      assert Overlaid(bytes, copied) == bytes;
      assert ReadFor(s, 0, slot, copied, bytes);
    }
  }

  /** So the message decides what inference reads if and only if its whole frame could be copied. */
  lemma ReadIsDetermined(setup: Setup, slot: nat, copied: seq<u8>)
    requires |copied| == setup.Available(slot)
    ensures CopiedWhole(setup, slot) <==>
            forall a, b | CanRead(setup, slot, copied, a) && CanRead(setup, slot, copied, b) :: a == b
  {
    if CopiedWhole(setup, slot) {
      forall a, b | CanRead(setup, slot, copied, a) && CanRead(setup, slot, copied, b) ensures a == b {
        ReadableBytes(setup, slot, copied, a);
        ReadableBytes(setup, slot, copied, b);
      }
    } else {
      var a := copied + seq(setup.frameSize - |copied|, _ => 0);
      var b := copied + seq(setup.frameSize - |copied|, _ => 1);
      ReadableBytes(setup, slot, copied, a);
      ReadableBytes(setup, slot, copied, b);
      assert a[|copied|] != b[|copied|];
    }
  }

  // ------------------------------------------------- the bound on buffers is sharp

  lemma {:induction false} Fresh(keys: set<nat>) returns (f: nat)
    ensures f !in keys
    ensures forall k | k in keys :: k < f
  {
    if keys == {} { f := 0; } else {
      var k :| k in keys;
      var g := Fresh(keys - {k});
      f := if k < g then g else k + 1;
      assert forall j | j in keys :: j == k || j in keys - {k};
    }
  }

  /** More messages arrive while inference does not move. */
  lemma {:induction false} QueueMany(s: State, count: nat) returns (t: State)
    requires Reachable(s) && Idle(s) && s.free == [] && |s.inference| + count < MAX_INFERENCE
    ensures Reachable(t) && Idle(t) && t.free == [] && t.setup == s.setup && t.infer == s.infer
    ensures |t.inference| == |s.inference| + count
  {
    t := s;
    if count > 0 {
      var r := QueueMany(s, count - 1);
      var f := Fresh(r.heap.Keys);
      var bytes, content := seq(r.setup.Available(0), _ => 0), seq(r.setup.frameSize, _ => 0);
      ReachSentNew(r, 0, bytes, f, content);
      t := SentNew(r, 0, bytes, f, content);
    }
  }

  /** For every setup, all 51 buffers can be live at once: one inference works on, 49 that are queued and
      one that `runLoop` is filling. */
  lemma BoundIsSharp(setup: Setup) returns (s: State)
    ensures Reachable(s) && s.setup == setup && |s.heap| == MAX_INFERENCE + 1
  {
    ReachStart(setup);
    var one := QueueMany(Start(setup), 1);
    ReachStarted(one);
    var full := QueueMany(Started(one), MAX_INFERENCE - 1);
    ReachArrived(full, 0);
    var f := Fresh(full.heap.Keys);
    s := Allocate(Arrived(full, 0), f, seq(setup.frameSize, _ => 0));
    Reach(Arrived(full, 0), Alloc(f, seq(setup.frameSize, _ => 0)));
    ReachableIsRight(s);
    LiveCount(s);
  }

  // ------------------------------------------------- the regions under a lock, in place

  /** The two queues of the detector; each method is one region under a lock and is shown to do what the
      step of the same name does to them. */
  class ObjDetector {
    var free: seq<nat>
    var inference: seq<Queued>

    ghost predicate Shows(s: State)
      reads this
    {
      free == s.free && inference == s.inference
    }

    constructor ()
      ensures free == [] && inference == []
    {
      free, inference := [], [];
    }

    /** `runLoop` makes room in the inference queue. */
    method DrainInference(ghost s: State)
      requires Shows(s) && s.run.Draining?
      modifies this`inference
      ensures Shows(DrainQueue(s))
      ensures inference == if |old(inference)| < MAX_INFERENCE then old(inference)
                           else old(inference)[|old(inference)| - (MAX_INFERENCE - 1)..]
    {
      ghost var t := s;
      while |inference| >= MAX_INFERENCE
        invariant Shows(t) && Drained(t) == Drained(s)
        invariant |inference| <= |old(inference)| && inference == old(inference)[|old(inference)| - |inference|..]
        invariant |inference| < |old(inference)| ==> |inference| >= MAX_INFERENCE - 1
      {
        t := DropOldest(t);
        inference := inference[1..];
      }
    }

    /** `runLoop` takes a recycled buffer. */
    method TakeFrame(ghost s: State) returns (frame: nat)
      requires Shows(s) && s.run.Taking? && Safe(s)
      modifies this`free
      ensures Shows(TakeFree(s)) && TakeFree(s).run == Copying(s.run.m, frame, [], Contents(s, frame), true)
      ensures old(free) == [frame] + free
    {
      frame := free[0];
      free := free[1..];
    }

    /** `runLoop` queues the buffer it has filled. */
    method PushInference(frame: nat, n: nat, ghost s: State)
      requires Shows(s) && s.run.Copying? && s.run.frame == frame && s.run.m.n == n
      modifies this`inference
      ensures Shows(PushFrame(s))
      ensures inference == old(inference) + [Queued(frame, n)]
    {
      inference := inference + [Queued(frame, n)];
    }

    /** `runLoop` keeps the free queue small. */
    method TrimFree(ghost s: State)
      requires Shows(s) && s.run.Trimming?
      modifies this`free
      ensures Shows(TrimQueue(s))
      ensures free == if |old(free)| < MAX_FREE then old(free) else old(free)[|old(free)| - (MAX_FREE - 1)..]
    {
      ghost var t := s;
      while |free| >= MAX_FREE
        invariant Shows(t) && Trimmed(t) == Trimmed(s)
        invariant |free| <= |old(free)| && free == old(free)[|old(free)| - |free|..]
        invariant |free| < |old(free)| ==> |free| >= MAX_FREE - 1
      {
        t := FreeOldest(t);
        free := free[1..];
      }
    }

    /** `inferenceLoop` takes the oldest frame, if any. */
    method PopInference(ghost s: State) returns (taken: Option<Queued>)
      requires Shows(s) && s.infer.Popping?
      modifies this`inference
      ensures Shows(PopFrame(s))
      ensures taken.None? ==> PopFrame(s).infer == InferTop
      ensures taken.Some? ==> PopFrame(s).infer == Inferring(taken.value.n, taken.value.frame, [])
      ensures taken.None? <==> old(inference) == []
      ensures old(inference) == (if taken.Some? then [taken.value] else []) + inference
    {
      taken := None;
      if inference != [] {
        taken := Some(inference[0]);
        inference := inference[1..];
      }
    }

    /** `inferenceLoop` gives the buffer back unless enough are free. */
    method GiveBackFrame(frame: nat, ghost s: State)
      requires Shows(s) && s.infer.Inferring? && s.infer.frame == frame
      modifies this`free
      ensures Shows(ReturnFrame(s))
      ensures free == if |old(free)| < MAX_FREE then old(free) + [frame] else old(free)
    {
      if |free| < MAX_FREE {
        free := free + [frame];
      }
    }
  }
}
