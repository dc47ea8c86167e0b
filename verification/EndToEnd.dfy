/** The shared-memory ring and the frame pipeline together: the publisher writes frames into slots while
    `runLoop` copies the slot a message names into a frame buffer, and inference reads the buffer later. */
module EndToEnd {
  import opened Wrappers
  import Ring = SharedRing
  import Pipe = FramePipeline

  // ------------------------------------------------- the composed system

  /** `sources` tells the reservation each message was sent for, and `ended` how many publications had
      begun when the copy for a message ended; both only record the past. */
  datatype State = State(ring: Ring.State, pipe: Pipe.State, sources: seq<nat>, ended: map<nat, nat>)

  datatype Step =
    | Publisher(r: Ring.Step)
    | Arrive(n: nat) // the message of reservation `n` is received
    | Receiver(p: Pipe.Step)

  ghost predicate Init(s: State) {
    && Ring.Init(s.ring) && Pipe.Init(s.pipe) && s.sources == [] && s.ended == map[]
    && s.ring.slots == s.pipe.setup.slots && s.ring.size == s.pipe.setup.slotSize
  }

  /** The publisher's steps; its frames have the size that the messages announce. */
  predicate Publishes(r: Ring.Step, frameSize: nat) {
    match r
    case Begin(data) => |data| == frameSize
    case Reject => true
    case WriteByte => true
    case Finish => true
    case _ => false
  }

  function SourceOf(s: State, n: nat): nat { if n < |s.sources| then s.sources[n] else 0 }

  /** What a step of `runLoop` does to the shared memory, if anything. */
  function ReaderStep(s: State, p: Pipe.Step): Option<Ring.Step>
    requires Pipe.Enabled(s.pipe, p)
  {
    match p
    case Alloc(_, _) => Some(Ring.ReadBegin(SourceOf(s, s.pipe.run.m.n)))
    case Take => Some(Ring.ReadBegin(SourceOf(s, s.pipe.run.m.n)))
    case CopyByte(_) => Some(Ring.ReadByte)
    case Push => Some(Ring.ReadEnd)
    case _ => None
  }

  /** The byte of the slot that is copied next. */
  function NextByte(r: Ring.State): u8
    requires Ring.WellFormed(r) && Ring.Enabled(r, Ring.ReadByte)
  {
    var n, k := r.reader.n, |r.reader.buffer|;
    Ring.AddressInside(r, n, k);
    r.mem[Ring.Address(r.size, r.SlotOf(n), k)]
  }

  predicate Together(s: State, p: Pipe.Step)
    requires Ring.WellFormed(s.ring) && Pipe.Enabled(s.pipe, p)
  {
    && (ReaderStep(s, p).Some? ==> Ring.Enabled(s.ring, ReaderStep(s, p).value))
    && (p.CopyByte? ==> p.b == NextByte(s.ring))
  }

  predicate Enabled(s: State, step: Step) {
    Ring.WellFormed(s.ring) &&
    match step
    case Publisher(r) => Ring.Enabled(s.ring, r) && Publishes(r, s.pipe.setup.frameSize)
    case Arrive(n) => s.pipe.run.Receiving? && s.ring.Published(n)
    case Receiver(p) => Pipe.Enabled(s.pipe, p) && !(p.Receive? && p.slot.Some?) && Together(s, p)
  }

  function Publish(s: State, r: Ring.Step): State
    requires Ring.WellFormed(s.ring) && Ring.Enabled(s.ring, r)
  {
    s.(ring := Ring.Next(s.ring, r))
  }

  function Deliver(s: State, n: nat): State
    requires Ring.WellFormed(s.ring)
  {
    s.(pipe := Pipe.ReceiveMessage(s.pipe, Some(s.ring.SlotOf(n))), sources := s.sources + [n])
  }

  function Handle(s: State, p: Pipe.Step): State
    requires Ring.WellFormed(s.ring) && Pipe.Enabled(s.pipe, p) && Together(s, p)
  {
    State(if ReaderStep(s, p).Some? then Ring.Next(s.ring, ReaderStep(s, p).value) else s.ring,
          Pipe.Next(s.pipe, p),
          if p.Receive? then s.sources + [0] else s.sources,
          if p.Push? then s.ended[s.pipe.run.m.n := |s.ring.frames|] else s.ended)
  }

  function Next(s: State, step: Step): State
    requires Enabled(s, step)
  {
    match step
    case Publisher(r) => Publish(s, r)
    case Arrive(n) => Deliver(s, n)
    case Receiver(p) => Handle(s, p)
  }

  // ------------------------------------------------- the invariant

  ghost predicate FramesSized(ring: Ring.State, frameSize: nat) {
    forall n | 0 <= n < |ring.frames| && ring.frames[n].Some? :: |ring.frames[n].value| == frameSize
  }

  /** Every message names the slot of a published frame. */
  ghost predicate SourcesRight(ring: Ring.State, received: seq<Option<nat>>, sources: seq<nat>)
    requires ring.slots > 0
  {
    && |sources| == |received|
    && forall i | 0 <= i < |received| && received[i].Some? ::
         ring.Published(sources[i]) && received[i].value == ring.SlotOf(sources[i])
  }

  /** `runLoop` copies from the slot that the message names. */
  ghost predicate ReaderRight(ring: Ring.State, run: Pipe.RunPc, sources: seq<nat>) {
    if run.Copying?
    then run.m.n < |sources| && ring.reader == Ring.Copying(sources[run.m.n], run.bytes)
    else ring.reader.Idle?
  }

  /** What was copied for a message in time is the frame of its reservation. */
  ghost predicate EndedRight(ring: Ring.State, pushed: map<nat, Pipe.Pushed>, sources: seq<nat>, ended: map<nat, nat>) {
    forall n | n in pushed ::
      && n < |sources| && n in ended && ring.Published(sources[n])
      && (ended[n] <= sources[n] + ring.slots ==> pushed[n].copied == ring.frames[sources[n]].value)
  }

  ghost predicate Linked(s: State) {
    && s.ring.slots == s.pipe.setup.slots > 0 && s.ring.size == s.pipe.setup.slotSize
    && FramesSized(s.ring, s.pipe.setup.frameSize)
    && SourcesRight(s.ring, s.pipe.received, s.sources)
    && ReaderRight(s.ring, s.pipe.run, s.sources)
    && EndedRight(s.ring, s.pipe.pushed, s.sources, s.ended)
  }

  ghost predicate PipeRight(p: Pipe.State) { Pipe.Safe(p) && Pipe.Ordered(p) && Pipe.Faithful(p) }

  ghost predicate Inv(s: State) { Ring.Inv(s.ring) && PipeRight(s.pipe) && Linked(s) }

  lemma PipeStep(p: Pipe.State, step: Pipe.Step)
    requires PipeRight(p) && Pipe.Enabled(p, step)
    ensures PipeRight(Pipe.Next(p, step))
  {
    Pipe.SafeStep(p, step);
    Pipe.OrderedStep(p, step);
    Pipe.FaithfulStep(p, step);
  }

  // ------------------------------------------------- steps of the publisher

  /** The ring keeps its frames and their messages. */
  ghost predicate Grows(r: Ring.State, t: Ring.State) {
    && t.slots == r.slots && t.size == r.size && r.frames <= t.frames
    && forall n | r.Published(n) :: t.Published(n)
  }

  lemma RingGrows(r: Ring.State, step: Ring.Step)
    requires Ring.WellFormed(r) && Ring.Enabled(r, step)
    ensures Grows(r, Ring.Next(r, step))
  {}

  lemma GrownRight(r: Ring.State, t: Ring.State, received: seq<Option<nat>>, pushed: map<nat, Pipe.Pushed>,
                   sources: seq<nat>, ended: map<nat, nat>)
    requires Grows(r, t) && r.slots > 0 && SourcesRight(r, received, sources) && EndedRight(r, pushed, sources, ended)
    ensures SourcesRight(t, received, sources) && EndedRight(t, pushed, sources, ended)
  {}

  lemma PublisherFrames(r: Ring.State, step: Ring.Step, frameSize: nat)
    requires Ring.WellFormed(r) && Ring.Enabled(r, step) && Publishes(step, frameSize) && FramesSized(r, frameSize)
    ensures FramesSized(Ring.Next(r, step), frameSize) && Ring.Next(r, step).reader == r.reader
  {}

  lemma PublishInv(s: State, r: Ring.Step)
    requires Inv(s) && Ring.Enabled(s.ring, r) && Publishes(r, s.pipe.setup.frameSize)
    ensures Inv(Publish(s, r))
  {
    Ring.InvStep(s.ring, r);
    RingGrows(s.ring, r);
    PublisherFrames(s.ring, r, s.pipe.setup.frameSize);
    GrownRight(s.ring, Ring.Next(s.ring, r), s.pipe.received, s.pipe.pushed, s.sources, s.ended);
  }

  lemma DeliverLinked(s: State, n: nat)
    requires Linked(s) && Ring.WellFormed(s.ring) && s.pipe.run.Receiving? && s.ring.Published(n)
    ensures Linked(Deliver(s, n))
  {}

  lemma DeliverInv(s: State, n: nat)
    requires Inv(s) && s.pipe.run.Receiving? && s.ring.Published(n)
    ensures Inv(Deliver(s, n))
  {
    PipeStep(s.pipe, Pipe.Receive(Some(s.ring.SlotOf(n))));
    DeliverLinked(s, n);
  }

  // ------------------------------------------------- steps of the receiver

  /** The steps that touch neither the shared memory nor the log of messages. */
  predicate Apart(p: Pipe.Step) { !p.Receive? && !p.Alloc? && !p.Take? && !p.CopyByte? && !p.Push? }

  ghost predicate SameLog(p: Pipe.State, q: Pipe.State) {
    q.setup == p.setup && q.received == p.received && q.pushed == p.pushed
  }

  lemma {:induction false} DrainedLog(p: Pipe.State)
    ensures SameLog(p, Pipe.Drained(p))
    decreases |p.inference|
  {
    if |p.inference| >= Pipe.MAX_INFERENCE { DrainedLog(Pipe.DropOldest(p)); }
  }

  lemma {:induction false} TrimmedLog(p: Pipe.State)
    ensures SameLog(p, Pipe.Trimmed(p))
    decreases |p.free|
  {
    if |p.free| >= Pipe.MAX_FREE { TrimmedLog(Pipe.FreeOldest(p)); }
  }

  lemma ApartLog(p: Pipe.State, step: Pipe.Step)
    requires Pipe.Enabled(p, step) && Apart(step)
    ensures SameLog(p, Pipe.Next(p, step))
  {
    DrainedLog(p);
    TrimmedLog(p);
  }

  lemma ApartRun(p: Pipe.State, step: Pipe.Step)
    requires Pipe.Enabled(p, step) && Apart(step)
    ensures p.run.Copying? ==> Pipe.Next(p, step).run == p.run
    ensures !p.run.Copying? ==> !Pipe.Next(p, step).run.Copying?
  {}

  lemma ApartInv(s: State, p: Pipe.Step)
    requires Inv(s) && Pipe.Enabled(s.pipe, p) && Apart(p)
    ensures Inv(Handle(s, p))
  {
    PipeStep(s.pipe, p);
    ApartLog(s.pipe, p);
    ApartRun(s.pipe, p);
  }

  lemma UnreadableLinked(s: State)
    requires Linked(s) && Ring.WellFormed(s.ring) && s.pipe.run.Receiving?
    ensures Linked(Handle(s, Pipe.Receive(None)))
  {}

  lemma UnreadableInv(s: State)
    requires Inv(s) && s.pipe.run.Receiving?
    ensures Inv(Handle(s, Pipe.Receive(None)))
  {
    PipeStep(s.pipe, Pipe.Receive(None));
    UnreadableLinked(s);
  }

  /** `runLoop` works on the newest message, which could be unpacked. */
  ghost predicate Unpacked(p: Pipe.State) {
    && (p.run.Allocating? || p.run.Taking? || p.run.Copying?)
    && p.run.m.n == |p.received| - 1 && p.received[p.run.m.n] == p.run.m.slot && p.run.m.slot.Some?
  }

  lemma CurrentMessage(p: Pipe.State)
    requires Pipe.Ordered(p) && Pipe.RunRight(p.run, p.heap, p.received)
    requires p.run.Allocating? || p.run.Taking? || p.run.Copying?
    ensures Unpacked(p)
  {}

  /** The message that `runLoop` copies for names the slot of a published frame, of full size. */
  ghost predicate Sourced(s: State) {
    && Unpacked(s.pipe) && s.pipe.run.m.n < |s.sources|
    && var n := s.sources[s.pipe.run.m.n];
       s.ring.Published(n) && |s.ring.frames[n].value| == Pipe.AvailableFor(s.pipe, s.pipe.run.m)
  }

  lemma UnpackedIsSourced(s: State)
    requires Ring.WellFormed(s.ring) && Linked(s) && Unpacked(s.pipe)
    ensures Sourced(s)
  {}

  lemma CurrentSource(s: State)
    requires Inv(s) && (s.pipe.run.Allocating? || s.pipe.run.Taking? || s.pipe.run.Copying?)
    ensures Sourced(s)
  {
    CurrentMessage(s.pipe);
    UnpackedIsSourced(s);
  }

  lemma SourcedMoves(s: State, p: Pipe.Step)
    requires Sourced(s) && Ring.WellFormed(s.ring) && ReaderRight(s.ring, s.pipe.run, s.sources)
    requires Pipe.Enabled(s.pipe, p) && ReaderStep(s, p).Some?
    ensures Ring.Enabled(s.ring, ReaderStep(s, p).value)
  {}

  /** The ring keeps pace with the pipeline: no step of `runLoop` waits for anything else. */
  lemma NeverBlocked(s: State, p: Pipe.Step)
    requires Inv(s) && Pipe.Enabled(s.pipe, p)
    ensures ReaderStep(s, p).Some? ==> Ring.Enabled(s.ring, ReaderStep(s, p).value)
  {
    if p.Alloc? || p.Take? || p.CopyByte? || p.Push? {
      CurrentSource(s);
      SourcedMoves(s, p);
    }
  }

  /** Reading changes nothing in the ring but the copy. */
  ghost predicate Kept(s: State, t: Ring.State) {
    && t.slots == s.ring.slots > 0 && t.size == s.ring.size && FramesSized(t, s.pipe.setup.frameSize)
    && SourcesRight(t, s.pipe.received, s.sources) && EndedRight(t, s.pipe.pushed, s.sources, s.ended)
  }

  lemma ReadingKeeps(s: State, step: Ring.Step)
    requires Kept(s, s.ring) && Ring.WellFormed(s.ring) && Ring.Enabled(s.ring, step)
    requires step.ReadBegin? || step.ReadByte? || step.ReadEnd?
    ensures Kept(s, Ring.Next(s.ring, step)) && Ring.Next(s.ring, step).frames == s.ring.frames
  {
    RingGrows(s.ring, step);
    GrownRight(s.ring, Ring.Next(s.ring, step), s.pipe.received, s.pipe.pushed, s.sources, s.ended);
  }

  lemma LinkedAgain(s: State, t: State)
    requires Linked(s) && SameLog(s.pipe, t.pipe) && Kept(s, t.ring) && t.sources == s.sources && t.ended == s.ended
    requires ReaderRight(t.ring, t.pipe.run, t.sources)
    ensures Linked(t)
  {}

  lemma BeginPipe(p: Pipe.State, step: Pipe.Step)
    requires Pipe.Safe(p) && Pipe.Enabled(p, step) && (step.Alloc? || step.Take?)
    ensures var q := Pipe.Next(p, step);
            SameLog(p, q) && q.run.Copying? && q.run.m == p.run.m && q.run.bytes == []
  {}

  lemma BeginLinked(s: State, p: Pipe.Step)
    requires Linked(s) && Sourced(s) && Pipe.Safe(s.pipe) && Ring.WellFormed(s.ring)
    requires Pipe.Enabled(s.pipe, p) && Together(s, p) && (p.Alloc? || p.Take?)
    ensures Linked(Handle(s, p))
  {
    BeginPipe(s.pipe, p);
    ReadingKeeps(s, ReaderStep(s, p).value);
    LinkedAgain(s, Handle(s, p));
  }

  lemma BeginInv(s: State, p: Pipe.Step)
    requires Inv(s) && Pipe.Enabled(s.pipe, p) && Together(s, p) && (p.Alloc? || p.Take?)
    ensures Inv(Handle(s, p))
  {
    CurrentSource(s);
    PipeStep(s.pipe, p);
    Ring.InvStep(s.ring, ReaderStep(s, p).value);
    BeginLinked(s, p);
  }

  lemma CopyPipe(p: Pipe.State, b: u8)
    requires Pipe.Enabled(p, Pipe.CopyByte(b)) && Pipe.Fit(p, Pipe.CopyByte(b))
    ensures var q := Pipe.Next(p, Pipe.CopyByte(b));
            SameLog(p, q) && q.run == p.run.(bytes := p.run.bytes + [b])
  {}

  lemma CopyLinked(s: State, b: u8)
    requires Linked(s) && Ring.WellFormed(s.ring) && Pipe.Enabled(s.pipe, Pipe.CopyByte(b))
    requires Pipe.Fit(s.pipe, Pipe.CopyByte(b)) && Together(s, Pipe.CopyByte(b))
    ensures Linked(Handle(s, Pipe.CopyByte(b)))
  {
    CopyPipe(s.pipe, b);
    ReadingKeeps(s, Ring.ReadByte);
    LinkedAgain(s, Handle(s, Pipe.CopyByte(b)));
  }

  lemma CopyInv(s: State, b: u8)
    requires Inv(s) && Pipe.Enabled(s.pipe, Pipe.CopyByte(b)) && Together(s, Pipe.CopyByte(b))
    ensures Inv(Handle(s, Pipe.CopyByte(b)))
  {
    PipeStep(s.pipe, Pipe.CopyByte(b));
    Pipe.StepFits(s.pipe, Pipe.CopyByte(b));
    Ring.InvStep(s.ring, Ring.ReadByte);
    CopyLinked(s, b);
  }

  /** A copy that ends before the slot is reused is the published frame. */
  lemma CopyInTime(r: Ring.State)
    requires Ring.Inv(r) && Ring.Enabled(r, Ring.ReadEnd) && |r.frames| <= r.reader.n + r.slots
    ensures r.reader.buffer == r.frames[r.reader.n].value
  {
    Ring.NotReusedWithinRound(r, r.reader.n);
  }

  lemma PushEnded(s: State)
    requires Linked(s) && Sourced(s) && s.pipe.run.Copying? && s.ring.reader.Copying?
    requires |s.ring.frames| <= s.ring.reader.n + s.ring.slots ==>
               s.ring.reader.buffer == s.ring.frames[s.ring.reader.n].value
    ensures EndedRight(s.ring, Pipe.PushFrame(s.pipe).pushed, s.sources, s.ended[s.pipe.run.m.n := |s.ring.frames|])
  {}

  lemma PushLinked(s: State)
    requires Linked(s) && Sourced(s) && Ring.WellFormed(s.ring)
    requires Pipe.Enabled(s.pipe, Pipe.Push) && Together(s, Pipe.Push)
    requires |s.ring.frames| <= s.ring.reader.n + s.ring.slots ==>
               s.ring.reader.buffer == s.ring.frames[s.ring.reader.n].value
    ensures Linked(Handle(s, Pipe.Push))
  {
    PushEnded(s);
    ReadingKeeps(s.(pipe := Pipe.PushFrame(s.pipe), ended := s.ended[s.pipe.run.m.n := |s.ring.frames|]), Ring.ReadEnd);
  }

  lemma PushInv(s: State)
    requires Inv(s) && Pipe.Enabled(s.pipe, Pipe.Push) && Together(s, Pipe.Push)
    ensures Inv(Handle(s, Pipe.Push))
  {
    CurrentSource(s);
    PipeStep(s.pipe, Pipe.Push);
    Ring.InvStep(s.ring, Ring.ReadEnd);
    if |s.ring.frames| <= s.ring.reader.n + s.ring.slots { CopyInTime(s.ring); }
    PushLinked(s);
  }

  lemma HandleInv(s: State, p: Pipe.Step)
    requires Inv(s) && Pipe.Enabled(s.pipe, p) && !(p.Receive? && p.slot.Some?) && Together(s, p)
    ensures Inv(Handle(s, p))
  {
    match p
    case Receive(slot) => UnreadableInv(s);
    case Alloc(_, _) => BeginInv(s, p);
    case Take => BeginInv(s, p);
    case CopyByte(b) => CopyInv(s, b);
    case Push => PushInv(s);
    case _ => ApartInv(s, p);
  }

  // ------------------------------------------------- runs

  /** An interleaving of the publisher, `runLoop` and `inferenceLoop`. */
  ghost predicate IsRun(states: seq<State>, steps: seq<Step>) {
    && |states| == |steps| + 1 && Init(states[0])
    && forall i | 0 <= i < |steps| :: Enabled(states[i], steps[i]) && states[i + 1] == Next(states[i], steps[i])
  }

  lemma InvStep(s: State, step: Step)
    requires Inv(s) && Enabled(s, step)
    ensures Inv(Next(s, step))
  {
    match step
    case Publisher(r) => PublishInv(s, r);
    case Arrive(n) => DeliverInv(s, n);
    case Receiver(p) => HandleInv(s, p);
  }

  lemma StartInv(s: State)
    requires Init(s)
    ensures Inv(s)
  {
    assert Pipe.IsRun([s.pipe], []) && Ring.IsRun([s.ring], []);
    Ring.RunInv([s.ring], [], 0);
    Pipe.RunSafe([s.pipe], [], 0);
    Pipe.RunOrdered([s.pipe], [], 0);
    Pipe.RunIsFaithful([s.pipe], [], 0);
  }

  lemma {:induction false} RunInv(states: seq<State>, steps: seq<Step>, i: nat)
    requires IsRun(states, steps) && i < |states|
    ensures Inv(states[i])
  {
    if i == 0 {
      StartInv(states[0]);
    } else {
      RunInv(states, steps, i - 1);
      InvStep(states[i - 1], steps[i - 1]);
    }
  }

  /** From publication to inference: a frame published under reservation `n` is what inference reads for
      the message of that reservation, if the copy out of the shared memory ended before publication
      `n + m` began, for m slots, however publisher and both threads interleave. */
  lemma PublishedIsInferred(states: seq<State>, steps: seq<Step>, i: nat, k: nat)
    requires IsRun(states, steps) && i < |states| && k < |states[i].pipe.inferred|
    ensures var s := states[i];
            var x := s.pipe.inferred[k];
            && x.n < |s.sources| && x.n in s.ended && s.ring.Published(s.sources[x.n])
            && (s.ended[x.n] <= s.sources[x.n] + s.ring.slots ==> x.bytes == s.ring.frames[s.sources[x.n]].value)
  {
    RunInv(states, steps, i);
    var s := states[i];
    var x := s.pipe.inferred[k];
    assert Pipe.PushedFor(s.pipe.pushed[x.n], s.pipe.received[x.n], s.pipe.setup);
  }

  // ------------------------------------------------- states that are reached

  ghost predicate Reachable(s: State) {
    exists states, steps :: IsRun(states, steps) && states[|steps|] == s
  }

  lemma ReachableInv(s: State)
    requires Reachable(s)
    ensures Inv(s)
  {
    var states, steps :| IsRun(states, steps) && states[|steps|] == s;
    RunInv(states, steps, |steps|);
  }

  lemma ReachableWellFormed(s: State)
    requires Reachable(s)
    ensures Ring.WellFormed(s.ring)
  {
    ReachableInv(s);
  }

  /** A run, one step longer. */
  lemma Extend(states: seq<State>, steps: seq<Step>, step: Step, t: State)
    requires IsRun(states, steps) && Enabled(states[|steps|], step) && t == Next(states[|steps|], step)
    ensures IsRun(states + [t], steps + [step])
  {}

  lemma Reach(s: State, step: Step)
    requires Reachable(s) && Enabled(s, step)
    ensures Reachable(Next(s, step))
  {
    var states, steps :| IsRun(states, steps) && states[|steps|] == s;
    Extend(states, steps, step, Next(s, step));
    assert (states + [Next(s, step)])[|steps + [step]|] == Next(s, step);
  }

  lemma ReachStart(s: State)
    requires Init(s)
    ensures Reachable(s)
  {
    var steps: seq<Step> := [];
    assert IsRun([s], steps) && [s][|steps|] == s;
  }

  lemma ReachPublish(s: State, r: Ring.Step)
    requires Reachable(s) && Ring.WellFormed(s.ring) && Ring.Enabled(s.ring, r) && Publishes(r, s.pipe.setup.frameSize)
    ensures Reachable(Publish(s, r))
  {
    Reach(s, Publisher(r));
  }

  // ------------------------------------------------- whole publications

  lemma {:induction false} ReachPartly(s: State, data: seq<u8>, k: nat)
    requires Reachable(s) && Ring.WellFormed(s.ring) && s.ring.writing.None?
    requires k <= |data| == s.pipe.setup.frameSize <= s.ring.size
    ensures Reachable(s.(ring := Ring.PartlyPublished(s.ring, data, k)))
  {
    if k == 0 {
      ReachPublish(s, Ring.Begin(data));
      Ring.PublicationBegins(s.ring, data);
    } else {
      ReachPartly(s, data, k - 1);
      Ring.PublishedByBytes(s.ring, data, k - 1);
      ReachPublish(s.(ring := Ring.PartlyPublished(s.ring, data, k - 1)), Ring.WriteByte);
    }
  }

  lemma ReachPublication(s: State, data: seq<u8>)
    requires Reachable(s) && Ring.WellFormed(s.ring) && s.ring.writing.None?
    requires |data| == s.pipe.setup.frameSize <= s.ring.size
    ensures Reachable(s.(ring := Ring.Publication(s.ring, data)))
  {
    ReachPartly(s, data, |data|);
    Ring.StillWellFormed(s.ring, data, |data|);
    ReachPublish(s.(ring := Ring.PartlyPublished(s.ring, data, |data|)), Ring.Finish);
  }

  lemma ReachOneMore(s: State, data: seq<u8>) returns (t: State)
    requires Reachable(s) && Ring.WellFormed(s.ring) && s.ring.writing.None?
    requires |data| == s.pipe.setup.frameSize <= s.ring.size
    ensures Reachable(t) && Ring.WellFormed(t.ring)
    ensures t == s.(ring := s.ring.(mem := t.ring.mem, frames := s.ring.frames + [Some(data)]))
  {
    ReachPublication(s, data);
    Ring.PublicationGrows(s.ring, data);
    t := s.(ring := Ring.Publication(s.ring, data));
  }

  lemma {:induction false} ReachPublications(s: State, frames: seq<seq<u8>>) returns (t: State)
    requires Reachable(s) && Ring.WellFormed(s.ring) && s.ring.writing.None?
    requires s.pipe.setup.frameSize <= s.ring.size
    requires forall i | 0 <= i < |frames| :: |frames[i]| == s.pipe.setup.frameSize
    ensures Reachable(t) && Ring.WellFormed(t.ring)
    ensures t == s.(ring := s.ring.(mem := t.ring.mem, frames := s.ring.frames + Ring.Framed(frames)))
  {
    if frames == [] {
      t := s;
      assert s.ring.frames + Ring.Framed([]) == s.ring.frames;
    } else {
      var init, last := frames[..|frames| - 1], frames[|frames| - 1];
      t := ReachPublications(s, init);
      t := ReachOneMore(t, last);
      assert Ring.Framed(frames) == Ring.Framed(init) + [Some(last)];
    }
  }

  // ------------------------------------------------- one message

  lemma ReachApart(s: State, p: Pipe.Step)
    requires Reachable(s) && Ring.WellFormed(s.ring) && Pipe.Enabled(s.pipe, p) && Apart(p)
    ensures Reachable(s.(pipe := Pipe.Next(s.pipe, p)))
  {
    Reach(s, Receiver(p));
  }

  /** The message of reservation `n` has arrived, the first one, and a buffer is about to be allocated. */
  function FirstArrived(s: State, n: nat): State
    requires s.ring.slots > 0
  {
    s.(pipe := Pipe.Arrived(s.pipe, s.ring.SlotOf(n)), sources := s.sources + [n])
  }

  lemma ReachFirstArrived(s: State, n: nat)
    requires Reachable(s) && Ring.WellFormed(s.ring) && Pipe.Idle(s.pipe) && s.ring.Published(n)
    ensures Reachable(FirstArrived(s, n))
  {
    ReachApart(s, Pipe.RunTest);
    var r := s.(pipe := s.pipe.(run := Pipe.Receiving));
    Reach(r, Arrive(n));
    ReachChecked(Deliver(r, n));
  }

  lemma ReachChecked(s: State)
    requires Reachable(s) && Ring.WellFormed(s.ring) && s.pipe.run.Draining? && s.pipe.run.m.slot.Some?
    requires |s.pipe.inference| < Pipe.MAX_INFERENCE
    ensures Reachable(s.(pipe := Pipe.CheckQueue(s.pipe.(run := Pipe.Checking(s.pipe.run.m)))))
  {
    ReachApart(s, Pipe.Drain);
    var u := s.(pipe := s.pipe.(run := Pipe.Unpacking(s.pipe.run.m)));
    ReachApart(u, Pipe.Unpack);
    ReachApart(u.(pipe := u.pipe.(run := Pipe.Checking(s.pipe.run.m))), Pipe.CheckEmpty);
  }

  /** The copy begins, in a new buffer. */
  function Begun(s: State, n: nat, frame: nat, content: seq<u8>): State
    requires s.pipe.run.Allocating?
  {
    s.(ring := s.ring.(reader := Ring.Copying(n, [])), pipe := Pipe.Allocate(s.pipe, frame, content))
  }

  lemma ReachBegun(s: State, n: nat, frame: nat, content: seq<u8>)
    requires Reachable(s) && s.pipe.run.Allocating? && n == SourceOf(s, s.pipe.run.m.n)
    requires frame !in s.pipe.heap && |content| == s.pipe.setup.frameSize
    ensures Reachable(Begun(s, n, frame, content))
  {
    ReachableInv(s);
    NeverBlocked(s, Pipe.Alloc(frame, content));
    Reach(s, Receiver(Pipe.Alloc(frame, content)));
  }

  /** The copy has come so far, in the ring and in the buffer. */
  function CopiedSoFar(s: State, n: nat, bytes: seq<u8>): State
    requires s.pipe.run.Copying? && |bytes| <= |s.pipe.run.before|
  {
    s.(ring := s.ring.(reader := Ring.Copying(n, bytes)), pipe := Pipe.Copied(s.pipe, bytes))
  }

  ghost predicate CopyBegins(s: State, n: nat, data: seq<u8>) {
    && Ring.WellFormed(s.ring) && s.ring.reader == Ring.Copying(n, []) && Pipe.CopyBegins(s.pipe)
    && |data| == |s.ring.frames[n].value| == s.pipe.setup.frameSize == Pipe.AvailableFor(s.pipe, s.pipe.run.m)
    && Ring.Stands(s.ring, n, data)
  }

  lemma CopyGoesOn(s: State, n: nat, data: seq<u8>, k: nat)
    requires CopyBegins(s, n, data) && k < |data|
    ensures var t := CopiedSoFar(s, n, data[..k]);
            && Enabled(t, Receiver(Pipe.CopyByte(data[k])))
            && Next(t, Receiver(Pipe.CopyByte(data[k]))) == CopiedSoFar(s, n, data[..k + 1])
  {
    assert data[..k] + [data[k]] == data[..k + 1];
    Pipe.CopiedMore(s.pipe, data[..k], data[k]);
  }

  lemma {:induction false} ReachCopied(s: State, n: nat, data: seq<u8>, k: nat)
    requires Reachable(s) && CopyBegins(s, n, data) && k <= |data|
    ensures Reachable(CopiedSoFar(s, n, data[..k]))
  {
    if k == 0 {
      NothingCopied(s, n);
    } else {
      ReachCopied(s, n, data, k - 1);
      CopyGoesOn(s, n, data, k - 1);
      Reach(CopiedSoFar(s, n, data[..k - 1]), Receiver(Pipe.CopyByte(data[k - 1])));
    }
  }

  lemma NothingCopied(s: State, n: nat)
    requires s.ring.reader == Ring.Copying(n, []) && Pipe.CopyBegins(s.pipe)
    ensures CopiedSoFar(s, n, []) == s
  {
    assert Pipe.Overlaid(s.pipe.run.before, []) == s.pipe.run.before;
    assert Pipe.Copied(s.pipe, []) == s.pipe;
  }

  /** The frame is queued, and inference has read it and given the buffer back. */
  lemma ReachInferred(s: State) returns (t: State)
    requires Reachable(s) && Ring.WellFormed(s.ring) && Pipe.Enabled(s.pipe, Pipe.Push) && Together(s, Pipe.Push)
    requires !s.pipe.stop && s.pipe.free == [] && s.pipe.inference == [] && s.pipe.infer.InferTop?
    requires s.pipe.run.frame in s.pipe.heap && |s.pipe.heap[s.pipe.run.frame]| == s.pipe.setup.frameSize
    ensures Reachable(t) && t.ring.frames == s.ring.frames && t.sources == s.sources && t.pipe.setup == s.pipe.setup
    ensures t.ended == s.ended[s.pipe.run.m.n := |s.ring.frames|]
    ensures t.pipe.inferred == s.pipe.inferred + [Pipe.Inferred(s.pipe.run.m.n, s.pipe.heap[s.pipe.run.frame])]
  {
    Reach(s, Receiver(Pipe.Push));
    t := Handle(s, Pipe.Push);
    ReachableWellFormed(t);
    t := ReachHandled(t);
  }

  /** Inference takes the frame that is queued ... */
  lemma ReachStarted(s: State)
    requires Reachable(s) && Ring.WellFormed(s.ring) && !s.pipe.stop && s.pipe.infer.InferTop?
    ensures Reachable(s.(pipe := Pipe.Started(s.pipe)))
  {
    ReachApart(s, Pipe.InferTest);
    ReachApart(s.(pipe := s.pipe.(infer := Pipe.Popping)), Pipe.Pop);
  }

  /** ... reads the whole of it and gives the buffer back. */
  lemma ReachFinishing(s: State)
    requires Reachable(s) && Ring.WellFormed(s.ring) && s.pipe.infer.Inferring? && s.pipe.infer.seen == []
    requires s.pipe.infer.frame in s.pipe.heap && |s.pipe.heap[s.pipe.infer.frame]| == s.pipe.setup.frameSize
    ensures Reachable(s.(pipe := Pipe.Finishing(s.pipe)))
  {
    var content := s.pipe.heap[s.pipe.infer.frame];
    ReachRead(s, |content|);
    assert content[..|content|] == content;
    ReachApart(s.(pipe := s.pipe.(infer := s.pipe.infer.(seen := content))), Pipe.GiveBack);
  }

  lemma ReachHandled(s: State) returns (t: State)
    requires Reachable(s) && Ring.WellFormed(s.ring) && !s.pipe.stop && s.pipe.free == [] && s.pipe.infer.InferTop?
    requires s.pipe.inference != [] && s.pipe.inference[0].frame in s.pipe.heap
    requires |s.pipe.heap[s.pipe.inference[0].frame]| == s.pipe.setup.frameSize
    ensures t == s.(pipe := Pipe.Handled(s.pipe)) && Reachable(t)
  {
    ReachStarted(s);
    t := s.(pipe := Pipe.Started(s.pipe));
    ReachFinishing(t);
    t := t.(pipe := Pipe.Finishing(t.pipe));
  }

  lemma {:induction false} ReachRead(s: State, k: nat)
    requires Reachable(s) && Ring.WellFormed(s.ring) && s.pipe.infer.Inferring? && s.pipe.infer.seen == []
    requires s.pipe.infer.frame in s.pipe.heap && k <= |s.pipe.heap[s.pipe.infer.frame]| == s.pipe.setup.frameSize
    ensures Reachable(s.(pipe := s.pipe.(infer := s.pipe.infer.(seen := s.pipe.heap[s.pipe.infer.frame][..k]))))
  {
    var content := s.pipe.heap[s.pipe.infer.frame];
    if k == 0 {
      assert s.(pipe := s.pipe.(infer := s.pipe.infer.(seen := content[..0]))) == s;
    } else {
      ReachRead(s, k - 1);
      ReachApart(s.(pipe := s.pipe.(infer := s.pipe.infer.(seen := content[..k - 1]))), Pipe.ReadByte);
      assert content[..k - 1] + [content[k - 1]] == content[..k];
    }
  }

  // ------------------------------------------------- the bound is sharp

  ghost predicate Suitable(setup: Pipe.Setup, mem: seq<u8>, frames: seq<seq<u8>>) {
    && Ring.RingStart(setup.slots, setup.slotSize, mem, frames) && setup.frameSize <= setup.slotSize
    && forall i | 0 <= i < |frames| :: |frames[i]| == setup.frameSize
  }

  function Start(setup: Pipe.Setup, mem: seq<u8>): State {
    State(Ring.State(setup.slots, setup.slotSize, mem, [], None, Ring.Idle, []), Pipe.Start(setup), [], map[])
  }

  /** The copy for the message of reservation `n` has begun, and the remaining frames have been published. */
  ghost predicate Late(s: State, setup: Pipe.Setup, frames: seq<seq<u8>>, n: nat, content: seq<u8>)
    requires setup.slots > 0
  {
    && Reachable(s) && Ring.WellFormed(s.ring) && s.sources == [n] && s.ended == map[]
    && s.ring == Ring.State(setup.slots, setup.slotSize, s.ring.mem, Ring.Framed(frames), None, Ring.Copying(n, []), [])
    && s.pipe == Pipe.Allocate(Pipe.Arrived(Pipe.Start(setup), n % setup.slots), 0, content)
  }

  /** The first frames have been published, and the last of them is about to be copied for its message. */
  lemma ReachFirstBegun(setup: Pipe.Setup, mem: seq<u8>, frames: seq<seq<u8>>, n: nat, content: seq<u8>)
    returns (s: State)
    requires Suitable(setup, mem, frames) && |frames| == n + 1 && |content| == setup.frameSize
    ensures Late(s, setup, frames, n, content)
  {
    s := Start(setup, mem);
    ReachStart(s);
    s := ReachPublications(s, frames);
    assert [] + Ring.Framed(frames) == Ring.Framed(frames);
    ReachFirstArrived(s, n);
    s := FirstArrived(s, n);
    ReachBegun(s, n, 0, content);
    s := Begun(s, n, 0, content);
    ReachableWellFormed(s);
  }

  lemma ReachLate(setup: Pipe.Setup, mem: seq<u8>, frames: seq<seq<u8>>, n: nat, content: seq<u8>) returns (s: State)
    requires Suitable(setup, mem, frames) && n < |frames| && |content| == setup.frameSize
    ensures Late(s, setup, frames, n, content)
  {
    s := ReachFirstBegun(setup, mem, frames[..n + 1], n, content);
    s := ReachPublications(s, frames[n + 1..]);
    assert Ring.Framed(frames) == Ring.Framed(frames[..n + 1]) + Ring.Framed(frames[n + 1..]);
  }

  /** The ring has so many slots and has published these frames. */
  ghost predicate Shows(r: Ring.State, slots: nat, frames: seq<seq<u8>>) {
    Ring.Inv(r) && r.slots == slots > 0 && r.frames == Ring.Framed(frames) && r.writing.None?
  }

  lemma LaterShown(r: Ring.State, slots: nat, frames: seq<seq<u8>>, n: nat)
    requires Shows(r, slots, frames) && |frames| == n + slots + 1
    ensures Ring.Stands(r, n, frames[n + slots])
  {
    Ring.LaterStands(r, frames, n);
  }

  lemma OwnShown(r: Ring.State, slots: nat, frames: seq<seq<u8>>, n: nat)
    requires Shows(r, slots, frames) && n < |frames| <= n + slots
    ensures Ring.Stands(r, n, frames[n])
  {
    Ring.OwnStands(r, frames, n);
  }

  lemma LateShows(s: State, setup: Pipe.Setup, frames: seq<seq<u8>>, n: nat, content: seq<u8>)
    requires setup.slots > 0 && Late(s, setup, frames, n, content)
    ensures Shows(s.ring, setup.slots, frames)
  {
    ReachableInv(s);
  }

  lemma LateLater(s: State, setup: Pipe.Setup, frames: seq<seq<u8>>, n: nat, content: seq<u8>)
    requires setup.slots > 0 && Late(s, setup, frames, n, content) && |frames| == n + setup.slots + 1
    ensures Ring.Stands(s.ring, n, frames[n + setup.slots])
  {
    LateShows(s, setup, frames, n, content);
    LaterShown(s.ring, setup.slots, frames, n);
  }

  lemma LateOwn(s: State, setup: Pipe.Setup, frames: seq<seq<u8>>, n: nat, content: seq<u8>)
    requires setup.slots > 0 && Late(s, setup, frames, n, content) && n < |frames| <= n + setup.slots
    ensures Ring.Stands(s.ring, n, frames[n])
  {
    LateShows(s, setup, frames, n, content);
    OwnShown(s.ring, setup.slots, frames, n);
  }

  /** What stands in the slot is copied and inferred. */
  lemma ReachEnd(s: State, setup: Pipe.Setup, frames: seq<seq<u8>>, n: nat, content: seq<u8>, data: seq<u8>)
    returns (t: State)
    requires setup.slots > 0 && Late(s, setup, frames, n, content) && setup.frameSize <= setup.slotSize
    requires n < |frames| && |frames[n]| == |content| == |data| == setup.frameSize
    requires Ring.Stands(s.ring, n, data)
    ensures Reachable(t) && t.pipe.setup == setup && t.ring.frames == Ring.Framed(frames)
    ensures t.sources == [n] && t.ended == map[0 := |frames|] && t.pipe.inferred == [Pipe.Inferred(0, data)]
  {
    LateBegins(s, setup, frames, n, content, data);
    ReachCopied(s, n, data, |data|);
    assert data[..|data|] == data;
    assert Pipe.Overlaid(s.pipe.run.before, data) == data;
    t := ReachInferred(CopiedSoFar(s, n, data));
  }

  lemma LateBegins(s: State, setup: Pipe.Setup, frames: seq<seq<u8>>, n: nat, content: seq<u8>, data: seq<u8>)
    requires setup.slots > 0 && Late(s, setup, frames, n, content) && setup.frameSize <= setup.slotSize
    requires n < |frames| && |frames[n]| == |content| == |data| == setup.frameSize
    requires Ring.Stands(s.ring, n, data)
    ensures CopyBegins(s, n, data)
  {}

  /** For every setup with frames that fit, and every reservation n: a copy that is overtaken by publication
      n + m makes inference read that one's frame for the message of n ... */
  lemma OvertakenIsInferred(setup: Pipe.Setup, mem: seq<u8>, frames: seq<seq<u8>>, n: nat) returns (s: State)
    requires Suitable(setup, mem, frames) && |frames| == n + setup.slots + 1
    ensures Reachable(s) && s.pipe.setup == setup && s.ring.frames == Ring.Framed(frames)
    ensures s.sources == [n] && s.ended == map[0 := n + setup.slots + 1]
    ensures s.pipe.inferred == [Pipe.Inferred(0, frames[n + setup.slots])]
  {
    var r := ReachLate(setup, mem, frames, n, frames[n]);
    LateLater(r, setup, frames, n, frames[n]);
    s := ReachEnd(r, setup, frames, n, frames[n], frames[n + setup.slots]);
  }

  /** ... and one that ends after publication n + m - 1 still has its own inferred. */
  lemma TimelyIsInferred(setup: Pipe.Setup, mem: seq<u8>, frames: seq<seq<u8>>, n: nat) returns (s: State)
    requires Suitable(setup, mem, frames) && |frames| == n + setup.slots
    ensures Reachable(s) && s.pipe.setup == setup && s.ring.frames == Ring.Framed(frames)
    ensures s.sources == [n] && s.ended == map[0 := n + setup.slots]
    ensures s.pipe.inferred == [Pipe.Inferred(0, frames[n])]
  {
    var r := ReachLate(setup, mem, frames, n, frames[n]);
    LateOwn(r, setup, frames, n, frames[n]);
    s := ReachEnd(r, setup, frames, n, frames[n], frames[n]);
  }
}
