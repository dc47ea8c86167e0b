/** midware/zeromq_ipc/sharedMemPublisher.cpp and sharedMemSubscriber.cpp: frames travel through the
    slots of a shared byte array, which a publisher reuses round-robin; a message with the slot number
    follows each frame.  The two sides have separate mutexes, so their copies may interleave. */
module SharedRing {
  import opened Wrappers
  import opened RowMajor

  const MAX_BUFFER_SLOTS_COUNT: nat := 32

  // ------------------------------------------------- slot layout

  /** Where byte `k` of a slot lies. */
  function Address(size: nat, slot: nat, k: nat): nat { slot * size + k }

  lemma SlotInside(slots: nat, size: nat, slot: nat)
    requires slot < slots
    ensures slot * size + size <= slots * size
  {
    Multiples(slot, slots, size);
    RowEnd(slot, size);
  }

  /** Bytes of different slots, and different bytes of one slot, have different addresses. */
  lemma SlotsDisjoint(size: nat, s: nat, i: nat, t: nat, j: nat)
    requires i < size && j < size && Address(size, s, i) == Address(size, t, j)
    ensures s == t && i == j
  {
    IndexUnique(size, s, i);
    IndexUnique(size, t, j);
  }

  /** The memory after a whole frame has been copied into a slot. */
  function WriteSlot(mem: seq<u8>, size: nat, slot: nat, data: seq<u8>): seq<u8>
    requires slot * size + |data| <= |mem|
  {
    mem[..slot * size] + data + mem[slot * size + |data|..]
  }

  /** `std::memcpy` into shared memory. */
  method CopyIn(memory: array<u8>, start: nat, data: seq<u8>)
    requires start + |data| <= memory.Length
    modifies memory
    ensures memory[..] == old(memory[..])[..start] + data + old(memory[..])[start + |data|..]
  {
    forall i | start <= i < start + |data| {
      memory[i] := data[i - start];
    }
  }

  /** `std::memcpy` out of shared memory. */
  method CopyOut(buffer: array<u8>, memory: array<u8>, start: nat, n: nat)
    requires buffer != memory && start + n <= memory.Length && n <= buffer.Length
    modifies buffer
    ensures buffer[..] == memory[start..start + n] + old(buffer[n..])
  {
    forall i | 0 <= i < n {
      buffer[i] := memory[start + i];
    }
  }

  // ------------------------------------------------- the two classes

  class SharedMemPublisher {
    const slots: nat
    const size: nat
    const memory: array<u8>
    var slotStart: seq<nat>
    var current: nat
    ghost var reservations: nat
    var sent: seq<nat> // the slot numbers carried by the messages sent

    ghost predicate Valid()
      reads this
    {
      && memory.Length == slots * size && slots <= MAX_BUFFER_SLOTS_COUNT
      && |slotStart| == slots && (forall i | 0 <= i < slots :: slotStart[i] == i * size)
      && (slots > 0 ==> current == reservations % slots)
    }

    constructor (slots: nat, size: nat, memory: array<u8>)
      requires slots <= MAX_BUFFER_SLOTS_COUNT && memory.Length == slots * size
      ensures Valid() && this.slots == slots && this.size == size && this.memory == memory
      ensures reservations == 0 && sent == []
    {
      this.slots, this.size, this.memory := slots, size, memory;
      reservations, sent, current := 0, [], 0;
      slotStart := [];
      new;
      for i := 0 to slots
        invariant |slotStart| == i && forall k | 0 <= k < i :: slotStart[k] == k * size
        invariant reservations == 0 && sent == [] && current == 0
      {
        slotStart := slotStart + [i * size];
      }
    }

    /** `getFreeSlotIndex`: the n-th reservation gets slot n modulo the number of slots. */
    method GetFreeSlotIndex() returns (slot: nat)
      requires Valid() && slots > 0
      modifies this`current, this`reservations
      ensures Valid() && slot == old(reservations) % slots && reservations == old(reservations) + 1
    {
      slot := current;
      current := (current + 1) % slots;
      NextSlot(reservations, slots);
      reservations := reservations + 1;
    }

    /** `publishData`. */
    method PublishData(data: seq<u8>, slot: nat) returns (status: int)
      requires Valid()
      modifies this`sent, memory
      ensures Valid()
      ensures slot >= slots || |data| > size ==> status == -1 && sent == old(sent) && memory[..] == old(memory[..])
      ensures slot < slots && |data| <= size ==>
                && status == 0 && sent == old(sent) + [slot] && slot * size + |data| <= memory.Length
                && memory[..] == WriteSlot(old(memory[..]), size, slot, data)
    {
      if slot >= slots { return -1; }
      if |data| > size { return -1; }
      SlotInside(slots, size, slot);
      CopyIn(memory, slotStart[slot], data);
      sent := sent + [slot];
      return 0;
    }
  }

  lemma NextSlot(n: nat, m: nat)
    requires m > 0
    ensures (n % m + 1) % m == (n + 1) % m
  {
    var q, r := n / m, n % m;
    assert n == q * m + r;
    RowEnd(q, m);
    if r + 1 < m {
      IndexUnique(m, q, r + 1);
      IndexUnique(m, 0, r + 1);
    } else {
      IndexUnique(m, q + 1, 0);
      IndexUnique(m, 1, 0);
    }
  }

  class SharedMemSubscriber {
    const slots: nat
    const size: nat
    const memory: array<u8>
    var slotStart: seq<nat>

    ghost predicate Valid()
      reads this
    {
      && memory.Length == slots * size
      && |slotStart| == slots && (forall i | 0 <= i < slots :: slotStart[i] == i * size)
    }

    constructor (slots: nat, size: nat, memory: array<u8>)
      requires memory.Length == slots * size
      ensures Valid() && this.slots == slots && this.size == size && this.memory == memory
    {
      this.slots, this.size, this.memory := slots, size, memory;
      slotStart := [];
      new;
      for i := 0 to slots
        invariant |slotStart| == i && forall k | 0 <= k < i :: slotStart[k] == k * size
      {
        slotStart := slotStart + [i * size];
      }
    }

    /** `receiveSharedMemData`: copies at most one slot's size into the caller's buffer. */
    method ReceiveSharedMemData(buffer: array<u8>, dataSize: nat, slot: nat) returns (status: int)
      requires Valid() && buffer != memory
      requires slot < slots ==> buffer.Length >= if dataSize < size then dataSize else size
      modifies buffer
      ensures slot >= slots ==> status == -1 && buffer[..] == old(buffer[..])
      ensures slot < slots ==>
                && status == (if dataSize < size then dataSize else size)
                && 0 <= status <= buffer.Length && slot * size + status <= memory.Length
                && buffer[..] == memory[slot * size..slot * size + status] + old(buffer[status..])
    {
      if slot >= slots { return -1; }
      SlotInside(slots, size, slot);
      var n := if dataSize < size then dataSize else size;
      CopyOut(buffer, memory, slotStart[slot], n);
      return n;
    }
  }

  /** Without interleaving: what is published is what is received. */
  method PublishThenReceive(p: SharedMemPublisher, s: SharedMemSubscriber, data: seq<u8>, buffer: array<u8>)
    returns (slot: nat, sentStatus: int, status: int)
    requires p.Valid() && s.Valid() && p.slots > 0 && s.slots == p.slots && s.size == p.size && s.memory == p.memory
    requires buffer != p.memory && |data| <= p.size && buffer.Length >= |data|
    modifies p`current, p`reservations, p`sent, p.memory, buffer
    ensures slot == old(p.reservations) % p.slots && p.sent == old(p.sent) + [slot]
    ensures status == |data| && buffer[..|data|] == data
  {
    slot := p.GetFreeSlotIndex();
    sentStatus := p.PublishData(data, slot);
    status := s.ReceiveSharedMemData(buffer, |data|, slot);
  }

  // ------------------------------------------------- interleaved copies

  /** The reading side: idle, or copying the frame of reservation `n`. */
  datatype Reader = Idle | Copying(n: nat, buffer: seq<u8>)

  /** A finished copy: the frame's reservation, the bytes obtained, and whether the slot had been
      reused by then. */
  datatype Copy = Copy(n: nat, bytes: seq<u8>, reused: bool)

  /** `frames[n]` is what was to be published under reservation `n`, or None where it was rejected as too
      large; `writing` is the number of bytes already copied for the last reservation. */
  datatype State = State(slots: nat, size: nat, mem: seq<u8>, frames: seq<Option<seq<u8>>>,
                         writing: Option<nat>, reader: Reader, copies: seq<Copy>)
  {
    function SlotOf(n: nat): nat
      requires slots > 0
    {
      n % slots
    }

    /** The message of reservation `n` has been sent. */
    predicate Published(n: nat) {
      n < |frames| && frames[n].Some? && (writing.Some? ==> n < |frames| - 1)
    }

    /** A later frame has begun to overwrite the slot of reservation `n`. */
    predicate Reused(n: nat)
      requires slots > 0
    {
      exists j | n < j < |frames| :: SlotOf(j) == SlotOf(n) && frames[j].Some?
    }
  }

  datatype Step =
    | Begin(data: seq<u8>)
    | Reject
    | WriteByte
    | Finish
    | ReadBegin(n: nat)
    | ReadByte
    | ReadEnd

  ghost predicate Init(s: State) {
    && 0 < s.slots <= MAX_BUFFER_SLOTS_COUNT && |s.mem| == s.slots * s.size
    && s.frames == [] && s.writing == None && s.reader == Idle && s.copies == []
  }

  predicate WellFormed(s: State) {
    && s.slots > 0 && |s.mem| == s.slots * s.size
    && (forall n | 0 <= n < |s.frames| && s.frames[n].Some? :: |s.frames[n].value| <= s.size)
    && (s.writing.Some? ==> s.frames != [] && s.frames[|s.frames| - 1].Some?
                            && s.writing.value <= |s.frames[|s.frames| - 1].value|)
    && (s.reader.Copying? ==> s.Published(s.reader.n) && |s.reader.buffer| <= |s.frames[s.reader.n].value|)
  }

  lemma AddressInside(s: State, n: nat, k: nat)
    requires WellFormed(s) && k < s.size
    ensures Address(s.size, s.SlotOf(n), k) < |s.mem|
  {
    SlotInside(s.slots, s.size, s.SlotOf(n));
  }

  predicate Enabled(s: State, step: Step)
    requires WellFormed(s)
  {
    match step
    case Begin(data) => s.writing.None? && |data| <= s.size
    case Reject => s.writing.None?
    case WriteByte => s.writing.Some? && s.writing.value < |s.frames[|s.frames| - 1].value|
    case Finish => s.writing.Some? && s.writing.value == |s.frames[|s.frames| - 1].value|
    case ReadBegin(n) => s.reader.Idle? && s.Published(n)
    case ReadByte => s.reader.Copying? && |s.reader.buffer| < |s.frames[s.reader.n].value|
    case ReadEnd => s.reader.Copying? && |s.reader.buffer| == |s.frames[s.reader.n].value|
  }

  /** One atomic step of either side. */
  function Next(s: State, step: Step): State
    requires WellFormed(s) && Enabled(s, step)
  {
    match step
    case Begin(data) => s.(frames := s.frames + [Some(data)], writing := Some(0))
    case Reject => s.(frames := s.frames + [None])
    case WriteByte =>
      var n, k := |s.frames| - 1, s.writing.value;
      AddressInside(s, n, k);
      s.(mem := s.mem[Address(s.size, s.SlotOf(n), k) := s.frames[n].value[k]], writing := Some(k + 1))
    case Finish => s.(writing := None)
    case ReadBegin(n) => s.(reader := Copying(n, []))
    case ReadByte =>
      var n, k := s.reader.n, |s.reader.buffer|;
      AddressInside(s, n, k);
      s.(reader := Copying(n, s.reader.buffer + [s.mem[Address(s.size, s.SlotOf(n), k)]]))
    case ReadEnd => s.(reader := Idle, copies := s.copies + [Copy(s.reader.n, s.reader.buffer, s.Reused(s.reader.n))])
  }

  /** An uninterrupted `publishData` after `k` bytes, in the terms of the class above. */
  function PartlyPublished(s: State, data: seq<u8>, k: nat): State
    requires WellFormed(s) && |data| <= s.size && k <= |data|
  {
    SlotInside(s.slots, s.size, s.SlotOf(|s.frames|));
    s.(mem := WriteSlot(s.mem, s.size, s.SlotOf(|s.frames|), data[..k]), frames := s.frames + [Some(data)],
       writing := Some(k))
  }

  lemma PublicationBegins(s: State, data: seq<u8>)
    requires WellFormed(s) && Enabled(s, Begin(data))
    ensures Next(s, Begin(data)) == PartlyPublished(s, data, 0)
  {
    SlotInside(s.slots, s.size, s.SlotOf(|s.frames|));
    assert data[..0] == [];
    assert WriteSlot(s.mem, s.size, s.SlotOf(|s.frames|), data[..0]) == s.mem;
  }

  /** Byte by byte the steps of a publication write what the method writes at once. */
  lemma PublishedByBytes(s: State, data: seq<u8>, k: nat)
    requires WellFormed(s) && Enabled(s, Begin(data)) && k < |data|
    ensures Next(s, Begin(data)) == PartlyPublished(s, data, 0)
    ensures var t := PartlyPublished(s, data, k);
            WellFormed(t) && Enabled(t, WriteByte) && Next(t, WriteByte) == PartlyPublished(s, data, k + 1)
  {
    var slot := s.SlotOf(|s.frames|);
    SlotInside(s.slots, s.size, slot);
    PublicationBegins(s, data);
    var t := PartlyPublished(s, data, k);
    StillWellFormed(s, data, k);
    assert t.SlotOf(|t.frames| - 1) == slot;
    OneMoreByte(s.mem, s.size, slot, data, k);
  }

  lemma StillWellFormed(s: State, data: seq<u8>, k: nat)
    requires WellFormed(s) && Enabled(s, Begin(data)) && k <= |data|
    ensures WellFormed(PartlyPublished(s, data, k))
  {
    SlotInside(s.slots, s.size, s.SlotOf(|s.frames|));
    WriteSlotLength(s.mem, s.size, s.SlotOf(|s.frames|), data[..k]);
  }

  lemma WriteSlotLength(mem: seq<u8>, size: nat, slot: nat, data: seq<u8>)
    requires slot * size + |data| <= |mem|
    ensures |WriteSlot(mem, size, slot, data)| == |mem|
  {}

  lemma OneMoreByte(mem: seq<u8>, size: nat, slot: nat, data: seq<u8>, k: nat)
    requires k < |data| && slot * size + |data| <= |mem|
    ensures WriteSlot(mem, size, slot, data[..k])[Address(size, slot, k) := data[k]] ==
            WriteSlot(mem, size, slot, data[..k + 1])
  {
    var start := slot * size;
    assert data[..k + 1] == data[..k] + [data[k]];
  }

  /** The bytes in the slot of reservation `n` that belong to its frame so far. */
  function Written(s: State, n: nat): nat
    requires n < |s.frames| && s.frames[n].Some?
  {
    if n == |s.frames| - 1 && s.writing.Some? then s.writing.value else |s.frames[n].value|
  }

  /** A slot begins with the first `w` bytes of `data`. */
  ghost predicate Holds(mem: seq<u8>, size: nat, slot: nat, data: seq<u8>, w: nat) {
    forall k | 0 <= k < w && k < |data| :: Address(size, slot, k) < |mem| && mem[Address(size, slot, k)] == data[k]
  }

  ghost predicate SlotHolds(s: State, n: nat)
    requires WellFormed(s) && n < |s.frames| && s.frames[n].Some?
  {
    Holds(s.mem, s.size, s.SlotOf(n), s.frames[n].value, Written(s, n))
  }

  ghost predicate Inv(s: State) {
    && WellFormed(s)
    && (forall n | 0 <= n < |s.frames| && s.frames[n].Some? && !s.Reused(n) :: SlotHolds(s, n))
    && (s.reader.Copying? && !s.Reused(s.reader.n) ==> s.reader.buffer <= s.frames[s.reader.n].value)
    && (forall i | 0 <= i < |s.copies| ::
          && s.Published(s.copies[i].n)
          && |s.copies[i].bytes| == |s.frames[s.copies[i].n].value|
          && (!s.copies[i].reused ==> s.copies[i].bytes == s.frames[s.copies[i].n].value))
  }

  lemma ReusedGrows(s: State, t: State, n: nat)
    requires s.slots > 0 && t.slots == s.slots && s.frames <= t.frames && s.Reused(n)
    ensures t.Reused(n)
  {
    var j :| n < j < |s.frames| && s.SlotOf(j) == s.SlotOf(n) && s.frames[j].Some?;
    assert t.SlotOf(j) == t.SlotOf(n) && t.frames[j].Some?;
  }

  lemma WriteElsewhere(mem: seq<u8>, size: nat, slot: nat, data: seq<u8>, w: nat, slot': nat, k: nat, v: u8)
    requires slot != slot' && k < size && |data| <= size && Address(size, slot', k) < |mem|
    requires Holds(mem, size, slot, data, w)
    ensures Holds(mem[Address(size, slot', k) := v], size, slot, data, w)
  {
    forall i | 0 <= i < w && i < |data| ensures Address(size, slot, i) != Address(size, slot', k) {
      if Address(size, slot, i) == Address(size, slot', k) { SlotsDisjoint(size, slot, i, slot', k); }
    }
  }

  lemma WriteNext(mem: seq<u8>, size: nat, slot: nat, data: seq<u8>, k: nat)
    requires k < |data| <= size && Address(size, slot, k) < |mem| && Holds(mem, size, slot, data, k)
    ensures Holds(mem[Address(size, slot, k) := data[k]], size, slot, data, k + 1)
  {}

  /** Writing a byte of the newest frame disturbs no slot that is not reused. */
  lemma WriteKeepsOthers(s: State, n: nat)
    requires Inv(s) && Enabled(s, WriteByte) && n < |s.frames| && s.frames[n].Some? && !s.Reused(n)
    ensures WellFormed(Next(s, WriteByte)) && SlotHolds(Next(s, WriteByte), n)
  {
    var last, k := |s.frames| - 1, s.writing.value;
    var data := s.frames[last].value;
    AddressInside(s, last, k);
    assert SlotHolds(s, n);
    if n < last {
      assert s.SlotOf(last) != s.SlotOf(n);
      WriteElsewhere(s.mem, s.size, s.SlotOf(n), s.frames[n].value, Written(s, n), s.SlotOf(last), k, data[k]);
    } else {
      WriteNext(s.mem, s.size, s.SlotOf(n), data, k);
    }
  }

  /** No other step writes to the memory. */
  lemma OthersWriteNothing(s: State, step: Step, n: nat)
    requires WellFormed(s) && Enabled(s, step) && !step.WriteByte? && WellFormed(Next(s, step))
    requires n < |s.frames| && s.frames[n].Some? && SlotHolds(s, n)
    ensures SlotHolds(Next(s, step), n)
  {
    assert Next(s, step).mem == s.mem && Next(s, step).frames[n] == s.frames[n];
    assert Written(Next(s, step), n) == Written(s, n);
  }

  lemma OldSlotKept(s: State, step: Step, n: nat)
    requires Inv(s) && Enabled(s, step) && WellFormed(Next(s, step))
    requires n < |s.frames| && s.frames[n].Some? && !s.Reused(n)
    ensures SlotHolds(Next(s, step), n)
  {
    if step.WriteByte? { WriteKeepsOthers(s, n); } else { OthersWriteNothing(s, step, n); }
  }

  lemma SlotKept(s: State, step: Step, n: nat)
    requires Inv(s) && Enabled(s, step) && WellFormed(Next(s, step))
    requires n < |Next(s, step).frames| && Next(s, step).frames[n].Some? && !Next(s, step).Reused(n)
    ensures SlotHolds(Next(s, step), n)
  {
    if n < |s.frames| {
      if s.Reused(n) { ReusedGrows(s, Next(s, step), n); }
      OldSlotKept(s, step, n);
    }
  }

  lemma SlotsKept(s: State, step: Step)
    requires Inv(s) && Enabled(s, step)
    ensures var t := Next(s, step);
            && WellFormed(t)
            && (forall n | 0 <= n < |t.frames| && t.frames[n].Some? && !t.Reused(n) :: SlotHolds(t, n))
  {
    var t := Next(s, step);
    StaysWellFormed(s, step);
    forall n | 0 <= n < |t.frames| && t.frames[n].Some? && !t.Reused(n) ensures SlotHolds(t, n) {
      SlotKept(s, step, n);
    }
  }

  lemma StaysWellFormed(s: State, step: Step)
    requires WellFormed(s) && Enabled(s, step)
    ensures WellFormed(Next(s, step))
  {
    if step.WriteByte? { AddressInside(s, |s.frames| - 1, s.writing.value); }
  }

  lemma ReaderKept(s: State, step: Step)
    requires Inv(s) && Enabled(s, step)
    ensures var t := Next(s, step);
            t.reader.Copying? && !t.Reused(t.reader.n) ==> t.reader.buffer <= t.frames[t.reader.n].value
  {
    var t := Next(s, step);
    if t.reader.Copying? && !t.Reused(t.reader.n) && s.reader.Copying? {
      var n := s.reader.n;
      if s.Reused(n) { ReusedGrows(s, t, n); }
      if step.ReadByte? {
        assert SlotHolds(s, n);
        assert Written(s, n) == |s.frames[n].value|;
      }
    }
  }

  lemma CopiesKept(s: State, step: Step)
    requires Inv(s) && Enabled(s, step)
    ensures var t := Next(s, step);
            forall i | 0 <= i < |t.copies| ::
              && t.Published(t.copies[i].n)
              && |t.copies[i].bytes| == |t.frames[t.copies[i].n].value|
              && (!t.copies[i].reused ==> t.copies[i].bytes == t.frames[t.copies[i].n].value)
  {
    var t := Next(s, step);
    forall i | 0 <= i < |t.copies|
      ensures t.Published(t.copies[i].n)
      ensures |t.copies[i].bytes| == |t.frames[t.copies[i].n].value|
      ensures !t.copies[i].reused ==> t.copies[i].bytes == t.frames[t.copies[i].n].value
    {
      if i < |s.copies| {
        assert t.copies[i] == s.copies[i] && s.Published(s.copies[i].n);
      }
    }
  }

  /** Every step of either side keeps the invariant. */
  lemma InvStep(s: State, step: Step)
    requires Inv(s) && Enabled(s, step)
    ensures Inv(Next(s, step))
  {
    SlotsKept(s, step);
    ReaderKept(s, step);
    CopiesKept(s, step);
  }

  /** An interleaving of the two sides. */
  ghost predicate IsRun(states: seq<State>, steps: seq<Step>) {
    && |states| == |steps| + 1 && Init(states[0])
    && forall i | 0 <= i < |steps| ::
         WellFormed(states[i]) && Enabled(states[i], steps[i]) && states[i + 1] == Next(states[i], steps[i])
  }

  lemma {:induction false} RunInv(states: seq<State>, steps: seq<Step>, i: nat)
    requires IsRun(states, steps) && i < |states|
    ensures Inv(states[i]) && states[i].slots == states[0].slots && states[i].size == states[0].size
  {
    if i > 0 {
      RunInv(states, steps, i - 1);
      InvStep(states[i - 1], steps[i - 1]);
    }
  }

  /** A slot is not reused before the reservation that is one round later. */
  lemma NotReusedWithinRound(s: State, n: nat)
    requires s.slots > 0 && |s.frames| <= n + s.slots
    ensures !s.Reused(n)
  {
    if s.Reused(n) {
      var j :| n < j < |s.frames| && s.SlotOf(j) == s.SlotOf(n) && s.frames[j].Some?;
      SameSlotApart(n, j, s.slots);
    }
  }

  lemma SameSlotApart(n: nat, j: nat, m: nat)
    requires m > 0 && n < j && n % m == j % m
    ensures j >= n + m
  {
    var a, b := n / m, j / m;
    assert n == a * m + n % m && j == b * m + j % m;
    Multiples(b, a, m);
    Multiples(a, b, m);
    RowEnd(a, m);
  }

  lemma HeldWhole(mem: seq<u8>, size: nat, slot: nat, data: seq<u8>)
    requires slot * size + |data| <= |mem| && Holds(mem, size, slot, data, |data|)
    ensures mem[slot * size..slot * size + |data|] == data
  {
    var start := slot * size;
    forall k | 0 <= k < |data| ensures mem[start..start + |data|][k] == data[k] {
      assert Address(size, slot, k) == start + k;
    }
  }

  /** Ring safety over whole runs: with m slots, the bytes of the frame published under reservation n
      stand in its slot until publication n + m begins, however the copies interleave. */
  lemma FrameStaysIntact(states: seq<State>, steps: seq<Step>, i: nat, n: nat)
    requires IsRun(states, steps) && i < |states|
    requires states[i].Published(n) && |states[i].frames| <= n + states[i].slots
    ensures var s := states[i];
            var start := s.SlotOf(n) * s.size;
            && start + |s.frames[n].value| <= |s.mem|
            && s.mem[start..start + |s.frames[n].value|] == s.frames[n].value
  {
    var s := states[i];
    RunInv(states, steps, i);
    NotReusedWithinRound(s, n);
    assert SlotHolds(s, n) && Written(s, n) == |s.frames[n].value|;
    SlotInside(s.slots, s.size, s.SlotOf(n));
    HeldWhole(s.mem, s.size, s.SlotOf(n), s.frames[n].value);
  }

  /** A copy that ends before publication n + m begins has obtained exactly the published bytes. */
  lemma TimelyCopyIsExact(states: seq<State>, steps: seq<Step>, i: nat)
    requires IsRun(states, steps) && i < |steps| && steps[i].ReadEnd?
    requires |states[i].frames| <= states[i].reader.n + states[i].slots
    ensures states[i].reader.buffer == states[i].frames[states[i].reader.n].value
  {
    RunInv(states, steps, i);
    NotReusedWithinRound(states[i], states[i].reader.n);
  }

  /** The same for the log of a run: only copies that outlived their slot can differ from their frame. */
  lemma CopiesExact(states: seq<State>, steps: seq<Step>, i: nat, c: nat)
    requires IsRun(states, steps) && i < |states| && c < |states[i].copies|
    ensures var copy := states[i].copies[c];
            && states[i].Published(copy.n)
            && (copy.bytes != states[i].frames[copy.n].value ==> copy.reused)
  {
    RunInv(states, steps, i);
  }

  // ------------------------------------------------- states that are reached

  ghost predicate Reachable(s: State) {
    exists states, steps :: IsRun(states, steps) && states[|steps|] == s
  }

  lemma ReachableInv(s: State)
    requires Reachable(s)
    ensures Inv(s)
  {
    var states, steps :| IsRun(states, steps) && states[|steps|] == s;
    RunInv(states, steps, |steps|);
  }

  lemma ReachableWellFormed(s: State)
    requires Reachable(s)
    ensures WellFormed(s)
  {
    ReachableInv(s);
  }

  /** A run, one step longer. */
  lemma Extend(states: seq<State>, steps: seq<Step>, step: Step, t: State)
    requires IsRun(states, steps) && WellFormed(states[|steps|]) && Enabled(states[|steps|], step)
    requires t == Next(states[|steps|], step)
    ensures IsRun(states + [t], steps + [step])
  {}

  lemma Reach(s: State, step: Step)
    requires Reachable(s) && WellFormed(s) && Enabled(s, step)
    ensures Reachable(Next(s, step))
  {
    var states, steps :| IsRun(states, steps) && states[|steps|] == s;
    Extend(states, steps, step, Next(s, step));
    assert (states + [Next(s, step)])[|steps + [step]|] == Next(s, step);
  }

  lemma ReachStart(s: State)
    requires Init(s)
    ensures Reachable(s)
  {
    var steps: seq<Step> := [];
    assert IsRun([s], steps) && [s][|steps|] == s;
  }

  /** A whole publication. */
  function Publication(s: State, data: seq<u8>): State
    requires WellFormed(s) && |data| <= s.size
  {
    PartlyPublished(s, data, |data|).(writing := None)
  }

  lemma PublicationGrows(s: State, data: seq<u8>)
    requires WellFormed(s) && s.writing.None? && |data| <= s.size
    ensures var t := Publication(s, data);
            t == s.(mem := t.mem, frames := s.frames + [Some(data)]) && WellFormed(t)
  {
    StillWellFormed(s, data, |data|);
  }

  lemma {:induction false} ReachPartly(s: State, data: seq<u8>, k: nat)
    requires Reachable(s) && WellFormed(s) && s.writing.None? && k <= |data| <= s.size
    ensures Reachable(PartlyPublished(s, data, k))
  {
    if k == 0 {
      Reach(s, Begin(data));
      PublicationBegins(s, data);
    } else {
      ReachPartly(s, data, k - 1);
      PublishedByBytes(s, data, k - 1);
      Reach(PartlyPublished(s, data, k - 1), WriteByte);
    }
  }

  lemma ReachPublication(s: State, data: seq<u8>)
    requires Reachable(s) && WellFormed(s) && s.writing.None? && |data| <= s.size
    ensures Reachable(Publication(s, data))
  {
    ReachPartly(s, data, |data|);
    StillWellFormed(s, data, |data|);
    Reach(PartlyPublished(s, data, |data|), Finish);
  }

  function Framed(frames: seq<seq<u8>>): (r: seq<Option<seq<u8>>>)
    ensures |r| == |frames| && forall i | 0 <= i < |r| :: r[i] == Some(frames[i])
  {
    seq(|frames|, i requires 0 <= i < |frames| => Some(frames[i]))
  }

  /** One publication after another. */
  lemma {:induction false} ReachPublications(s: State, frames: seq<seq<u8>>) returns (t: State)
    requires Reachable(s) && WellFormed(s) && s.writing.None?
    requires forall i | 0 <= i < |frames| :: |frames[i]| <= s.size
    ensures Reachable(t) && t == s.(mem := t.mem, frames := s.frames + Framed(frames))
  {
    if frames == [] {
      t := s;
      assert s.frames + Framed([]) == s.frames;
    } else {
      var init, last := frames[..|frames| - 1], frames[|frames| - 1];
      var r := ReachPublications(s, init);
      ReachableWellFormed(r);
      ReachPublication(r, last);
      PublicationGrows(r, last);
      t := Publication(r, last);
      assert Framed(frames) == Framed(init) + [Some(last)];
    }
  }

  /** The slot of reservation `n` begins with the given bytes. */
  ghost predicate Stands(s: State, n: nat, data: seq<u8>)
    requires s.slots > 0
  {
    Holds(s.mem, s.size, s.SlotOf(n), data, |data|)
  }

  /** The reader copies what stands in the slot. */
  lemma {:induction false} ReachRead(s: State, n: nat, data: seq<u8>, k: nat)
    requires Reachable(s) && WellFormed(s) && s.reader == Copying(n, [])
    requires k <= |s.frames[n].value| <= |data| && Stands(s, n, data)
    ensures Reachable(s.(reader := Copying(n, data[..k])))
  {
    if k == 0 {
      assert s.(reader := Copying(n, data[..0])) == s;
    } else {
      ReachRead(s, n, data, k - 1);
      Reach(s.(reader := Copying(n, data[..k - 1])), ReadByte);
      assert data[..k - 1] + [data[k - 1]] == data[..k];
    }
  }

  lemma OneRoundLater(n: nat, m: nat)
    requires m > 0
    ensures (n + m) % m == n % m
  {
    RowEnd(n / m, m);
    IndexUnique(m, n / m + 1, n % m);
  }

  /** When no publication is in progress, the slot of a frame that is not reused holds the frame. */
  lemma SlotOfNewest(s: State, n: nat)
    requires Inv(s) && s.writing.None? && n < |s.frames| <= n + s.slots && s.frames[n].Some?
    ensures Stands(s, n, s.frames[n].value)
  {
    NotReusedWithinRound(s, n);
    assert SlotHolds(s, n);
  }

  lemma LaterStands(s: State, frames: seq<seq<u8>>, n: nat)
    requires Inv(s) && s.writing.None? && s.frames == Framed(frames) && |frames| == n + s.slots + 1
    ensures Stands(s, n, frames[n + s.slots])
  {
    OneRoundLater(n, s.slots);
    SlotOfNewest(s, n + s.slots);
  }

  lemma LaterReuses(s: State, frames: seq<seq<u8>>, n: nat)
    requires s.slots > 0 && s.frames == Framed(frames) && |frames| == n + s.slots + 1
    ensures s.Reused(n)
  {
    OneRoundLater(n, s.slots);
    assert s.SlotOf(n + s.slots) == s.SlotOf(n) && s.frames[n + s.slots].Some?;
  }

  lemma OwnStands(s: State, frames: seq<seq<u8>>, n: nat)
    requires Inv(s) && s.writing.None? && s.frames == Framed(frames) && n < |frames| <= n + s.slots
    ensures Stands(s, n, frames[n])
    ensures !s.Reused(n)
  {
    SlotOfNewest(s, n);
    NotReusedWithinRound(s, n);
  }

  ghost predicate RingStart(slots: nat, size: nat, mem: seq<u8>, frames: seq<seq<u8>>) {
    && 0 < slots <= MAX_BUFFER_SLOTS_COUNT && |mem| == slots * size
    && forall i | 0 <= i < |frames| :: |frames[i]| <= size
  }

  lemma ReachFrames(slots: nat, size: nat, mem: seq<u8>, frames: seq<seq<u8>>) returns (s: State)
    requires RingStart(slots, size, mem, frames)
    ensures Reachable(s) && WellFormed(s) && s == State(slots, size, s.mem, Framed(frames), None, Idle, [])
  {
    s := State(slots, size, mem, [], None, Idle, []);
    ReachStart(s);
    s := ReachPublications(s, frames);
    assert [] + Framed(frames) == Framed(frames);
    ReachableWellFormed(s);
  }

  /** The copy of reservation `n` has begun, and then the remaining frames are published. */
  lemma ReachLate(slots: nat, size: nat, mem: seq<u8>, frames: seq<seq<u8>>, n: nat) returns (s: State)
    requires RingStart(slots, size, mem, frames) && n < |frames|
    ensures Reachable(s) && s == State(slots, size, s.mem, Framed(frames), None, Copying(n, []), [])
  {
    var r := ReachFrames(slots, size, mem, frames[..n + 1]);
    Reach(r, ReadBegin(n));
    r := r.(reader := Copying(n, []));
    ReachableWellFormed(r);
    s := ReachPublications(r, frames[n + 1..]);
    assert Framed(frames) == Framed(frames[..n + 1]) + Framed(frames[n + 1..]);
  }

  function Copied(s: State, n: nat, bytes: seq<u8>, reused: bool): State {
    s.(reader := Idle, copies := s.copies + [Copy(n, bytes, reused)])
  }

  /** The whole copy of what stands in the slot. */
  lemma ReachCopied(s: State, n: nat, data: seq<u8>)
    requires Reachable(s) && WellFormed(s) && s.reader == Copying(n, []) && |s.frames[n].value| <= |data|
    requires Stands(s, n, data)
    ensures Reachable(Copied(s, n, data[..|s.frames[n].value|], s.Reused(n)))
  {
    var k := |s.frames[n].value|;
    ReachRead(s, n, data, k);
    Reach(s.(reader := Copying(n, data[..k])), ReadEnd);
  }

  lemma ReachOvertaken(s: State, frames: seq<seq<u8>>, n: nat)
    requires Reachable(s) && s.slots > 0 && s.frames == Framed(frames) && s.writing.None? && s.reader == Copying(n, [])
    requires |frames| == n + s.slots + 1 && |frames[n]| <= |frames[n + s.slots]|
    ensures Reachable(Copied(s, n, frames[n + s.slots][..|frames[n]|], true))
  {
    ReachableInv(s);
    LaterStands(s, frames, n);
    LaterReuses(s, frames, n);
    ReachCopied(s, n, frames[n + s.slots]);
  }

  lemma ReachTimely(s: State, frames: seq<seq<u8>>, n: nat)
    requires Reachable(s) && s.slots > 0 && s.frames == Framed(frames) && s.writing.None? && s.reader == Copying(n, [])
    requires n < |frames| <= n + s.slots
    ensures Reachable(Copied(s, n, frames[n], false))
  {
    ReachableInv(s);
    OwnStands(s, frames, n);
    ReachCopied(s, n, frames[n]);
    assert frames[n][..|frames[n]|] == frames[n];
  }

  /** The bound is sharp, for every number of slots, every slot size and every reservation n: a copy of n that
      is overtaken by publication n + m obtains that one's bytes ... */
  lemma OvertakenCopy(slots: nat, size: nat, mem: seq<u8>, frames: seq<seq<u8>>, n: nat) returns (s: State)
    requires RingStart(slots, size, mem, frames) && |frames| == n + slots + 1 && |frames[n]| <= |frames[n + slots]|
    ensures Reachable(s) && s.slots == slots && s.size == size && s.frames == Framed(frames)
    ensures s.copies == [Copy(n, frames[n + slots][..|frames[n]|], true)]
  {
    var r := ReachLate(slots, size, mem, frames, n);
    ReachOvertaken(r, frames, n);
    s := Copied(r, n, frames[n + slots][..|frames[n]|], true);
  }

  /** ... and one that ends after publication n + m - 1 still obtains its own. */
  lemma LastTimelyCopy(slots: nat, size: nat, mem: seq<u8>, frames: seq<seq<u8>>, n: nat) returns (s: State)
    requires RingStart(slots, size, mem, frames) && |frames| == n + slots
    ensures Reachable(s) && s.slots == slots && s.size == size && s.frames == Framed(frames)
    ensures s.copies == [Copy(n, frames[n], false)]
  {
    var r := ReachLate(slots, size, mem, frames, n);
    ReachTimely(r, frames, n);
    s := Copied(r, n, frames[n], false);
  }
}
