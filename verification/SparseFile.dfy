// The scull device as a user sees it: a file of bytes at positions, with allocation by quanta.
// How quanta are grouped into quantum sets is not visible here.
module SparseFile {
  import opened Common
  import DivMod

  function ByteAt(pos: nat, data: seq<Byte>, p: nat): Byte
    requires pos <= p < pos + |data|
  {
    data[p - pos]
  }

  function BytesAt(pos: nat, data: seq<Byte>): map<nat, Byte> {
    map p: nat | pos <= p < pos + |data| :: ByteAt(pos, data, p)
  }

  // `content` holds the positions whose byte is known: written since the last trim, and not
  // hit by a faulting copy since. kmalloc does not clear memory, so the other
  // positions of an allocated quantum hold anything.
  // The parameters may have any value; without a positive quantum there is no content.
  datatype File = File(quantum: int, quanta: set<int>, size: nat, content: map<nat, Byte>) {
    ghost predicate Valid() {
      forall p | p in content :: Fits(p)
    }

    predicate Fits(p: nat) {
      p in content ==> p < size && quantum > 0 && p / quantum in quanta
    }

    function ToQuantumEnd(pos: nat): nat
      requires quantum > 0
    {
      quantum - pos % quantum
    }

    function ReadCount(pos: nat, count: nat): nat
      requires quantum > 0
    {
      if pos >= size || pos / quantum !in quanta then 0
      else Min(Min(count, size - pos), ToQuantumEnd(pos))
    }

    // What bytes a read at `pos` may return.
    ghost predicate Reads(pos: nat, data: seq<Byte>) {
      forall k {:trigger Agrees(pos, data, k)} | 0 <= k < |data| :: Agrees(pos, data, k)
    }

    predicate Readable(p: nat)
      requires quantum > 0
    {
      p < size && p / quantum in quanta
    }

    predicate Agrees(pos: nat, data: seq<Byte>, k: nat)
      requires k < |data|
    {
      pos + k in content ==> data[k] == content[pos + k]
    }

    function WriteCount(pos: nat, count: nat): nat
      requires quantum > 0
    {
      Min(count, ToQuantumEnd(pos))
    }

    function Write(pos: nat, data: seq<Byte>): File
      requires quantum > 0
    {
      File(quantum, quanta + {pos / quantum}, if size < pos + |data| then pos + |data| else size,
           content + BytesAt(pos, data))
    }

    // A copy of `count` bytes that faulted: what the range holds is no longer known.
    function Clobber(pos: nat, count: nat): File
      requires quantum > 0
    {
      File(quantum, quanta + {pos / quantum}, size,
           map p | p in content && !(pos <= p < pos + count) :: content[p])
    }

    static function Trimmed(newQuantum: int): File {
      File(newQuantum, {}, 0, map[])
    }
  }

  // A call that could take or give up to `most` bytes from `pos` on stays in the quantum of `pos`,
  // and stops short of `most` only at the end of that quantum.
  predicate GoesFar(quantum: int, pos: nat, n: nat, most: nat)
    requires quantum > 0
  {
    && n <= most && (n > 0 ==> (pos + n - 1) / quantum == pos / quantum)
    && (n == most || (pos + n) % quantum == 0)
  }

  lemma ToTheEnd(quantum: nat, pos: nat, most: nat)
    requires quantum > 0
    ensures GoesFar(quantum, pos, Min(most, quantum - pos % quantum), most)
  {
    var left := quantum - pos % quantum;
    var n := Min(most, left);
    if n > 0 {
      SameQuantum(quantum, pos, n - 1);
    }
    if n == left {
      assert pos == (pos / quantum) * quantum + pos % quantum;
      assert pos + left == (pos / quantum + 1) * quantum + 0;
      DivMod.Unique(pos + left, pos / quantum + 1, 0, quantum);
    }
  }

  // At a position that can be read, a read gives all that is asked for, up to the size and the
  // end of the quantum.
  lemma ReadIsMaximal(f: File, pos: nat, count: nat)
    requires f.quantum > 0 && f.Readable(pos)
    ensures GoesFar(f.quantum, pos, f.ReadCount(pos, count), if count < f.size - pos then count else f.size - pos)
  {
    ToTheEnd(f.quantum, pos, if count < f.size - pos then count else f.size - pos);
  }

  lemma WriteIsMaximal(f: File, pos: nat, count: nat)
    requires f.quantum > 0
    ensures GoesFar(f.quantum, pos, f.WriteCount(pos, count), count)
  {
    ToTheEnd(f.quantum, pos, count);
  }

  lemma WriteFits(f: File, pos: nat, data: seq<Byte>, p: nat)
    requires f.quantum > 0 && |data| <= f.ToQuantumEnd(pos) && f.Fits(p)
    ensures f.Write(pos, data).Fits(p)
  {
    if pos <= p < pos + |data| {
      SameQuantum(f.quantum, pos, p - pos);
    }
  }

  lemma WriteKeepsValid(f: File, pos: nat, data: seq<Byte>)
    requires f.Valid() && f.quantum > 0 && |data| <= f.ToQuantumEnd(pos)
    ensures f.Write(pos, data).Valid()
  {
    var g := f.Write(pos, data);
    forall p | p in g.content ensures g.Fits(p) {
      WriteFits(f, pos, data, p);
    }
  }

  lemma SameQuantum(quantum: nat, pos: nat, k: nat)
    requires quantum > 0 && pos % quantum + k < quantum
    ensures (pos + k) / quantum == pos / quantum
  {
    DivMod.Unique(pos + k, pos / quantum, pos % quantum + k, quantum);
  }

  function KnownAt(f: File, p: nat): Option<Byte> {
    if p in f.content then Some(f.content[p]) else None
  }

  lemma WriteKnown(f: File, pos: nat, data: seq<Byte>, p: nat)
    requires f.quantum > 0
    ensures KnownAt(f.Write(pos, data), p) == if pos <= p < pos + |data| then Some(data[p - pos]) else KnownAt(f, p)
  {
  }

  lemma ClobberKnown(f: File, pos: nat, count: nat, p: nat)
    requires f.quantum > 0
    ensures KnownAt(f.Clobber(pos, count), p) == if pos <= p < pos + count then None else KnownAt(f, p)
  {
  }

  // ---- A run of calls ----

  // What the calls on a device did: bytes accepted by a write, a range lost to a faulting copy,
  // a trim (with the quantum size in force at the time).
  datatype Event = Stored(pos: nat, data: seq<Byte>) | Lost(pos: nat, count: nat) | TrimmedTo(quantum: int)

  // Writes need a positive quantum size and never leave the quantum they start in.
  predicate Possible(f: File, e: Event) {
    match e
    case Stored(pos, data) => f.quantum > 0 && |data| <= f.ToQuantumEnd(pos)
    case Lost(pos, count) => f.quantum > 0 && count <= f.ToQuantumEnd(pos)
    case TrimmedTo(_) => true
  }

  function After(f: File, e: Event): File
    requires Possible(f, e)
  {
    match e
    case Stored(pos, data) => f.Write(pos, data)
    case Lost(pos, count) => f.Clobber(pos, count)
    case TrimmedTo(quantum) => File.Trimmed(quantum)
  }

  // The file after the events, starting from an empty device.
  function Result(start: int, events: seq<Event>): File {
    if events == [] then File.Trimmed(start)
    else
      var before := Result(start, events[..|events| - 1]);
      if Possible(before, events[|events| - 1]) then After(before, events[|events| - 1]) else before
  }

  predicate IsRun(start: int, events: seq<Event>) {
    events != [] ==>
      IsRun(start, events[..|events| - 1])
      && Possible(Result(start, events[..|events| - 1]), events[|events| - 1])
  }

  lemma RunSnoc(start: int, events: seq<Event>, e: Event)
    requires IsRun(start, events) && Possible(Result(start, events), e)
    ensures IsRun(start, events + [e]) && Result(start, events + [e]) == After(Result(start, events), e)
  {
    assert (events + [e])[..|events|] == events;
  }

  // The last byte written at `p`, looking back through the calls; None if there is none since
  // the last trim, or a fault has hit it since.
  function LastWritten(events: seq<Event>, p: nat): Option<Byte> {
    if events == [] then None
    else
      var last := |events| - 1;
      match events[last]
      case Stored(pos, data) => if pos <= p < pos + |data| then Some(data[p - pos]) else LastWritten(events[..last], p)
      case Lost(pos, count) => if pos <= p < pos + count then None else LastWritten(events[..last], p)
      case TrimmedTo(_) => None
  }

  // The end of the furthest write since the last trim.
  function FurthestEnd(events: seq<Event>): nat {
    if events == [] then 0
    else
      var last := |events| - 1;
      match events[last]
      case Stored(pos, data) =>
        var e := FurthestEnd(events[..last]);
        if e < pos + |data| then pos + |data| else e
      case Lost(_, _) => FurthestEnd(events[..last])
      case TrimmedTo(_) => 0
  }

  lemma StepKeepsValid(f: File, e: Event)
    requires f.Valid() && Possible(f, e)
    ensures After(f, e).Valid()
  {
    if e.Stored? {
      WriteKeepsValid(f, e.pos, e.data);
    }
  }

  lemma {:induction false} RunIsValid(start: int, events: seq<Event>)
    requires IsRun(start, events)
    ensures Result(start, events).Valid()
  {
    if events != [] {
      var n := |events| - 1;
      RunIsValid(start, events[..n]);
      StepKeepsValid(Result(start, events[..n]), events[n]);
    }
  }

  lemma {:induction false} SizeIsFurthestEnd(start: int, events: seq<Event>)
    requires IsRun(start, events)
    ensures Result(start, events).size == FurthestEnd(events)
  {
    if events != [] {
      SizeIsFurthestEnd(start, events[..|events| - 1]);
    }
  }

  lemma {:induction false} KnownIsLastWritten(start: int, events: seq<Event>, p: nat)
    requires IsRun(start, events)
    ensures KnownAt(Result(start, events), p) == LastWritten(events, p)
  {
    if events != [] {
      var n := |events| - 1;
      var before := Result(start, events[..n]);
      KnownIsLastWritten(start, events[..n], p);
      match events[n]
      case Stored(pos, data) => WriteKnown(before, pos, data, p);
      case Lost(pos, count) => ClobberKnown(before, pos, count, p);
      case TrimmedTo(_) =>
    }
  }

  // The content is the last byte written at each position, the size the furthest end.
  lemma ContentIsLastWritten(start: int, events: seq<Event>)
    requires IsRun(start, events)
    ensures var f := Result(start, events);
            && f.Valid() && f.size == FurthestEnd(events)
            && forall p: nat :: KnownAt(f, p) == LastWritten(events, p)
  {
    RunIsValid(start, events);
    SizeIsFurthestEnd(start, events);
    forall p: nat ensures KnownAt(Result(start, events), p) == LastWritten(events, p) {
      KnownIsLastWritten(start, events, p);
    }
  }

  lemma ReadsLastWritten(start: int, events: seq<Event>, pos: nat, data: seq<Byte>)
    requires IsRun(start, events) && Result(start, events).Reads(pos, data)
    ensures forall k: nat | k < |data| && LastWritten(events, pos + k).Some? ::
              data[k] == LastWritten(events, pos + k).value
  {
    forall k: nat | k < |data| && LastWritten(events, pos + k).Some?
      ensures data[k] == LastWritten(events, pos + k).value
    {
      KnownIsLastWritten(start, events, pos + k);
      assert Result(start, events).Agrees(pos, data, k);
    }
  }

  // Every read after a run returns, at each position written since the last trim, the last byte
  // written there; it never crosses the size, and stops at a quantum that was never written.
  lemma ReadAfterRun(start: int, events: seq<Event>, pos: nat, count: nat, data: seq<Byte>)
    requires IsRun(start, events) && Result(start, events).quantum > 0
    requires |data| == Result(start, events).ReadCount(pos, count) && Result(start, events).Reads(pos, data)
    ensures data != [] ==> pos + |data| <= FurthestEnd(events)
                           && pos / Result(start, events).quantum in Result(start, events).quanta
    ensures forall k: nat | k < |data| && LastWritten(events, pos + k).Some? ::
              data[k] == LastWritten(events, pos + k).value
  {
    SizeIsFurthestEnd(start, events);
    ReadsLastWritten(start, events, pos, data);
  }

  // ---- Loops of short writes and short reads ----

  // write() called again for what the last call did not take, until everything is taken.
  ghost function WriteAll(f: File, pos: nat, data: seq<Byte>): (g: File)
    requires f.quantum > 0
    ensures g.quantum == f.quantum
    decreases |data|
  {
    if data == [] then f
    else
      var n := f.WriteCount(pos, |data|);
      WriteAll(f.Write(pos, data[..n]), pos + n, data[n..])
  }

  // What read() may collect when it is called again until it returns 0 or `count` bytes are
  // there: it gets as far as the first position that is past the end or in a hole.
  ghost predicate ReadAll(f: File, pos: nat, count: nat, out: seq<Byte>)
    requires f.quantum > 0
  {
    && |out| <= count && f.Reads(pos, out)
    && (forall p {:trigger f.Readable(p)} | pos <= p < pos + |out| :: f.Readable(p))
    && (|out| < count ==> !f.Readable(pos + |out|))
  }

  lemma ReadsConcat(f: File, pos: nat, first: seq<Byte>, rest: seq<Byte>)
    requires f.Reads(pos, first) && f.Reads(pos + |first|, rest)
    ensures f.Reads(pos, first + rest)
  {
    forall k | 0 <= k < |first + rest| ensures f.Agrees(pos, first + rest, k) {
      assert if k < |first| then f.Agrees(pos, first, k) else f.Agrees(pos + |first|, rest, k - |first|);
    }
  }

  // A call gives nothing exactly where nothing can be read, and otherwise readable bytes.
  lemma ReadCountIsReadable(f: File, pos: nat, count: nat)
    requires f.quantum > 0 && count > 0
    ensures f.ReadCount(pos, count) == 0 <==> !f.Readable(pos)
    ensures forall p | pos <= p < pos + f.ReadCount(pos, count) :: f.Readable(p)
  {
    forall p | pos <= p < pos + f.ReadCount(pos, count) ensures f.Readable(p) {
      SameQuantum(f.quantum, pos, p - pos);
    }
  }

  // The first call and what the later ones collect.
  lemma ReadAllStep(f: File, pos: nat, count: nat, first: seq<Byte>, rest: seq<Byte>)
    requires f.quantum > 0 && |first| == f.ReadCount(pos, count) && f.Reads(pos, first)
    requires if first == [] then rest == [] else ReadAll(f, pos + |first|, count - |first|, rest)
    ensures ReadAll(f, pos, count, first + rest)
  {
    ReadsConcat(f, pos, first, rest);
    if count > 0 {
      ReadCountIsReadable(f, pos, count);
    }
  }

  // From `f` to `h` the bytes `data` were stored at `pos`, as far as `p` is concerned.
  ghost predicate Covers(f: File, h: File, pos: nat, data: seq<Byte>, p: nat) {
    KnownAt(h, p) == if pos <= p < pos + |data| then Some(data[p - pos]) else KnownAt(f, p)
  }

  lemma CoverStep(f: File, pos: nat, first: seq<Byte>, h: File, rest: seq<Byte>, p: nat)
    requires f.quantum > 0 && Covers(f.Write(pos, first), h, pos + |first|, rest, p)
    ensures Covers(f, h, pos, first + rest, p)
  {
    WriteKnown(f, pos, first, p);
  }

  lemma {:induction false} WriteAllCovers(f: File, pos: nat, data: seq<Byte>, p: nat)
    requires f.quantum > 0
    ensures Covers(f, WriteAll(f, pos, data), pos, data, p)
    decreases |data|
  {
    if data != [] {
      var n := f.WriteCount(pos, |data|);
      WriteAllCovers(f.Write(pos, data[..n]), pos + n, data[n..], p);
      CoverStep(f, pos, data[..n], WriteAll(f, pos, data), data[n..], p);
      assert data[..n] + data[n..] == data;
    }
  }

  lemma {:induction false} WriteAllFits(f: File, pos: nat, data: seq<Byte>, p: nat)
    requires f.quantum > 0 && f.Fits(p)
    ensures WriteAll(f, pos, data).Fits(p)
    decreases |data|
  {
    if data != [] {
      var n := f.WriteCount(pos, |data|);
      WriteFits(f, pos, data[..n], p);
      WriteAllFits(f.Write(pos, data[..n]), pos + n, data[n..], p);
    }
  }

  // The loop stores the whole buffer and touches no other known byte.
  lemma WriteAllStores(f: File, pos: nat, data: seq<Byte>)
    requires f.Valid() && f.quantum > 0
    ensures var g := WriteAll(f, pos, data);
            && g.Valid()
            && forall p: nat :: KnownAt(g, p) == if pos <= p < pos + |data| then Some(data[p - pos]) else KnownAt(f, p)
  {
    var g := WriteAll(f, pos, data);
    forall p | p in g.content ensures g.Fits(p) {
      WriteAllFits(f, pos, data, p);
    }
    forall p: nat ensures KnownAt(g, p) == if pos <= p < pos + |data| then Some(data[p - pos]) else KnownAt(f, p) {
      WriteAllCovers(f, pos, data, p);
    }
  }

  ghost predicate Holds(f: File, pos: nat, data: seq<Byte>) {
    forall k: nat | k < |data| :: KnownAt(f, pos + k) == Some(data[k])
  }

  lemma HeldIsRead(f: File, pos: nat, data: seq<Byte>, piece: seq<Byte>)
    requires Holds(f, pos, data) && f.Reads(pos, piece) && |piece| <= |data|
    ensures piece == data[..|piece|]
  {
    forall k: nat | k < |piece| ensures piece[k] == data[..|piece|][k] {
      assert KnownAt(f, pos + k) == Some(data[k]) && f.Agrees(pos, piece, k);
    }
  }

  // Reading a range of known bytes with a loop returns them.
  lemma ReadAllReturns(f: File, pos: nat, data: seq<Byte>, out: seq<Byte>)
    requires f.Valid() && f.quantum > 0 && Holds(f, pos, data) && ReadAll(f, pos, |data|, out)
    ensures out == data
  {
    if |out| < |data| {
      assert KnownAt(f, pos + |out|) == Some(data[|out|]) && f.Fits(pos + |out|);
      assert false;
    }
    HeldIsRead(f, pos, data, out);
  }

  // Writing a buffer with a loop and reading the range back with a loop gives the buffer.
  lemma RoundTrip(f: File, pos: nat, data: seq<Byte>, out: seq<Byte>)
    requires f.Valid() && f.quantum > 0 && ReadAll(WriteAll(f, pos, data), pos, |data|, out)
    ensures out == data
  {
    WriteAllStores(f, pos, data);
    ReadAllReturns(WriteAll(f, pos, data), pos, data, out);
  }
}
