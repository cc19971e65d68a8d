// The debugfs file kept in one growing buffer.
module MemFile {
  import opened Common

  function Max(a: nat, b: nat): nat {
    if a < b then b else a
  }

  function Zeros(n: nat): (z: seq<Byte>)
    ensures |z| == n && forall i | 0 <= i < n :: z[i] == 0
  {
    seq(n, _ => 0)
  }

  // ---- The abstract file ----

  // Writing past the end fills the gap with zeros.
  function WriteAt(f: seq<Byte>, off: nat, data: seq<Byte>): (r: seq<Byte>)
    ensures |r| == Max(|f|, off + |data|)
    ensures forall i | off <= i < off + |data| :: r[i] == data[i - off]
    ensures forall i | 0 <= i < |r| && !(off <= i < off + |data|) :: r[i] == if i < |f| then f[i] else 0
  {
    var base := if off > |f| then f + Zeros(off - |f|) else f;
    base[..off] + data + if off + |data| < |base| then base[off + |data|..] else []
  }

  function ReadAt(f: seq<Byte>, pos: nat, len: nat): (r: seq<Byte>)
    ensures |r| == if |f| <= pos then 0 else Min(len, |f| - pos)
    ensures forall i | 0 <= i < |r| :: r[i] == f[pos + i]
  {
    if |f| <= pos then [] else f[pos..pos + Min(len, |f| - pos)]
  }

  // The byte at `i` of the file after the write.
  function ByteAfter(f: seq<Byte>, off: nat, data: seq<Byte>, i: nat): Byte {
    if off <= i < off + |data| then data[i - off] else if i < |f| then f[i] else 0
  }

  // A file whose bytes are those after the write, cut off somewhere.
  lemma WriteAtIs(f: seq<Byte>, off: nat, data: seq<Byte>, r: seq<Byte>)
    requires |r| <= Max(|f|, off + |data|)
    requires forall i | 0 <= i < |r| :: r[i] == ByteAfter(f, off, data, i)
    ensures r == WriteAt(f, off, data)[..|r|]
  {
  }

  lemma ReadBack(f: seq<Byte>, off: nat, data: seq<Byte>)
    ensures ReadAt(WriteAt(f, off, data), off, |data|) == data
  {
    assert |WriteAt(f, off, data)| >= off + |data|;
  }

  // The file and the position of the handle after a write.
  datatype Outcome = Outcome(file: seq<Byte>, pos: nat)

  function ModuleWrite(f: seq<Byte>, pos: nat, data: seq<Byte>): Outcome {
    Outcome(WriteAt(f, pos, data), pos + |data|)
  }

  // write() in POSIX.1-2017: a write of no bytes to a regular file has no effect, and with
  // O_APPEND the position moves to the end of the file before every write.
  function PosixWrite(append: bool, f: seq<Byte>, pos: nat, data: seq<Byte>): Outcome {
    if data == [] then Outcome(f, pos)
    else if append then ModuleWrite(f, |f|, data)
    else ModuleWrite(f, pos, data)
  }

  // What a caller can check before the write.
  predicate Conforms(append: bool, size: nat, pos: nat, len: nat) {
    if len == 0 then pos <= size else !append || pos == size
  }

  lemma ConformsIff(append: bool, f: seq<Byte>, pos: nat, data: seq<Byte>)
    ensures ModuleWrite(f, pos, data) == PosixWrite(append, f, pos, data)
            <==> Conforms(append, |f|, pos, |data|)
  {
    if data == [] && pos <= |f| {
      assert WriteAt(f, pos, data) == f;
    }
  }

  lemma EmptyWriteCanExtend()
    ensures ModuleWrite([], 1, []) == Outcome([0], 1) && PosixWrite(false, [], 1, []) == Outcome([], 1)
  {
  }

  lemma StaleAppendOverwrites()
    ensures ModuleWrite([1, 2], 0, [3]) == Outcome([3, 2], 1)
    ensures PosixWrite(true, [1, 2], 0, [3]) == Outcome([1, 2, 3], 3)
  {
  }

  // ---- A truncation in the middle of a write ----

  // An open truncates without the semaphore, and so can come between the two loads of `used` of
  // a reservation, or between the second one and the store, which then covers it.
  datatype Cut = NoCut | SeenCut | UnseenCut

  function UsedAfter(used: nat, newUsed: nat, cut: Cut): nat {
    match cut
    case NoCut => Max(used, newUsed)
    case SeenCut => newUsed
    case UnseenCut => if newUsed > used then newUsed else 0
  }

  function CutWrite(f: seq<Byte>, off: nat, data: seq<Byte>, cut: Cut): seq<Byte> {
    WriteAt(f, off, data)[..UsedAfter(|f|, off + |data|, cut)]
  }

  // Only zeros stand before the offset, or the write stays inside the file and the truncation
  // comes after the load that has found this.
  predicate NothingReappears(f: seq<Byte>, off: nat, len: nat, cut: Cut) {
    (cut.UnseenCut? && off + len <= |f|) || forall i | 0 <= i < |f| && i < off :: f[i] == 0
  }

  // The write and the truncation take effect one after the other, in some order, if and only if
  // no byte from before the truncation reappears.
  lemma CutTakesEffectIff(f: seq<Byte>, off: nat, data: seq<Byte>, cut: Cut)
    requires !cut.NoCut?
    ensures CutWrite(f, off, data, cut) == WriteAt([], off, data) || CutWrite(f, off, data, cut) == []
            <==> NothingReappears(f, off, |data|, cut)
  {
    var r, after := CutWrite(f, off, data, cut), WriteAt([], off, data);
    if r != [] {
      assert |r| == |after| == off + |data|;
      forall i | 0 <= i < |r| ensures r[i] == after[i] <==> !(i < off && i < |f| && f[i] != 0) {
      }
      if NothingReappears(f, off, |data|, cut) {
        assert r == after;
      }
    }
  }

  lemma OldByteReappears()
    ensures CutWrite([7, 8], 1, [9], SeenCut) == [7, 9] && WriteAt([], 1, [9]) == [0, 9]
  {
    assert WriteAt([7, 8], 1, [9]) == [7, 9];
  }

  // ---- Runs ----

  datatype Event = Truncate | Write(off: nat, data: seq<Byte>)

  function Result(events: seq<Event>): seq<Byte> {
    if events == [] then []
    else
      match events[|events| - 1]
      case Truncate => []
      case Write(off, data) => WriteAt(Result(events[..|events| - 1]), off, data)
  }

  lemma ResultAfter(events: seq<Event>, off: nat, data: seq<Byte>)
    ensures Result(events + [Write(off, data)]) == WriteAt(Result(events), off, data)
  {
    assert (events + [Write(off, data)])[..|events|] == events;
  }

  // The last byte written at position `i` since the last truncation.
  function LastWritten(events: seq<Event>, i: nat): Option<Byte> {
    if events == [] then None
    else
      match events[|events| - 1]
      case Truncate => None
      case Write(off, data) =>
        if off <= i < off + |data| then Some(data[i - off]) else LastWritten(events[..|events| - 1], i)
  }

  function FurthestEnd(events: seq<Event>): nat {
    if events == [] then 0
    else
      match events[|events| - 1]
      case Truncate => 0
      case Write(off, data) => Max(FurthestEnd(events[..|events| - 1]), off + |data|)
  }

  lemma {:induction false} ContentIsLastWritten(events: seq<Event>)
    ensures |Result(events)| == FurthestEnd(events)
    ensures forall i: nat | i < |Result(events)| ::
              Result(events)[i] == match LastWritten(events, i) case Some(b) => b case None => 0
  {
    if events != [] {
      var before := events[..|events| - 1];
      ContentIsLastWritten(before);
      forall i: nat | i >= FurthestEnd(before)
        ensures LastWritten(before, i) == None
      {
        NothingPastEnd(before, i);
      }
    }
  }

  lemma {:induction false} NothingPastEnd(events: seq<Event>, i: nat)
    requires i >= FurthestEnd(events)
    ensures LastWritten(events, i) == None
  {
    if events != [] && events[|events| - 1].Write? {
      NothingPastEnd(events[..|events| - 1], i);
    }
  }

  // Nothing from before a truncation reappears.
  lemma {:induction false} TruncationForgets(before: seq<Event>, after: seq<Event>)
    ensures Result(before + [Truncate] + after) == Result(after)
  {
    var all := before + [Truncate] + after;
    if after == [] {
      assert all[|all| - 1] == Truncate;
    } else {
      var n := |after| - 1;
      assert all[..|all| - 1] == before + [Truncate] + after[..n];
      assert all[|all| - 1] == after[n];
      TruncationForgets(before, after[..n]);
    }
  }

  // ---- Growth of the buffer ----

  // A run of reservations, each given by the number of bytes it needs in all.
  function Grown(size: nat, need: nat): nat {
    if need > size then 2 * need else size
  }

  function Capacity(first: nat, needs: seq<nat>): nat {
    if needs == [] then first else Grown(Capacity(first, needs[..|needs| - 1]), needs[|needs| - 1])
  }

  predicate Reallocates(first: nat, needs: seq<nat>)
    requires needs != []
  {
    needs[|needs| - 1] > Capacity(first, needs[..|needs| - 1])
  }

  // Bytes carried over by all reallocations, and how many of them there were.
  function Copied(first: nat, needs: seq<nat>): nat {
    if needs == [] then 0
    else
      var before := needs[..|needs| - 1];
      Copied(first, before) + if Reallocates(first, needs) then Capacity(first, before) else 0
  }

  function Reallocations(first: nat, needs: seq<nat>): nat {
    if needs == [] then 0
    else Reallocations(first, needs[..|needs| - 1]) + if Reallocates(first, needs) then 1 else 0
  }

  function Peak(needs: seq<nat>): nat {
    if needs == [] then 0 else Max(Peak(needs[..|needs| - 1]), needs[|needs| - 1])
  }

  lemma {:induction false} PeakIsLargest(needs: seq<nat>)
    ensures forall i | 0 <= i < |needs| :: needs[i] <= Peak(needs)
    ensures needs != [] ==> exists i | 0 <= i < |needs| :: needs[i] == Peak(needs)
  {
    if needs != [] {
      var n := |needs| - 1;
      PeakIsLargest(needs[..n]);
      assert forall i | 0 <= i < n :: needs[i] == needs[..n][i] <= Peak(needs[..n]);
      if n > 0 && Peak(needs) != needs[n] {
        var i :| 0 <= i < n && needs[..n][i] == Peak(needs[..n]);
        assert needs[i] == Peak(needs);
      } else {
        assert needs[n] == Peak(needs);
      }
    }
  }

  function Doubled(size: nat, times: nat): nat {
    if times == 0 then size else 2 * Doubled(size, times - 1)
  }

  lemma ReallocationMoreThanDoubles(first: nat, needs: seq<nat>)
    requires needs != []
    ensures if Reallocates(first, needs)
            then Capacity(first, needs) > 2 * Capacity(first, needs[..|needs| - 1])
            else Capacity(first, needs) == Capacity(first, needs[..|needs| - 1])
  {
  }

  lemma Reserving(first: nat, needs: seq<nat>, need: nat)
    ensures Capacity(first, needs + [need]) == Grown(Capacity(first, needs), need)
    ensures Copied(first, needs + [need])
            == Copied(first, needs) + if need > Capacity(first, needs) then Capacity(first, needs) else 0
    ensures Peak(needs + [need]) == Max(Peak(needs), need)
  {
    assert (needs + [need])[..|needs|] == needs;
  }

  // The buffer stays within twice the largest need; all the copying is less than the final
  // capacity; and the number of reallocations is logarithmic in it.
  lemma {:induction false} GrowthIsAmortised(first: nat, needs: seq<nat>)
    ensures Peak(needs) <= Capacity(first, needs) <= Max(first, 2 * Peak(needs))
    ensures Reallocations(first, needs) > 0 ==> Copied(first, needs) < Capacity(first, needs) <= 2 * Peak(needs)
    ensures Reallocations(first, needs) == 0 ==> Copied(first, needs) == 0 && Capacity(first, needs) == first
    ensures Doubled(first, Reallocations(first, needs)) <= Capacity(first, needs)
  {
    if needs != [] {
      var before := needs[..|needs| - 1];
      GrowthIsAmortised(first, before);
      if Reallocates(first, needs) {
        ReallocationMoreThanDoubles(first, needs);
      }
    }
  }

  // ---- The module ----

  const LOFF_T: int := 0x8000_0000_0000_0000

  datatype Whence = SeekSet | SeekCur | SeekEnd | SeekOther

  // Sums are kept in a signed word of 64 bits.
  function ToLoff(x: int): int {
    (x + LOFF_T) % (2 * LOFF_T) - LOFF_T
  }

  function Target(pos: int): Option<nat> {
    var newpos := ToLoff(pos);
    if newpos < 0 then None else Some(newpos)
  }

  // From a base in the range of positions a seek succeeds if and only if it stays in that range:
  // beyond the top the sum is negative.
  lemma SeekSucceedsIff(base: nat, off: int)
    requires base < LOFF_T && -LOFF_T <= off < LOFF_T
    ensures Target(base + off).Some? <==> 0 <= base + off < LOFF_T
    ensures Target(base + off).Some? ==> Target(base + off).value == base + off
  {
  }

  // An open file, with its own position and the O_APPEND flag of its open.
  class Handle {
    var pos: nat
    var append: bool

    constructor ()
      ensures pos == 0 && !append
    {
      pos, append := 0, false;
    }
  }

  class Data {
    var buf: array<Byte>
    var used: nat
    var size: nat
    const first: nat
    ghost var events: seq<Event>
    ghost var needs: seq<nat>
    ghost var copied: nat

    // The buffer has the capacity that the reservations so far give it.
    ghost predicate Shaped()
      reads `buf, `used, `size, `needs, `copied
    {
      && used <= size == buf.Length
      && size == Capacity(first, needs)
      && copied == Copied(first, needs)
      && used <= Peak(needs)
    }

    ghost function File(): seq<Byte>
      reads `buf, `used, `size, `needs, `copied, buf
      requires Shaped()
    {
      buf[..used]
    }

    ghost predicate Valid()
      reads this, buf
    {
      Shaped() && File() == Result(events)
    }

    // The module is loaded with a buffer of one byte.
    constructor (bytes: nat)
      ensures Valid() && fresh(buf) && first == bytes
      ensures File() == [] && events == [] && needs == []
    {
      buf := new Byte[bytes](_ => 0);
      used := 0;
      size := bytes;
      first := bytes;
      events, needs, copied := [], [], 0;
    }

    // Bytes added by the reallocation hold anything.
    method Reallocate(bytes: nat)
      requires size == buf.Length && size < bytes
      modifies this`buf, this`copied
      ensures fresh(buf) && buf.Length == bytes
      ensures forall i | 0 <= i < size :: buf[i] == old(buf[i])
      ensures copied == old(copied) + size
    {
      var bigger := new Byte[bytes];
      var i := 0;
      while i < size
        modifies bigger, this`copied
        invariant 0 <= i <= size
        invariant forall j | 0 <= j < i :: bigger[j] == buf[j]
        invariant copied == old(copied) + i
      {
        bigger[i] := buf[i];
        copied := copied + 1;
        i := i + 1;
      }
      buf := bigger;
    }

    // memset and copy_from_user.
    method Put(off: nat, bytes: seq<Byte>)
      requires off + |bytes| <= buf.Length
      modifies buf
      ensures forall j | 0 <= j < buf.Length ::
                buf[j] == if off <= j < off + |bytes| then bytes[j - off] else old(buf[j])
    {
      var i := 0;
      while i < |bytes|
        invariant 0 <= i <= |bytes|
        invariant forall j | 0 <= j < buf.Length ::
                    buf[j] == if off <= j < off + i then bytes[j - off] else old(buf[j])
      {
        buf[off + i] := bytes[i];
        i := i + 1;
      }
    }

    // The first half of dyn_arr_reserve: room for `newUsed` bytes.
    method Grow(newUsed: nat)
      requires Shaped()
      modifies this`buf, this`size, this`needs, this`copied
      ensures Shaped() && (buf == old(buf) || fresh(buf))
      ensures newUsed <= size
      ensures forall i | 0 <= i < used :: buf[i] == old(buf[i])
      ensures needs == old(needs) + [newUsed]
    {
      Reserving(first, needs, newUsed);
      needs := needs + [newUsed];
      if newUsed > size {
        Reallocate(newUsed * 2);
        size := newUsed * 2;
      }
    }

    // The last lines of dyn_arr_reserve. `cut` tells when a truncation comes in between, if any.
    method SetUsed(newUsed: nat, cut: Cut)
      modifies `used
      ensures used == UsedAfter(old(used), newUsed, cut)
    {
      if cut.SeenCut? {
        used := 0;
      }
      var grows := newUsed > used;
      if cut.UnseenCut? {
        used := 0;
      }
      if grows {
        used := newUsed;
      }
    }

    method FillGap(off: nat)
      requires used <= buf.Length && off <= buf.Length
      modifies buf
      ensures forall i | 0 <= i < used :: buf[i] == old(buf[i])
      ensures forall i | used <= i < off :: buf[i] == 0
    {
      if off > used {
        Put(used, Zeros(off - used));
      }
    }

    method Reserve(off: nat, len: nat, cut: Cut)
      requires Shaped()
      modifies this, buf
      ensures Shaped() && (buf == old(buf) || fresh(buf)) && Max(old(used), off + len) <= size
      ensures used == UsedAfter(old(used), off + len, cut)
      ensures forall i | 0 <= i < old(used) :: buf[i] == old(buf[i])
      ensures forall i | old(used) <= i < off :: buf[i] == 0
      ensures needs == old(needs) + [off + len] && events == old(events)
    {
      var newUsed := off + len;
      Reserving(first, needs, newUsed);
      Grow(newUsed);
      FillGap(off);
      SetUsed(newUsed, cut);
    }

    method Insert(off: nat, data: seq<Byte>, cut: Cut)
      requires Shaped()
      modifies this, buf
      ensures Shaped() && (buf == old(buf) || fresh(buf))
      ensures needs == old(needs) + [off + |data|] && events == old(events)
      ensures File() == CutWrite(old(File()), off, data, cut)
    {
      ghost var before := File();
      Reserve(off, |data|, cut);
      label reserved:
      assert forall i | 0 <= i < |before| :: buf[i] == before[i];
      Put(off, data);
      assert forall i | 0 <= i < used && !(off <= i < off + |data|) :: buf[i] == old@reserved(buf[i]);
      WriteAtIs(before, off, data, File());
    }

    ghost method Log(off: nat, data: seq<Byte>)
      requires Shaped() && File() == WriteAt(Result(events), off, data)
      modifies this`events
      ensures Valid() && events == old(events) + [Event.Write(off, data)]
    {
      ResultAfter(events, off, data);
      events := events + [Event.Write(off, data)];
    }

    method Store(off: nat, data: seq<Byte>)
      requires Valid()
      modifies this, buf
      ensures Valid() && (buf == old(buf) || fresh(buf))
      ensures File() == WriteAt(old(File()), off, data)
      ensures events == old(events) + [Event.Write(off, data)]
      ensures needs == old(needs) + [off + |data|]
    {
      Insert(off, data, NoCut);
      Log(off, data);
    }

    // The copy from the user succeeds and no offset leaves loff_t.
    method Write(h: Handle, data: seq<Byte>) returns (ret: nat)
      requires Valid() && h.pos + |data| < LOFF_T
      modifies this, buf, h
      ensures Valid() && (buf == old(buf) || fresh(buf))
      ensures Outcome(File(), h.pos) == ModuleWrite(old(File()), old(h.pos), data)
      ensures ret == |data| && h.pos == old(h.pos) + ret
      ensures events == old(events) + [Event.Write(old(h.pos), data)]
      ensures needs == old(needs) + [old(h.pos) + |data|]
      ensures h.append == old(h.append)
    {
      var off := h.pos;
      Store(off, data);
      h.pos := off + |data|;
      ret := |data|;
    }

    method Open(h: Handle, trunc: bool, append: bool)
      requires Valid() && h.pos == 0
      modifies this`used, this`events, h
      ensures Valid()
      ensures File() == if trunc then [] else old(File())
      ensures h.pos == if append && !trunc then |File()| else 0
      ensures h.append == append
      ensures events == if trunc then old(events) + [Truncate] else old(events)
    {
      h.append := append;
      if trunc {
        used := 0;
        events := events + [Truncate];
      } else if append {
        h.pos := used;
      }
    }

    // Read gives None when the copy to the user faults.
    method Read(h: Handle, len: nat, faults: bool) returns (r: Option<seq<Byte>>)
      requires Valid()
      modifies h
      ensures r == if faults && ReadAt(File(), old(h.pos), len) != [] then None
                   else Some(ReadAt(File(), old(h.pos), len))
      ensures h.pos == old(h.pos) + if r.Some? then |r.value| else 0
      ensures h.append == old(h.append)
    {
      if used <= h.pos {
        r := Some([]);
      } else {
        var n := Min(len, used - h.pos);
        var bytes := buf[h.pos..h.pos + n];
        assert bytes == ReadAt(File(), h.pos, len);
        if faults && n > 0 {
          r := None;
        } else {
          r := Some(bytes);
          h.pos := h.pos + n;
        }
      }
    }

    method Llseek(h: Handle, off: int, whence: Whence) returns (r: Option<nat>)
      requires Valid() && -LOFF_T <= off < LOFF_T
      modifies h`pos
      ensures r == match whence
                   case SeekSet => if off < 0 then None else Some(off)
                   case SeekCur => Target(old(h.pos) + off)
                   case SeekEnd => Target(|File()| + off)
                   case SeekOther => None
      ensures h.pos == if r.Some? then r.value else old(h.pos)
    {
      var base: nat;
      match whence {
        case SeekSet => base := 0;
        case SeekCur => base := h.pos;
        case SeekEnd => base := used;
        case SeekOther => return None;
      }
      r := Target(base + off);
      if r.Some? {
        h.pos := r.value;
      }
    }
  }

  // An appending handle overwrites what another handle has written since its open.
  method AppendAfterAnotherWriter(d: Data, h: Handle, other: Handle, first: seq<Byte>, second: seq<Byte>)
    requires d.Valid() && h != other && h.pos == 0 && other.pos == 0
    requires |first| < LOFF_T && |second| < LOFF_T
    modifies d, d.buf, h, other
    ensures d.Valid() && h.append
    ensures d.File() == WriteAt(first, 0, second) && h.pos == |second|
    ensures first != [] && second != [] ==>
              Outcome(d.File(), h.pos) != PosixWrite(h.append, first, 0, second)
  {
    d.Open(other, true, false);
    d.Open(h, false, true);
    var n := d.Write(other, first);
    assert WriteAt([], 0, first) == first;
    n := d.Write(h, second);
  }

  // What the growth laws say about the module's own buffer, loaded with one byte.
  lemma BufferGrowth(d: Data)
    requires d.Shaped() && d.first == 1
    ensures d.used <= d.size <= Max(1, 2 * Peak(d.needs))
    ensures Reallocations(1, d.needs) > 0 ==> d.copied < d.size
  {
    GrowthIsAmortised(1, d.needs);
  }
}
