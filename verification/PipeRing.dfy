// The data path of the scull pipe device: a circular buffer with one slot kept free.
//
// `Ring` is the value of the fields the data path uses (pointers become offsets from `buffer`);
// `ScullPipe` is the device itself, changed in place, and its methods are the sections
// of scull_p_read and scull_p_write that run with the device mutex held.
module PipeRing {
  import opened Common

  datatype Ring = Ring(buf: seq<Byte>, rp: nat, wp: nat) {
    ghost predicate Valid() {
      rp < |buf| && wp < |buf|
    }

    // C's % agrees with Dafny's here: the left operand is positive.
    function SpaceFree(): int
      requires Valid()
    {
      FreeBetween(rp, wp, |buf|)
    }

    // The queued bytes, oldest first.
    ghost function Contents(): seq<Byte>
      requires Valid()
    {
      if rp <= wp then buf[rp..wp] else buf[rp..] + buf[..wp]
    }

    function ReadCount(count: nat): nat
      requires Valid()
    {
      ReadCountAt(rp, wp, |buf|, count)
    }

    function AdvanceRead(n: nat): Ring {
      this.(rp := Advance(rp, n, |buf|))
    }

    function WriteCount(count: nat): nat
      requires Valid() && SpaceFree() > 0
    {
      WriteCountAt(rp, wp, |buf|, count)
    }

    // What copying `src` to the write pointer leaves in the buffer, before the pointer moves.
    function CopyIn(src: seq<Byte>): Ring
      requires Valid() && wp + |src| <= |buf|
    {
      this.(buf := buf[..wp] + src + buf[wp + |src|..])
    }

    function AdvanceWrite(n: nat): Ring {
      this.(wp := Advance(wp, n, |buf|))
    }
  }

  function FreeBetween(rp: nat, wp: nat, size: nat): (free: int)
    requires rp < size && wp < size
    ensures free == if rp <= wp then size - 1 - (wp - rp) else rp - wp - 1
  {
    assert rp > wp ==> (rp + size - wp) % size == rp - wp by {
      if rp > wp {
        ModOfSum(rp - wp, size);
      }
    }
    if rp == wp then size - 1 else (rp + size - wp) % size - 1
  }

  function ReadCountAt(rp: nat, wp: nat, size: nat, count: nat): (n: nat)
    requires rp < size && wp < size
    ensures n <= count && rp + n <= size
  {
    if wp > rp then Min(count, wp - rp) else Min(count, size - rp)
  }

  function WriteCountAt(rp: nat, wp: nat, size: nat, count: nat): (n: nat)
    requires rp < size && wp < size && FreeBetween(rp, wp, size) > 0
    ensures n <= count && wp + n <= size
  {
    var c := Min(count, FreeBetween(rp, wp, size));
    if wp >= rp then Min(c, size - wp) else Min(c, rp - wp - 1)
  }

  function Advance(p: nat, n: nat, size: nat): nat {
    if p + n == size then 0 else p + n
  }

  // One slot is always kept free, so used + free is the capacity less one.
  lemma Conservation(r: Ring)
    requires r.Valid()
    ensures |r.Contents()| + r.SpaceFree() == |r.buf| - 1
    ensures r.rp == r.wp <==> r.Contents() == []
  {
  }

  lemma ModOfSum(x: nat, m: nat)
    requires x < m
    ensures (x + m) % m == x
  {
  }

  // A read takes a non-empty prefix of the queue and leaves the rest of it.
  lemma ReadTakesPrefix(r: Ring, count: nat)
    requires r.Valid() && r.rp != r.wp
    ensures var n := r.ReadCount(count);
            && r.rp + n <= |r.buf|
            && n <= count && (count > 0 ==> n > 0)
            && r.AdvanceRead(n).Valid()
            && r.Contents() == r.buf[r.rp..r.rp + n] + r.AdvanceRead(n).Contents()
  {
    var n := r.ReadCount(count);
    var next := r.AdvanceRead(n);
    Join(r.buf, r.rp, r.rp + n, if r.rp < r.wp then r.wp else |r.buf|);
    if r.rp < r.wp {
      assert next.Contents() == r.buf[r.rp + n..r.wp];
    } else if r.rp + n < |r.buf| {
      assert next.Contents() == r.buf[r.rp + n..] + r.buf[..r.wp];
      Assoc(r.buf[r.rp..r.rp + n], r.buf[r.rp + n..], r.buf[..r.wp]);
    } else {
      assert next.Contents() == r.buf[..r.wp];
    }
  }

  lemma Assoc(a: seq<Byte>, b: seq<Byte>, c: seq<Byte>)
    ensures (a + b) + c == a + (b + c)
  {
  }

  // It stops short only where the queue is empty or at the end of the buffer.
  lemma ReadIsMaximal(r: Ring, count: nat)
    requires r.Valid() && r.rp != r.wp
    ensures var n := r.ReadCount(count);
            && r.AdvanceRead(n).Valid()
            && (n == count || r.rp + n == |r.buf| || r.AdvanceRead(n).Contents() == [])
  {
    ReadTakesPrefix(r, count);
  }

  // A write appends a non-empty prefix of the offered bytes.
  lemma WriteAppends(r: Ring, src: seq<Byte>)
    requires r.Valid() && r.SpaceFree() > 0
    ensures var n := r.WriteCount(|src|);
            && n <= |src| && (|src| > 0 ==> n > 0)
            && r.wp + n <= |r.buf|
            && r.CopyIn(src[..n]).AdvanceWrite(n).Valid()
            && r.CopyIn(src[..n]).AdvanceWrite(n).Contents() == r.Contents() + src[..n]
  {
    var n := r.WriteCount(|src|);
    CopyInSlices(r, src[..n]);
    var b := r.CopyIn(src[..n]).buf;
    if r.rp <= r.wp {
      Join(b, r.rp, r.wp, r.wp + n);
    } else {
      Join(b, 0, r.wp, r.wp + n);
      Assoc(b[r.rp..], b[..r.wp], src[..n]);
    }
  }

  // It stops short only where the queue is full or at the end of the buffer.
  lemma WriteIsMaximal(r: Ring, src: seq<Byte>)
    requires r.Valid() && r.SpaceFree() > 0
    ensures var n := r.WriteCount(|src|);
            && r.wp + n <= |r.buf| && r.CopyIn(src[..n]).AdvanceWrite(n).Valid()
            && (|| n == |src| || r.wp + n == |r.buf|
                || |r.CopyIn(src[..n]).AdvanceWrite(n).Contents()| == |r.buf| - 1)
  {
    WriteAppends(r, src);
    Conservation(r);
  }

  lemma Join(b: seq<Byte>, i: nat, j: nat, k: nat)
    requires i <= j <= k <= |b|
    ensures b[i..j] + b[j..k] == b[i..k]
    ensures k == |b| ==> b[j..k] == b[j..] && b[i..k] == b[i..]
    ensures i == 0 ==> b[i..j] == b[..j] && b[i..k] == b[..k]
  {
  }

  lemma CopyInSlices(r: Ring, src: seq<Byte>)
    requires r.Valid() && r.wp + |src| <= |r.buf|
    ensures var b := r.CopyIn(src).buf;
            && |b| == |r.buf|
            && b[..r.wp] == r.buf[..r.wp]
            && b[r.wp..r.wp + |src|] == src
            && b[r.wp + |src|..] == r.buf[r.wp + |src|..]
            && (r.rp <= r.wp ==> b[r.rp..r.wp] == r.buf[r.rp..r.wp])
            && (r.wp + |src| <= r.rp ==> b[r.rp..] == r.buf[r.rp..])
  {
  }

  // A copy that faults part way scribbles only on free space: the queue is what it was.
  lemma FaultKeepsQueue(r: Ring, src: seq<Byte>)
    requires r.Valid() && r.SpaceFree() > 0 && |src| <= r.WriteCount(|src|)
    ensures r.wp + |src| <= |r.buf|
    ensures r.CopyIn(src).Valid() && r.CopyIn(src).Contents() == r.Contents()
  {
    CopyInSlices(r, src);
  }

  datatype ReadResult = ReadBytes(data: seq<Byte>) | NothingToRead | ReadFault
  datatype WriteResult = Accepted(n: nat) | NoSpace | WriteFault

  // `size` is the driver's buffersize; the buffer itself is allocated once.
  class ScullPipe {
    var buffer: array<Byte>
    var size: nat
    var rp: nat
    var wp: nat

    ghost predicate Valid()
      reads this, buffer
    {
      size <= buffer.Length && State().Valid()
    }

    ghost function State(): Ring
      requires size <= buffer.Length
      reads this, buffer
    {
      Ring(buffer[..size], rp, wp)
    }

    ghost function Queue(): seq<Byte>
      requires Valid()
      reads this, buffer
    {
      State().Contents()
    }

    // First open: allocates the buffer.
    constructor (bufferSize: nat)
      requires bufferSize > 0
      ensures Valid() && fresh(buffer) && buffer.Length == size == bufferSize && Queue() == []
    {
      buffer := new Byte[bufferSize];
      size, rp, wp := bufferSize, 0, 0;
    }

    // A later open takes the size configured by then but keeps the buffer, and drops
    // everything queued in it. The pipe stays usable exactly if the new size fits the buffer.
    method Reopen(bufferSize: nat)
      requires Valid()
      modifies this
      ensures buffer == old(buffer) && size == bufferSize && rp == wp == 0
      ensures Valid() <==> 0 < bufferSize <= buffer.Length
      ensures Valid() ==> Queue() == [] && State().SpaceFree() == bufferSize - 1
    {
      size := bufferSize;
      rp, wp := 0, 0;
    }

    method Read(count: nat, faults: bool) returns (r: ReadResult)
      requires Valid()
      modifies this`rp
      ensures Valid()
      ensures r.NothingToRead? <==> old(Queue()) == []
      ensures r.ReadFault? <==> old(Queue()) != [] && count > 0 && faults
      ensures !r.ReadBytes? ==> Queue() == old(Queue())
      ensures r.ReadBytes? ==> old(Queue()) == r.data + Queue()
      ensures r.ReadBytes? ==> |r.data| == old(State()).ReadCount(count) && (count > 0 ==> |r.data| > 0)
      ensures r.ReadBytes? ==> |r.data| == count || old(rp) + |r.data| == size || Queue() == []
      ensures r.ReadBytes? ==> State() == old(State()).AdvanceRead(|r.data|)
    {
      Conservation(State());
      if rp == wp {
        return NothingToRead;
      }
      ReadTakesPrefix(State(), count);
      ReadIsMaximal(State(), count);
      var n := ReadCountAt(rp, wp, size, count);
      if faults && n > 0 {
        return ReadFault;
      }
      r := ReadBytes(buffer[rp..rp + n]);
      MoveRp(n);
    }

    method MoveRp(n: nat)
      requires Valid() && rp + n <= size
      modifies this`rp
      ensures State() == old(State()).AdvanceRead(n)
    {
      rp := rp + n;
      if rp == size {
        rp := 0;
      }
    }

    method MoveWp(n: nat)
      requires Valid() && wp + n <= size
      modifies this`wp
      ensures State() == old(State()).AdvanceWrite(n)
    {
      wp := wp + n;
      if wp == size {
        wp := 0;
      }
    }

    // Copies to the write pointer without moving it.
    method CopyFromUser(src: seq<Byte>)
      requires Valid() && wp + |src| <= size
      modifies buffer
      ensures State() == old(State()).CopyIn(src)
    {
      ghost var before := buffer[..size];
      forall i | 0 <= i < |src| {
        buffer[wp + i] := src[i];
      }
      assert buffer[..wp] == before[..wp];
      assert buffer[wp..wp + |src|] == src;
      assert buffer[wp + |src|..size] == before[wp + |src|..];
      assert buffer[..size] == buffer[..wp] + buffer[wp..wp + |src|] + buffer[wp + |src|..size];
    }

    // `reach` is how many bytes the copy can fetch before it hits an unmapped user page.
    method Write(src: seq<Byte>, reach: nat) returns (r: WriteResult)
      requires Valid()
      modifies this`wp, buffer
      ensures Valid() && buffer == old(buffer)
      ensures r.NoSpace? <==> |old(Queue())| == size - 1
      ensures !r.Accepted? ==> Queue() == old(Queue())
      ensures !r.NoSpace? ==>
                (r.WriteFault? <==> reach < old(State()).WriteCount(|src|))
      ensures r.Accepted? ==> r.n == old(State()).WriteCount(|src|) && (|src| > 0 ==> r.n > 0)
      ensures r.Accepted? ==> r.n == |src| || old(wp) + r.n == size || |Queue()| == size - 1
      ensures r.Accepted? ==> Queue() == old(Queue()) + src[..r.n]
      ensures r.Accepted? ==> State() == old(State()).CopyIn(src[..r.n]).AdvanceWrite(r.n)
    {
      ghost var before := State();
      Conservation(before);
      var free := FreeBetween(rp, wp, size);
      if free == 0 {
        return NoSpace;
      }
      WriteAppends(before, src);
      WriteIsMaximal(before, src);
      var n := WriteCountAt(rp, wp, size, |src|);
      if reach < n {
        FaultKeepsQueue(before, src[..reach]);
        CopyFromUser(src[..reach]);
        assert State() == before.CopyIn(src[..reach]);
        return WriteFault;
      }
      CopyFromUser(src[..n]);
      MoveWp(n);
      assert State() == before.CopyIn(src[..n]).AdvanceWrite(n);
      assert Queue() == before.Contents() + src[..n];
      r := Accepted(n);
    }
  }
}
