// The bare scull device: a linked list of quantum sets, each an array of lazily allocated quanta.
module QuantumStore {
  import opened Common
  import opened SparseFile
  import DivMod

  // ---- Splitting a position ----

  function Item(p: nat, quantum: nat, qset: nat): nat
    requires quantum * qset > 0
  {
    p / (quantum * qset)
  }

  function SlotOf(p: nat, quantum: nat, qset: nat): nat
    requires quantum > 0 && quantum * qset > 0
  {
    p % (quantum * qset) / quantum
  }

  function Offset(p: nat, quantum: nat, qset: nat): nat
    requires quantum > 0 && quantum * qset > 0
  {
    p % (quantum * qset) % quantum
  }

  function KeyOf(p: nat, quantum: nat, qset: nat): Key
    requires quantum > 0 && quantum * qset > 0
  {
    Key(Item(p, quantum, qset), SlotOf(p, quantum, qset))
  }

  // The three-way split is the usual division by the quantum, with the quotient split again.
  lemma SplitIsDivision(p: nat, quantum: nat, qset: nat)
    requires quantum > 0 && qset > 0
    ensures quantum * qset > 0
    ensures SlotOf(p, quantum, qset) < qset
    ensures Offset(p, quantum, qset) == p % quantum
    ensures Item(p, quantum, qset) * qset + SlotOf(p, quantum, qset) == p / quantum
  {
    Positive(quantum, qset);
    var m := quantum * qset;
    var item, rest := p / m, p % m;
    var slot, off := rest / quantum, rest % quantum;
    assert p == item * m + rest;
    assert rest == slot * quantum + off;
    if slot >= qset {
      Monotone(qset, slot, quantum);
      assert false;
    }
    assert (item * qset + slot) * quantum == item * m + slot * quantum by {
      Regroup(item, qset, quantum);
    }
    DivMod.Unique(p, item * qset + slot, off, quantum);
  }

  lemma Positive(a: nat, b: nat)
    requires a > 0 && b > 0
    ensures a * b > 0
  {
  }

  lemma Monotone(a: nat, b: nat, c: nat)
    requires a <= b
    ensures a * c <= b * c
  {
  }

  lemma Regroup(i: nat, s: nat, q: nat)
    ensures (i * s) * q == i * (q * s)
  {
  }

  // Slots of different (list item, index) pairs are different quanta of the file.
  lemma PairIsQuotient(i: nat, s: nat, k: nat, qset: nat)
    requires qset > 0 && s < qset && k == i * qset + s
    ensures k / qset == i && k % qset == s
  {
    DivMod.Unique(k, i, s, qset);
  }

  // Moving inside a quantum changes only the offset.
  lemma SplitInQuantum(p: nat, k: nat, quantum: nat, qset: nat)
    requires quantum > 0 && qset > 0 && p % quantum + k < quantum
    ensures quantum * qset > 0
    ensures Item(p + k, quantum, qset) == Item(p, quantum, qset)
    ensures SlotOf(p + k, quantum, qset) == SlotOf(p, quantum, qset)
    ensures Offset(p + k, quantum, qset) == Offset(p, quantum, qset) + k
  {
    SplitIsDivision(p, quantum, qset);
    SplitIsDivision(p + k, quantum, qset);
    DivMod.Unique(p + k, p / quantum, p % quantum + k, quantum);
    PairIsQuotient(Item(p, quantum, qset), SlotOf(p, quantum, qset), p / quantum, qset);
    PairIsQuotient(Item(p + k, quantum, qset), SlotOf(p + k, quantum, qset), p / quantum, qset);
  }

  // Two positions with the same split are the same.
  lemma SplitInjective(p: nat, r: nat, quantum: nat, qset: nat)
    requires quantum > 0 && qset > 0 && quantum * qset > 0
    requires Item(p, quantum, qset) == Item(r, quantum, qset)
    requires SlotOf(p, quantum, qset) == SlotOf(r, quantum, qset)
    ensures p - r == Offset(p, quantum, qset) - Offset(r, quantum, qset)
  {
    SplitIsDivision(p, quantum, qset);
    SplitIsDivision(r, quantum, qset);
    assert p == (p / quantum) * quantum + p % quantum;
    assert r == (r / quantum) * quantum + r % quantum;
  }

  // ---- Memory ----

  // An address; 0 is NULL.
  type Ptr = nat

  // What kmalloc gives out: a list node, its array of quantum pointers, or a quantum.
  datatype Cell = Node(table: Ptr, next: Ptr) | Table(slots: seq<Ptr>) | Quantum(bytes: seq<Byte>)

  type Memory = map<Ptr, Cell>

  datatype Key = Key(item: nat, slot: nat)

  // The one place from which a device reaches an address.
  datatype Place = NodeAt(i: nat) | TableAt(i: nat) | QuantumAt(k: Key)

  // How a device is laid out in memory: the addresses of its list nodes, of their pointer arrays
  // (0 where there is none) and of its quanta, and the place of each address.
  datatype Layout = Layout(nodes: seq<Ptr>, tables: seq<Ptr>, quanta: map<Key, Ptr>, places: map<Ptr, Place>) {
    ghost predicate LivesAt(p: Ptr, at: Place) {
      p != 0 && p in places && places[p] == at
    }

    ghost predicate Reaches(at: Place, p: Ptr) {
      match at
      case NodeAt(i) => i < |nodes| && nodes[i] == p
      case TableAt(i) => i < |tables| && tables[i] == p
      case QuantumAt(k) => k in quanta && quanta[k] == p
    }

    function Next(i: nat): Ptr {
      if i + 1 < |nodes| then nodes[i + 1] else 0
    }

    ghost function NodeCell(i: nat, table: Ptr): Cell {
      Node(table, Next(i))
    }

    function Slot(k: Key): Ptr {
      if k in quanta then quanta[k] else 0
    }

    ghost predicate NodeOk(mem: Memory, i: nat)
      requires i < |nodes| == |tables|
    {
      LivesAt(nodes[i], NodeAt(i)) && nodes[i] in mem && mem[nodes[i]] == Node(tables[i], Next(i))
    }

    ghost predicate TableOk(mem: Memory, i: nat, qset: nat)
      requires i < |tables|
    {
      && LivesAt(tables[i], TableAt(i))
      && tables[i] in mem && mem[tables[i]].Table? && |mem[tables[i]].slots| == qset
      && forall s | 0 <= s < qset :: mem[tables[i]].slots[s] == Slot(Key(i, s))
    }

    ghost predicate QuantumOk(mem: Memory, k: Key, quantum: nat, qset: nat)
      requires k in quanta
    {
      && k.item < |tables| && tables[k.item] != 0 && k.slot < qset
      && LivesAt(quanta[k], QuantumAt(k))
      && quanta[k] in mem && mem[quanta[k]].Quantum? && |mem[quanta[k]].bytes| == quantum
    }

    // No leak and no sharing: what is allocated is exactly what the device reaches, each
    // address from one place only.
    ghost predicate HeapOk(mem: Memory) {
      && mem.Keys == places.Keys
      && forall p | p in places :: p != 0 && Reaches(places[p], p)
    }

    ghost predicate Ok(mem: Memory, quantum: nat, qset: nat) {
      && HeapOk(mem)
      && |tables| == |nodes|
      && (forall i {:trigger NodeOk(mem, i)} | 0 <= i < |nodes| :: NodeOk(mem, i))
      && (forall i {:trigger TableOk(mem, i, qset)} | 0 <= i < |tables| && tables[i] != 0 :: TableOk(mem, i, qset))
      && (forall k {:trigger QuantumOk(mem, k, quantum, qset)} | k in quanta :: QuantumOk(mem, k, quantum, qset))
    }

    // ---- Growing ----

    ghost function WithNode(p: Ptr): Layout {
      this.(nodes := nodes + [p], tables := tables + [0], places := places[p := NodeAt(|nodes|)])
    }

    ghost function WithTable(i: nat, p: Ptr): Layout
      requires i < |tables|
    {
      this.(tables := tables[i := p], places := places[p := TableAt(i)])
    }

    ghost function WithQuantum(k: Key, p: Ptr): Layout {
      this.(quanta := quanta[k := p], places := places[p := QuantumAt(k)])
    }
  }

  // The memory after hanging a new node at `p`.
  ghost function HangNode(l: Layout, mem: Memory, p: Ptr): Memory
    requires |l.tables| == |l.nodes|
  {
    var mem' := mem[p := Node(0, 0)];
    if l.nodes == [] then mem'
    else
      var last := |l.nodes| - 1;
      mem'[l.nodes[last] := Node(l.tables[last], p)]
  }

  lemma NodeHangs(l: Layout, mem: Memory, p: Ptr, quantum: nat, qset: nat)
    requires l.Ok(mem, quantum, qset) && p != 0 && p !in mem
    ensures HangNode(l, mem, p).Keys == mem.Keys + {p}
    ensures forall q | q in mem && !mem[q].Node? :: HangNode(l, mem, p)[q] == mem[q]
  {
    if l.nodes != [] {
      assert l.NodeOk(mem, |l.nodes| - 1);
    }
  }

  lemma GrowNodeList(l: Layout, mem: Memory, p: Ptr, quantum: nat, qset: nat)
    requires l.Ok(mem, quantum, qset) && p != 0 && p !in mem
    ensures forall i | 0 <= i <= |l.nodes| :: l.WithNode(p).NodeOk(HangNode(l, mem, p), i)
  {
    var n := |l.nodes|;
    assert n > 0 ==> l.NodeOk(mem, n - 1);
    forall i | 0 <= i <= n ensures l.WithNode(p).NodeOk(HangNode(l, mem, p), i) {
      if i < n {
        assert l.NodeOk(mem, i);
      }
    }
  }

  lemma GrowNode(l: Layout, mem: Memory, p: Ptr, quantum: nat, qset: nat)
    requires l.Ok(mem, quantum, qset) && p != 0 && p !in mem
    ensures l.WithNode(p).Ok(HangNode(l, mem, p), quantum, qset)
  {
    var l', mem' := l.WithNode(p), HangNode(l, mem, p);
    NodeHangs(l, mem, p, quantum, qset);
    GrowNodeList(l, mem, p, quantum, qset);
    forall q | q in l'.places ensures q != 0 && l'.Reaches(l'.places[q], q) {
      assert q != p ==> l.Reaches(l.places[q], q);
    }
    forall i | 0 <= i < |l'.tables| && l'.tables[i] != 0 ensures l'.TableOk(mem', i, qset) {
      assert l.TableOk(mem, i, qset);
    }
    forall k | k in l'.quanta ensures l'.QuantumOk(mem', k, quantum, qset) {
      assert l.QuantumOk(mem, k, quantum, qset);
    }
  }

  lemma GrowTable(l: Layout, mem: Memory, i: nat, p: Ptr, quantum: nat, qset: nat)
    requires l.Ok(mem, quantum, qset) && p != 0 && p !in mem
    requires i < |l.tables| && l.tables[i] == 0
    ensures l.WithTable(i, p).Ok(mem[p := Table(seq(qset, _ => 0))][l.nodes[i] := Node(p, l.Next(i))], quantum, qset)
  {
    var l', mem' := l.WithTable(i, p), mem[p := Table(seq(qset, _ => 0))][l.nodes[i] := Node(p, l.Next(i))];
    assert l.NodeOk(mem, i);
    forall q | q in l'.places ensures q != 0 && l'.Reaches(l'.places[q], q) {
      assert q != p ==> l.Reaches(l.places[q], q);
    }
    forall j | 0 <= j < |l'.nodes| ensures l'.NodeOk(mem', j) {
      assert l.NodeOk(mem, j);
    }
    forall j | 0 <= j < |l'.tables| && l'.tables[j] != 0 ensures l'.TableOk(mem', j, qset) {
      if j == i {
        forall s | 0 <= s < qset ensures l'.Slot(Key(i, s)) == 0 {
          assert Key(i, s) in l.quanta ==> l.QuantumOk(mem, Key(i, s), quantum, qset);
        }
      } else {
        assert l.TableOk(mem, j, qset);
      }
    }
    forall k | k in l'.quanta ensures l'.QuantumOk(mem', k, quantum, qset) {
      assert l.QuantumOk(mem, k, quantum, qset);
    }
  }

  lemma GrowSlot(l: Layout, mem: Memory, k: Key, p: Ptr, bytes: seq<Byte>, quantum: nat, qset: nat)
    requires l.Ok(mem, quantum, qset) && p != 0 && p !in mem
    requires k !in l.quanta && k.item < |l.tables| && l.tables[k.item] != 0 && k.slot < qset
    requires l.TableOk(mem, k.item, qset)
    ensures var t := l.tables[k.item];
            var mem' := mem[p := Quantum(bytes)][t := Table(mem[t].slots[k.slot := p])];
            forall j | 0 <= j < |l.tables| && l.tables[j] != 0 :: l.WithQuantum(k, p).TableOk(mem', j, qset)
  {
    var t := l.tables[k.item];
    var mem' := mem[p := Quantum(bytes)][t := Table(mem[t].slots[k.slot := p])];
    forall j | 0 <= j < |l.tables| && l.tables[j] != 0 ensures l.WithQuantum(k, p).TableOk(mem', j, qset) {
      assert l.TableOk(mem, j, qset);
    }
  }

  lemma GrowQuanta(l: Layout, mem: Memory, k: Key, p: Ptr, bytes: seq<Byte>, quantum: nat, qset: nat)
    requires l.Ok(mem, quantum, qset) && p != 0 && p !in mem && |bytes| == quantum
    requires k !in l.quanta && k.item < |l.tables| && l.tables[k.item] != 0 && k.slot < qset
    requires l.TableOk(mem, k.item, qset)
    ensures var t := l.tables[k.item];
            var mem' := mem[p := Quantum(bytes)][t := Table(mem[t].slots[k.slot := p])];
            var l' := l.WithQuantum(k, p);
            forall j | j in l'.quanta :: l'.QuantumOk(mem', j, quantum, qset)
  {
    var t := l.tables[k.item];
    var mem' := mem[p := Quantum(bytes)][t := Table(mem[t].slots[k.slot := p])];
    var l' := l.WithQuantum(k, p);
    forall j | j in l'.quanta ensures l'.QuantumOk(mem', j, quantum, qset) {
      assert j != k ==> l.QuantumOk(mem, j, quantum, qset);
    }
  }

  lemma GrowQuantum(l: Layout, mem: Memory, k: Key, p: Ptr, bytes: seq<Byte>, quantum: nat, qset: nat)
    requires l.Ok(mem, quantum, qset) && p != 0 && p !in mem && |bytes| == quantum
    requires k !in l.quanta && k.item < |l.tables| && l.tables[k.item] != 0 && k.slot < qset
    ensures l.TableOk(mem, k.item, qset)
    ensures var t := l.tables[k.item];
            l.WithQuantum(k, p).Ok(mem[p := Quantum(bytes)][t := Table(mem[t].slots[k.slot := p])], quantum, qset)
  {
    assert l.TableOk(mem, k.item, qset);
    var t := l.tables[k.item];
    var l', mem' := l.WithQuantum(k, p), mem[p := Quantum(bytes)][t := Table(mem[t].slots[k.slot := p])];
    forall q | q in l'.places ensures q != 0 && l'.Reaches(l'.places[q], q) {
      assert q != p ==> l.Reaches(l.places[q], q);
    }
    forall j | 0 <= j < |l'.nodes| ensures l'.NodeOk(mem', j) {
      assert l.NodeOk(mem, j);
    }
    GrowSlot(l, mem, k, p, bytes, quantum, qset);
    GrowQuanta(l, mem, k, p, bytes, quantum, qset);
  }

  lemma OverwriteQuantum(l: Layout, mem: Memory, k: Key, bytes: seq<Byte>, quantum: nat, qset: nat)
    requires l.Ok(mem, quantum, qset) && k in l.quanta && |bytes| == quantum
    ensures l.Ok(mem[l.quanta[k] := Quantum(bytes)], quantum, qset)
  {
    var mem' := mem[l.quanta[k] := Quantum(bytes)];
    assert l.QuantumOk(mem, k, quantum, qset);
    forall j | 0 <= j < |l.nodes| ensures l.NodeOk(mem', j) {
      assert l.NodeOk(mem, j);
    }
    forall j | 0 <= j < |l.tables| && l.tables[j] != 0 ensures l.TableOk(mem', j, qset) {
      assert l.TableOk(mem, j, qset);
    }
    forall j | j in l.quanta ensures l.QuantumOk(mem', j, quantum, qset) {
      assert l.QuantumOk(mem, j, quantum, qset);
    }
  }

  // ---- Contents ----

  ghost predicate HoldsByte(l: Layout, mem: Memory, k: Key, off: nat, b: Byte) {
    && k in l.quanta && l.quanta[k] in mem && mem[l.quanta[k]].Quantum?
    && off < |mem[l.quanta[k]].bytes| && mem[l.quanta[k]].bytes[off] == b
  }

  // Every position with a known byte lies below the size, in an allocated quantum that holds it.
  ghost predicate ContentOk(l: Layout, mem: Memory, content: map<nat, Byte>, size: nat, quantum: nat, qset: nat)
    requires quantum > 0 && quantum * qset > 0
  {
    forall p | p in content ::
      p < size && HoldsByte(l, mem, KeyOf(p, quantum, qset), Offset(p, quantum, qset), content[p])
  }

  // A change that leaves every quantum's bytes alone keeps the contents.
  lemma ContentKept(l: Layout, mem: Memory, l': Layout, mem': Memory, content: map<nat, Byte>, size: nat,
                    quantum: nat, qset: nat)
    requires quantum > 0 && quantum * qset > 0 && ContentOk(l, mem, content, size, quantum, qset)
    requires forall k | k in l.quanta :: k in l'.quanta && l'.quanta[k] == l.quanta[k]
    requires forall k | k in l.quanta && l.quanta[k] in mem && mem[l.quanta[k]].Quantum? ::
               l.quanta[k] in mem' && mem'[l.quanta[k]] == mem[l.quanta[k]]
    ensures ContentOk(l', mem', content, size, quantum, qset)
  {
  }

  // What is known of a stretch inside one quantum is what that quantum holds.
  lemma KnownByteIsHeld(l: Layout, mem: Memory, f: File, pos: nat, j: nat, quantum: nat, qset: nat)
    requires quantum > 0 && qset > 0 && quantum * qset > 0 && ContentOk(l, mem, f.content, f.size, quantum, qset)
    requires pos % quantum + j < quantum && pos + j in f.content
    ensures HoldsByte(l, mem, KeyOf(pos, quantum, qset), pos % quantum + j, f.content[pos + j])
  {
    SplitIsDivision(pos, quantum, qset);
    SplitInQuantum(pos, j, quantum, qset);
  }

  lemma KnownBytesAreHeld(l: Layout, mem: Memory, f: File, pos: nat, n: nat, quantum: nat, qset: nat)
    requires quantum > 0 && qset > 0 && quantum * qset > 0 && ContentOk(l, mem, f.content, f.size, quantum, qset)
    requires KeyOf(pos, quantum, qset) in l.quanta && l.QuantumOk(mem, KeyOf(pos, quantum, qset), quantum, qset)
    requires pos % quantum + n <= quantum
    ensures f.Reads(pos, mem[l.quanta[KeyOf(pos, quantum, qset)]].bytes[pos % quantum..pos % quantum + n])
  {
    var bytes := mem[l.quanta[KeyOf(pos, quantum, qset)]].bytes[pos % quantum..pos % quantum + n];
    forall j | 0 <= j < |bytes| ensures f.Agrees(pos, bytes, j) {
      if pos + j in f.content {
        KnownByteIsHeld(l, mem, f, pos, j, quantum, qset);
      }
    }
  }

  ghost function QuotientsOf(quanta: map<Key, Ptr>, qset: int): set<int> {
    set k | k in quanta :: k.item * qset + k.slot
  }

  // The quantum of a position is allocated exactly when the file says so.
  lemma AllocatedIff(l: Layout, mem: Memory, p: nat, quantum: nat, qset: nat)
    requires quantum > 0 && qset > 0 && l.Ok(mem, quantum, qset)
    ensures quantum * qset > 0
    ensures KeyOf(p, quantum, qset) in l.quanta <==> p / quantum in QuotientsOf(l.quanta, qset)
  {
    SplitIsDivision(p, quantum, qset);
    var key := KeyOf(p, quantum, qset);
    if p / quantum in QuotientsOf(l.quanta, qset) {
      var k :| k in l.quanta && k.item * qset + k.slot == p / quantum;
      assert l.QuantumOk(mem, k, quantum, qset);
      PairIsQuotient(k.item, k.slot, p / quantum, qset);
      PairIsQuotient(key.item, key.slot, p / quantum, qset);
    }
  }

  lemma {:induction false} Bound(s: set<nat>) returns (b: nat)
    ensures forall x | x in s :: x < b
  {
    if s == {} {
      b := 0;
    } else {
      var x :| x in s;
      var c := Bound(s - {x});
      b := if c <= x then x + 1 else c;
      assert forall y | y in s :: y == x || y in s - {x};
    }
  }

  lemma ItemInList(pos: nat, size: nat, n: nat, itemsize: nat)
    requires itemsize > 0 && pos < size <= n * itemsize
    ensures pos / itemsize < n
  {
    if pos / itemsize >= n {
      Monotone(n, pos / itemsize, itemsize);
    }
  }

  // The end of a write stays inside the list it was given.
  lemma SizeInList(pos: nat, n: nat, item: nat, nodes: nat, quantum: nat, qset: nat)
    requires quantum > 0 && qset > 0 && quantum * qset > 0
    requires item == Item(pos, quantum, qset) && item < nodes && pos % quantum + n <= quantum
    ensures pos + n <= nodes * (quantum * qset)
  {
    SplitIsDivision(pos, quantum, qset);
    assert pos == (pos / quantum) * quantum + pos % quantum;
    assert pos + n <= (pos / quantum + 1) * quantum;
    assert pos / quantum + 1 <= (item + 1) * qset;
    Monotone(pos / quantum + 1, (item + 1) * qset, quantum);
    Regroup(item + 1, qset, quantum);
    Monotone(item + 1, nodes, quantum * qset);
  }

  lemma QuotientAdded(quanta: map<Key, Ptr>, k: Key, p: Ptr, qset: nat)
    ensures QuotientsOf(quanta[k := p], qset) == QuotientsOf(quanta, qset) + {k.item * qset + k.slot}
  {
    var quanta' := quanta[k := p];
    forall j | j in quanta ensures j.item * qset + j.slot in QuotientsOf(quanta', qset) {
      assert j in quanta';
    }
    assert k in quanta';
  }

  ghost function Secured(f: File, pos: nat): File
    requires f.quantum > 0
  {
    f.(quanta := f.quanta + {pos / f.quantum})
  }

  // Of `content'` every byte is one of `src`, stored at `pos`, or was known before.
  ghost predicate Overwrites(content: map<nat, Byte>, content': map<nat, Byte>, pos: nat, src: seq<Byte>, size: nat) {
    forall p | p in content' ::
      || (pos <= p < pos + |src| && content'[p] == src[p - pos] && p < size)
      || (!(pos <= p < pos + |src|) && p in content && content'[p] == content[p])
  }

  lemma WriteOverwrites(f: File, pos: nat, src: seq<Byte>)
    requires f.quantum > 0
    ensures Overwrites(f.content, f.Write(pos, src).content, pos, src, f.Write(pos, src).size)
  {
  }

  lemma ClobberOverwrites(f: File, pos: nat, count: nat, src: seq<Byte>)
    requires f.quantum > 0 && |src| <= count
    ensures Overwrites(f.content, f.Clobber(pos, count).content, pos, src, f.size)
  {
  }

  // Copying `src` into the quantum of `pos` gives the positions it covers those bytes and
  // leaves the bytes of all other positions alone.
  lemma CopyKeepsContent(l: Layout, mem: Memory, content: map<nat, Byte>, size: nat,
                         pos: nat, src: seq<Byte>, content': map<nat, Byte>, size': nat,
                         quantum: nat, qset: nat)
    requires quantum > 0 && qset > 0 && quantum * qset > 0
    requires l.Ok(mem, quantum, qset) && ContentOk(l, mem, content, size, quantum, qset)
    requires KeyOf(pos, quantum, qset) in l.quanta && l.QuantumOk(mem, KeyOf(pos, quantum, qset), quantum, qset)
    requires pos % quantum + |src| <= quantum && size <= size'
    requires Overwrites(content, content', pos, src, size')
    ensures var q, a := pos % quantum, l.quanta[KeyOf(pos, quantum, qset)];
            ContentOk(l, mem[a := Quantum(mem[a].bytes[..q] + src + mem[a].bytes[q + |src|..])],
                      content', size', quantum, qset)
  {
    SplitIsDivision(pos, quantum, qset);
    var key := KeyOf(pos, quantum, qset);
    var q, a := pos % quantum, l.quanta[key];
    var mem' := mem[a := Quantum(mem[a].bytes[..q] + src + mem[a].bytes[q + |src|..])];
    forall p | p in content'
      ensures p < size' && HoldsByte(l, mem', KeyOf(p, quantum, qset), Offset(p, quantum, qset), content'[p])
    {
      if pos <= p < pos + |src| {
        SplitInQuantum(pos, p - pos, quantum, qset);
      } else {
        var k := KeyOf(p, quantum, qset);
        assert HoldsByte(l, mem, k, Offset(p, quantum, qset), content[p]);
        if k == key {
          SplitInjective(p, pos, quantum, qset);
        } else {
          assert l.QuantumOk(mem, k, quantum, qset);
        }
      }
    }
  }

  // ---- Trimming ----

  // What is still to be freed when the loop of scull_trim is at node `j`, pointer `s`.
  ghost predicate Kept(at: Place, j: nat, s: nat) {
    match at
    case NodeAt(i) => j <= i
    case TableAt(i) => j <= i
    case QuantumAt(k) => j < k.item || (j == k.item && s <= k.slot)
  }

  ghost function Remaining(l: Layout, mem: Memory, j: nat, s: nat): Memory
    requires mem.Keys == l.places.Keys
  {
    map p | p in mem && Kept(l.places[p], j, s) :: mem[p]
  }

  lemma NothingFreed(l: Layout, mem: Memory, quantum: nat, qset: nat)
    requires l.Ok(mem, quantum, qset)
    ensures Remaining(l, mem, 0, 0) == mem
  {
  }

  lemma NothingLeft(l: Layout, mem: Memory, quantum: nat, qset: nat)
    requires l.Ok(mem, quantum, qset)
    ensures Remaining(l, mem, |l.nodes|, 0) == map[]
  {
    forall p | p in mem ensures !Kept(l.places[p], |l.nodes|, 0) {
      assert l.Reaches(l.places[p], p);
      if l.places[p].QuantumAt? {
        assert l.QuantumOk(mem, l.places[p].k, quantum, qset);
      }
    }
  }

  lemma FreeSlot(l: Layout, mem: Memory, j: nat, s: nat, quantum: nat, qset: nat)
    requires l.Ok(mem, quantum, qset) && j < |l.tables| && s < qset
    ensures var p := l.Slot(Key(j, s));
            && (p == 0 || p in Remaining(l, mem, j, s))
            && Remaining(l, mem, j, s) - {p} == Remaining(l, mem, j, s + 1)
  {
    var k := Key(j, s);
    assert k in l.quanta ==> l.QuantumOk(mem, k, quantum, qset);
    forall p | p in mem && Kept(l.places[p], j, s)
      ensures p == l.Slot(k) || Kept(l.places[p], j, s + 1)
    {
      assert l.Reaches(l.places[p], p);
    }
  }

  lemma FreeNode(l: Layout, mem: Memory, j: nat, cell: Cell, quantum: nat, qset: nat)
    requires l.Ok(mem, quantum, qset) && j < |l.nodes|
    ensures l.tables[j] == 0 ==> Remaining(l, mem, j, 0) - {l.nodes[j]} == Remaining(l, mem, j + 1, 0)
    ensures l.tables[j] != 0 ==>
              (Remaining(l, mem, j, qset) - {l.tables[j]})[l.nodes[j] := cell] - {l.nodes[j]}
              == Remaining(l, mem, j + 1, 0)
  {
    assert l.NodeOk(mem, j);
    assert l.tables[j] != 0 ==> l.TableOk(mem, j, qset);
    forall p | p in mem
      ensures var s := if l.tables[j] == 0 then 0 else qset;
              Kept(l.places[p], j, s) && p != l.nodes[j] && p != l.tables[j] <==> Kept(l.places[p], j + 1, 0)
    {
      assert l.Reaches(l.places[p], p);
      if l.places[p].QuantumAt? {
        assert l.QuantumOk(mem, l.places[p].k, quantum, qset);
      }
    }
  }

  // ---- The device ----

  const SCULL_QUANTUM: int := 4000
  const SCULL_QSET: int := 1000

  datatype Request = Reset | Set | Tell | Get | Query | Exchange | Shift
  datatype Reply = Done | Value(v: int) | Copied(v: int) | NotPermitted | Fault

  predicate Changes(cmd: Request) {
    cmd.Set? || cmd.Tell? || cmd.Exchange? || cmd.Shift?
  }

  // The argument could not be read, or the old value could not be stored through it.
  predicate Faults(cmd: Request, fetched: Option<int>, stores: bool, admin: bool) {
    || (admin && (cmd.Set? || cmd.Exchange?) && fetched.None?)
    || (!stores && (cmd.Get? || (cmd.Exchange? && admin && fetched.Some?)))
  }

  // The module's scull_quantum and scull_qset, which a trim copies into the device.
  class ScullParams {
    var quantum: int
    var qset: int

    constructor ()
      ensures quantum == SCULL_QUANTUM && qset == SCULL_QSET
    {
      quantum, qset := SCULL_QUANTUM, SCULL_QSET;
    }

    // A request other than Reset, on the parameter whose value is `cur`. `fetched` is what is
    // read through the argument, None if that faults, and then the parameter may hold anything.
    method Serve(cmd: Request, cur: int, arg: int, fetched: Option<int>, stores: bool, admin: bool)
      returns (new': int, r: Reply)
      requires !cmd.Reset?
      ensures r.NotPermitted? <==> Changes(cmd) && !admin
      ensures r.NotPermitted? || !Changes(cmd) ==> new' == cur
      ensures (cmd.Tell? || cmd.Shift?) && admin ==> new' == arg
      ensures (cmd.Set? || cmd.Exchange?) && admin && fetched.Some? ==> new' == fetched.value
      ensures r.Value? <==> cmd.Query? || (cmd.Shift? && admin)
      ensures r.Copied? <==> stores && (cmd.Get? || (cmd.Exchange? && admin && fetched.Some?))
      ensures r.Value? || r.Copied? ==> r.v == cur
      ensures r.Done? <==> admin && (cmd.Tell? || (cmd.Set? && fetched.Some?))
      ensures r.Fault? <==> Faults(cmd, fetched, stores, admin)
    {
      new' := cur;
      if Changes(cmd) && !admin {
        return new', NotPermitted;
      }
      match cmd {
        case Get => r := if stores then Copied(cur) else Fault;
        case Query => r := Value(cur);
        case Tell => new', r := arg, Done;
        case Shift => new', r := arg, Value(cur);
        case Set =>
          if fetched.None? {
            new' := *;
            return new', Fault;
          }
          new', r := fetched.value, Done;
        case Exchange =>
          if fetched.None? {
            new' := *;
            return new', Fault;
          }
          new', r := fetched.value, if stores then Copied(cur) else Fault;
      }
    }

    // No device is touched: a change takes effect at its next trim.
    method Ioctl(cmd: Request, onQset: bool, arg: int, fetched: Option<int>, stores: bool, admin: bool)
      returns (r: Reply)
      modifies this
      ensures cmd.Reset? ==> r == Done && quantum == SCULL_QUANTUM && qset == SCULL_QSET
      ensures !cmd.Reset? ==> if onQset then quantum == old(quantum) else qset == old(qset)
      ensures !cmd.Reset? && (r.NotPermitted? || !Changes(cmd)) ==> quantum == old(quantum) && qset == old(qset)
      ensures !cmd.Reset? && admin && (cmd.Tell? || cmd.Shift?) ==> (if onQset then qset else quantum) == arg
      ensures !cmd.Reset? && admin && (cmd.Set? || cmd.Exchange?) && fetched.Some? ==>
                (if onQset then qset else quantum) == fetched.value
      ensures r.NotPermitted? <==> Changes(cmd) && !admin
      ensures r.Value? <==> cmd.Query? || (cmd.Shift? && admin)
      ensures r.Copied? <==> stores && (cmd.Get? || (cmd.Exchange? && admin && fetched.Some?))
      ensures r.Value? || r.Copied? ==> r.v == old(if onQset then qset else quantum)
      ensures r.Done? <==> cmd.Reset? || (admin && (cmd.Tell? || (cmd.Set? && fetched.Some?)))
      ensures r.Fault? <==> Faults(cmd, fetched, stores, admin)
    {
      if cmd.Reset? {
        quantum, qset := SCULL_QUANTUM, SCULL_QSET;
        r := Done;
      } else if onQset {
        qset, r := Serve(cmd, qset, arg, fetched, stores, admin);
      } else {
        quantum, r := Serve(cmd, quantum, arg, fetched, stores, admin);
      }
    }
  }

  datatype ReadResult = ReadBytes(bytes: seq<Byte>) | ReadFault
  datatype WriteResult = Written(n: nat) | WriteFault | NoMemory

  // `mem` is the memory allocated on behalf of the device: kmalloc adds to it, kfree takes away.
  // `events` is what the calls have done and `denied` how many times kmalloc has failed.
  class ScullDev {
    var data: Ptr
    var quantum: int
    var qset: int
    var size: nat
    var mem: Memory
    ghost var layout: Layout
    ghost var content: map<nat, Byte>
    ghost const start: int
    ghost var events: seq<Event>
    ghost var denied: nat

    // With parameters that are not both positive the device can hold nothing, and a write
    // would divide by zero or go astray.
    predicate Usable()
      reads `quantum, `qset
    {
      quantum > 0 && qset > 0
    }

    ghost predicate Linked()
      reads `data, `quantum, `qset, `size, `mem, `layout, `content
    {
      && Usable() && quantum * qset > 0
      && layout.Ok(mem, quantum, qset)
      && data == (if layout.nodes == [] then 0 else layout.nodes[0])
      && ContentOk(layout, mem, content, size, quantum, qset)
      && size <= |layout.nodes| * (quantum * qset)
    }

    ghost predicate Empty()
      reads `data, `size, `mem, `layout, `content
    {
      data == 0 && size == 0 && mem == map[] && layout == Layout([], [], map[], map[]) && content == map[]
    }

    // The device as a sparse file.
    ghost function AsFile(): File
      reads `quantum, `qset, `size, `layout, `content
    {
      File(quantum, QuotientsOf(layout.quanta, qset), size, content)
    }

    ghost predicate Sound()
      reads `data, `quantum, `qset, `size, `mem, `layout, `content
    {
      if Usable() then Linked() else Empty()
    }

    // The file is what the calls so far have made of it.
    ghost predicate Valid()
      reads this
    {
      Sound() && IsRun(start, events) && Result(start, events) == AsFile()
    }

    constructor (params: ScullParams)
      ensures Valid() && mem == map[] && denied == 0 && events == []
      ensures quantum == params.quantum && qset == params.qset && AsFile() == File.Trimmed(params.quantum)
    {
      data, size, mem := 0, 0, map[];
      quantum, qset := params.quantum, params.qset;
      layout, content := Layout([], [], map[], map[]), map[];
      start, events, denied := params.quantum, [], 0;
      new;
      EmptyIsSound();
    }

    lemma EmptyIsSound()
      requires Empty()
      ensures Sound() && QuotientsOf(layout.quanta, qset) == {}
    {
      if Usable() {
        Positive(quantum, qset);
      }
    }

    ghost method Log(e: Event)
      requires IsRun(start, events) && Possible(Result(start, events), e) && Sound()
      requires AsFile() == After(Result(start, events), e)
      modifies `events
      ensures Valid() && events == old(events) + [e]
    {
      RunSnoc(start, events, e);
      events := events + [e];
    }

    // kmalloc may fail at any call.
    method Kmalloc(cell: Cell) returns (p: Ptr)
      modifies `mem, `denied
      ensures denied == old(denied) + if p == 0 then 1 else 0
      ensures p == 0 ==> mem == old(mem)
      ensures p != 0 ==> p !in old(mem) && mem == old(mem)[p := cell]
    {
      var fails := *;
      if fails {
        denied := denied + 1;
        return 0;
      }
      ghost var q := Bound(mem.Keys + {0});
      assert q !in mem;
      p :| p != 0 && p !in mem;
      mem := mem[p := cell];
    }

    // Freeing what is not allocated is excluded; NULL is allowed.
    method Kfree(p: Ptr)
      requires p == 0 || p in mem
      modifies `mem
      ensures mem == old(mem) - {p}
    {
      mem := mem - {p};
    }

    // Records in the layout the node that was just hung at `p`.
    ghost method NodeHung(mem0: Memory, p: Ptr)
      requires Usable() && quantum * qset > 0
      requires layout.Ok(mem0, quantum, qset) && p != 0 && p !in mem0 && mem == HangNode(layout, mem0, p)
      requires data == (if layout.nodes == [] then p else layout.nodes[0])
      requires ContentOk(layout, mem0, content, size, quantum, qset) && size <= |layout.nodes| * (quantum * qset)
      modifies `layout
      ensures Linked() && layout == old(layout).WithNode(p)
    {
      NodeHangs(layout, mem0, p, quantum, qset);
      ContentKept(layout, mem0, layout.WithNode(p), mem, content, size, quantum, qset);
      GrowNode(layout, mem0, p, quantum, qset);
      Monotone(|layout.nodes|, |layout.nodes| + 1, quantum * qset);
      layout := layout.WithNode(p);
    }

    // One round of the loop of scull_follow: the node after the i-th, made if there is none.
    method NextOf(qs: Ptr, ghost i: nat) returns (next: Ptr)
      requires Linked() && i < |layout.nodes| && qs == layout.nodes[i]
      modifies `mem, `layout, `denied
      ensures Linked() && layout.quanta == old(layout.quanta)
      ensures denied == old(denied) + if next == 0 then 1 else 0
      ensures next != 0 ==> i + 1 < |layout.nodes| && next == layout.nodes[i + 1]
      ensures i + 1 < |old(layout.nodes)| ==> next != 0 && mem == old(mem) && layout == old(layout)
    {
      assert layout.NodeOk(mem, i);
      assert i + 1 < |layout.nodes| ==> layout.NodeOk(mem, i + 1);
      next := mem[qs].next;
      if next == 0 {
        next := Kmalloc(Node(0, 0));
        if next != 0 {
          mem := mem[qs := mem[qs].(next := next)];
          NodeHung(old(mem), next);
        }
      }
    }

    // The first node of the list, made if there is none.
    method First() returns (qs: Ptr)
      requires Linked()
      modifies `data, `mem, `layout, `denied
      ensures Linked() && layout.quanta == old(layout.quanta)
      ensures denied == old(denied) + if qs == 0 then 1 else 0
      ensures qs != 0 ==> layout.nodes != [] && qs == layout.nodes[0]
      ensures old(layout.nodes) != [] ==> qs != 0 && mem == old(mem) && layout == old(layout) && data == old(data)
    {
      assert layout.nodes != [] ==> layout.NodeOk(mem, 0);
      qs := data;
      if qs == 0 {
        qs := Kmalloc(Node(0, 0));
        if qs != 0 {
          data := qs;
          NodeHung(old(mem), qs);
        }
      }
    }

    // The n-th node of the list, which is extended as far as kmalloc allows.
    method Follow(n: nat) returns (qs: Ptr)
      requires Linked()
      modifies `data, `mem, `layout, `denied
      ensures Linked() && layout.quanta == old(layout.quanta)
      ensures denied == old(denied) + if qs == 0 then 1 else 0
      ensures qs != 0 ==> n < |layout.nodes| && qs == layout.nodes[n]
      ensures n < |old(layout.nodes)| ==> qs != 0 && mem == old(mem) && layout == old(layout) && data == old(data)
    {
      qs := First();
      var left := n;
      while left > 0 && qs != 0
        invariant Linked() && layout.quanta == old(layout.quanta)
        invariant 0 <= left <= n
        invariant denied == old(denied) + if qs == 0 then 1 else 0
        invariant qs != 0 ==> n - left < |layout.nodes| && qs == layout.nodes[n - left]
        invariant n < |old(layout.nodes)| ==> qs != 0 && mem == old(mem) && layout == old(layout) && data == old(data)
      {
        left := left - 1;
        qs := NextOf(qs, n - left - 1);
      }
    }

    // What is behind a slot of the i-th node: 0 where there is no quantum.
    method Lookup(dptr: Ptr, s: nat, ghost i: nat) returns (p: Ptr)
      requires Linked() && i < |layout.nodes| && dptr == layout.nodes[i] && s < qset
      ensures p != 0 <==> Key(i, s) in layout.quanta
      ensures p != 0 ==> layout.quanta[Key(i, s)] == p && layout.QuantumOk(mem, Key(i, s), quantum, qset)
    {
      assert layout.NodeOk(mem, i);
      assert Key(i, s) in layout.quanta ==> layout.QuantumOk(mem, Key(i, s), quantum, qset);
      var table := mem[dptr].table;
      if table == 0 {
        return 0;
      }
      assert layout.TableOk(mem, i, qset);
      p := mem[table].slots[s];
    }

    method Read(pos: nat, count: nat, faults: bool) returns (r: ReadResult)
      requires Valid()
      modifies this
      ensures Valid() && AsFile() == old(AsFile()) && events == old(events) && denied == old(denied)
      ensures mem == old(mem) && data == old(data) && qset == old(qset)
      ensures !Usable() ==> r == ReadBytes([])
      ensures Usable() ==>
                && (r.ReadFault? <==> faults && AsFile().ReadCount(pos, count) > 0)
                && (r.ReadBytes? ==> |r.bytes| == AsFile().ReadCount(pos, count) && AsFile().Reads(pos, r.bytes))
      ensures Usable() && r.ReadBytes? ==>
                if AsFile().Readable(pos) then
                  GoesFar(quantum, pos, |r.bytes|, if count < size - pos then count else size - pos)
                else r.bytes == []
    {
      if Usable() && AsFile().Readable(pos) {
        ReadIsMaximal(AsFile(), pos, count);
      }
      if pos >= size {
        return ReadBytes([]);
      }
      r := Fetch(pos, if pos + count > size then size - pos else count, faults);
    }

    // The rest of scull_read, with `count` cut to what the device holds.
    method Fetch(pos: nat, count: nat, faults: bool) returns (r: ReadResult)
      requires Linked() && pos < size && pos + count <= size
      modifies `data, `mem, `layout, `denied
      ensures layout == old(layout) && mem == old(mem) && data == old(data) && denied == old(denied)
      ensures r.ReadFault? <==> faults && AsFile().ReadCount(pos, count) > 0
      ensures r.ReadBytes? ==> |r.bytes| == AsFile().ReadCount(pos, count) && AsFile().Reads(pos, r.bytes)
    {
      SplitIsDivision(pos, quantum, qset);
      AllocatedIff(layout, mem, pos, quantum, qset);
      var itemsize := quantum * qset;
      var item, rest := pos / itemsize, pos % itemsize;
      var s, q := rest / quantum, rest % quantum;
      ItemInList(pos, size, |layout.nodes|, quantum * qset);
      var dptr := Follow(item);
      var p := Lookup(dptr, s, item);
      if p == 0 {
        return ReadBytes([]);
      }
      var n := Min(count, quantum - q);
      if faults && n > 0 {
        return ReadFault;
      }
      KnownBytesAreHeld(layout, mem, AsFile(), pos, n, quantum, qset);
      r := ReadBytes(mem[p].bytes[q..q + n]);
    }

    // The pointer array of the i-th node, made if it has none.
    method TableOf(dptr: Ptr, ghost i: nat) returns (table: Ptr)
      requires Linked() && i < |layout.nodes| && dptr == layout.nodes[i]
      modifies `mem, `layout, `denied
      ensures Linked() && layout.quanta == old(layout.quanta) && layout.nodes == old(layout.nodes)
      ensures denied == old(denied) + if table == 0 then 1 else 0
      ensures table != 0 ==> table == layout.tables[i]
      ensures old(layout.tables[i]) != 0 ==> table != 0 && mem == old(mem) && layout == old(layout)
    {
      assert layout.NodeOk(mem, i);
      table := mem[dptr].table;
      if table == 0 {
        table := Kmalloc(Table(seq(qset, _ => 0)));
        if table == 0 {
          return;
        }
        mem := mem[dptr := mem[dptr].(table := table)];
        GrowTable(layout, old(mem), i, table, quantum, qset);
        ContentKept(layout, old(mem), layout.WithTable(i, table), mem, content, size, quantum, qset);
        layout := layout.WithTable(i, table);
      }
    }

    // The quantum behind a slot of a pointer array, made if there is none.
    method QuantumOf(table: Ptr, s: nat, ghost i: nat) returns (p: Ptr)
      requires Linked() && i < |layout.tables| && table != 0 && table == layout.tables[i] && s < qset
      modifies `mem, `layout, `denied
      ensures Linked() && layout.nodes == old(layout.nodes)
      ensures denied == old(denied) + if p == 0 then 1 else 0
      ensures layout.quanta == if p == 0 then old(layout.quanta) else old(layout.quanta)[Key(i, s) := p]
      ensures Key(i, s) in old(layout.quanta) ==> p != 0 && mem == old(mem) && layout == old(layout)
    {
      ghost var key := Key(i, s);
      assert layout.TableOk(mem, i, qset);
      assert key in layout.quanta ==> layout.QuantumOk(mem, key, quantum, qset);
      p := mem[table].slots[s];
      if p != 0 {
        assert layout.quanta == layout.quanta[key := p];
        return;
      }
      assert |seq(quantum, _ => 0 as Byte)| == quantum;
      var bytes: seq<Byte> :| |bytes| == quantum;
      p := Kmalloc(Quantum(bytes));
      if p == 0 {
        return;
      }
      mem := mem[table := Table(mem[table].slots[s := p])];
      GrowQuantum(layout, old(mem), key, p, bytes, quantum, qset);
      ContentKept(layout, old(mem), layout.WithQuantum(key, p), mem, content, size, quantum, qset);
      layout := layout.WithQuantum(key, p);
    }

    // The quantum of a position, allocated if need be: the first half of scull_write. It fails
    // exactly if kmalloc does, and an allocated quantum is found without a call of kmalloc.
    method Locate(pos: nat) returns (p: Ptr)
      requires Linked()
      modifies `data, `mem, `layout, `denied
      ensures Linked()
      ensures denied == old(denied) + if p == 0 then 1 else 0
      ensures KeyOf(pos, quantum, qset) in old(layout.quanta) ==>
                p != 0 && mem == old(mem) && layout == old(layout) && data == old(data)
      ensures p == 0 ==> layout.quanta == old(layout.quanta)
      ensures p != 0 ==>
                && layout.quanta == old(layout.quanta)[KeyOf(pos, quantum, qset) := p]
                && Item(pos, quantum, qset) < |layout.nodes|
    {
      SplitIsDivision(pos, quantum, qset);
      var itemsize := quantum * qset;
      var item, rest := pos / itemsize, pos % itemsize;
      var s := rest / quantum;
      assert Key(item, s) in layout.quanta ==> layout.QuantumOk(mem, Key(item, s), quantum, qset);
      p := Follow(item);
      if p == 0 {
        return;
      }
      p := TableOf(p, item);
      if p == 0 {
        return;
      }
      p := QuantumOf(p, s, item);
    }

    // Copies `bytes` into the quantum at `p`, which holds `pos`; `content'` is what is known then.
    method CopyTo(p: Ptr, pos: nat, bytes: seq<Byte>, ghost content': map<nat, Byte>, newSize: nat)
      requires Linked() && KeyOf(pos, quantum, qset) in layout.quanta && layout.quanta[KeyOf(pos, quantum, qset)] == p
      requires pos % quantum + |bytes| <= quantum && size <= newSize <= |layout.nodes| * (quantum * qset)
      requires Overwrites(content, content', pos, bytes, newSize)
      modifies `mem, `content, `size
      ensures Linked() && content == content' && size == newSize && mem.Keys == old(mem.Keys)
    {
      SplitIsDivision(pos, quantum, qset);
      ghost var key := KeyOf(pos, quantum, qset);
      assert layout.QuantumOk(mem, key, quantum, qset);
      CopyKeepsContent(layout, mem, content, size, pos, bytes, content', newSize, quantum, qset);
      var q := pos % (quantum * qset) % quantum;
      var was := mem[p].bytes;
      var now := was[..q] + bytes + was[q + |bytes|..];
      OverwriteQuantum(layout, mem, key, now, quantum, qset);
      mem := mem[p := Quantum(now)];
      content, size := content', newSize;
    }

    // The second half of scull_write: the copy into the quantum at `p`. `was` is the file before
    // the first half.
    method Accept(p: Ptr, pos: nat, src: seq<Byte>, reach: nat, ghost was: File) returns (r: WriteResult)
      requires Linked() && Item(pos, quantum, qset) < |layout.nodes|
      requires was.quantum == quantum && AsFile() == Secured(was, pos)
      requires KeyOf(pos, quantum, qset) in layout.quanta && layout.quanta[KeyOf(pos, quantum, qset)] == p
      modifies `mem, `content, `size
      ensures Linked() && mem.Keys == old(mem.Keys)
      ensures !r.NoMemory?
      ensures r.WriteFault? <==> reach < was.WriteCount(pos, |src|)
      ensures r.WriteFault? ==> AsFile() == was.Clobber(pos, was.WriteCount(pos, |src|))
      ensures r.Written? ==> r.n == was.WriteCount(pos, |src|)
      ensures r.Written? ==> AsFile() == was.Write(pos, src[..r.n])
    {
      var n := Min(|src|, quantum - pos % quantum);
      if reach < n {
        ClobberOverwrites(was, pos, n, src[..reach]);
        CopyTo(p, pos, src[..reach], was.Clobber(pos, n).content, size);
        return WriteFault;
      }
      SizeInList(pos, n, Item(pos, quantum, qset), |layout.nodes|, quantum, qset);
      WriteOverwrites(was, pos, src[..n]);
      CopyTo(p, pos, src[..n], was.Write(pos, src[..n]).content, if size < pos + n then pos + n else size);
      r := Written(n);
    }

    // The quantum of a position as the file sees it.
    method Secure(pos: nat) returns (p: Ptr)
      requires Linked()
      modifies `data, `mem, `layout, `denied
      ensures Linked()
      ensures denied == old(denied) + if p == 0 then 1 else 0
      ensures pos / quantum in old(AsFile()).quanta ==> p != 0 && mem == old(mem)
      ensures AsFile() == if p == 0 then old(AsFile()) else Secured(old(AsFile()), pos)
      ensures p != 0 ==>
                && KeyOf(pos, quantum, qset) in layout.quanta && layout.quanta[KeyOf(pos, quantum, qset)] == p
                && Item(pos, quantum, qset) < |layout.nodes|
    {
      SplitIsDivision(pos, quantum, qset);
      AllocatedIff(layout, mem, pos, quantum, qset);
      p := Locate(pos);
      if p != 0 {
        QuotientAdded(old(layout.quanta), KeyOf(pos, quantum, qset), p, qset);
      }
    }

    method Store(pos: nat, src: seq<Byte>, reach: nat) returns (r: WriteResult)
      requires Linked()
      modifies `data, `mem, `layout, `denied, `content, `size
      ensures Linked()
      ensures denied == old(denied) + if r.NoMemory? then 1 else 0
      ensures pos / quantum in old(AsFile()).quanta ==> !r.NoMemory? && mem.Keys == old(mem.Keys)
      ensures r.NoMemory? ==> AsFile() == old(AsFile())
      ensures !r.NoMemory? ==> (r.WriteFault? <==> reach < old(AsFile()).WriteCount(pos, |src|))
      ensures r.WriteFault? ==> AsFile() == old(AsFile()).Clobber(pos, old(AsFile()).WriteCount(pos, |src|))
      ensures r.Written? ==> r.n == old(AsFile()).WriteCount(pos, |src|)
      ensures r.Written? ==> AsFile() == old(AsFile()).Write(pos, src[..r.n])
    {
      var p := Secure(pos);
      if p == 0 {
        return NoMemory;
      }
      r := Accept(p, pos, src, reach, old(AsFile()));
    }

    // `reach` is how many bytes the copy can fetch before it hits an unmapped user page.
    method Write(pos: nat, src: seq<Byte>, reach: nat) returns (r: WriteResult)
      requires Valid() && Usable()
      modifies this
      ensures Valid() && quantum == old(quantum) && qset == old(qset)
      ensures denied == old(denied) + if r.NoMemory? then 1 else 0
      ensures pos / quantum in old(AsFile()).quanta ==> !r.NoMemory? && mem.Keys == old(mem.Keys)
      ensures r.NoMemory? ==> AsFile() == old(AsFile())
      ensures !r.NoMemory? ==> (r.WriteFault? <==> reach < old(AsFile()).WriteCount(pos, |src|))
      ensures r.WriteFault? ==> AsFile() == old(AsFile()).Clobber(pos, old(AsFile()).WriteCount(pos, |src|))
      ensures r.Written? ==> r.n == old(AsFile()).WriteCount(pos, |src|)
      ensures r.Written? ==> AsFile() == old(AsFile()).Write(pos, src[..r.n])
      ensures r.Written? ==> GoesFar(quantum, pos, r.n, |src|)
    {
      ghost var n := AsFile().WriteCount(pos, |src|);
      WriteIsMaximal(AsFile(), pos, |src|);
      r := Store(pos, src, reach);
      match r {
        case NoMemory =>
        case WriteFault => Log(Lost(pos, n));
        case Written(_) => Log(Stored(pos, src[..n]));
      }
    }

    // Frees the quanta of the j-th node and its pointer array.
    method FreeTable(table: Ptr, ghost l: Layout, ghost mem0: Memory, ghost j: nat)
      requires Usable() && l.Ok(mem0, quantum, qset) && j < |l.tables| && table != 0 && table == l.tables[j]
      requires mem == Remaining(l, mem0, j, 0)
      modifies `mem
      ensures mem == Remaining(l, mem0, j, qset) - {table}
    {
      assert l.TableOk(mem0, j, qset);
      for i := 0 to qset
        invariant mem == Remaining(l, mem0, j, i)
      {
        FreeSlot(l, mem0, j, i, quantum, qset);
        Kfree(mem[table].slots[i]);
      }
      Kfree(table);
    }

    // One round of the loop of scull_trim: everything hanging off the j-th node, then the node.
    method FreeNodeAt(dptr: Ptr, ghost l: Layout, ghost mem0: Memory, ghost j: nat) returns (next: Ptr)
      requires Usable() && l.Ok(mem0, quantum, qset) && j < |l.nodes| && dptr == l.nodes[j]
      requires mem == Remaining(l, mem0, j, 0)
      modifies `mem
      ensures mem == Remaining(l, mem0, j + 1, 0) && next == l.Next(j)
    {
      assert l.NodeOk(mem0, j);
      FreeNode(l, mem0, j, l.NodeCell(j, 0), quantum, qset);
      var table := mem[dptr].table;
      if table != 0 {
        FreeTable(table, l, mem0, j);
        assert l.TableOk(mem0, j, qset);
        mem := mem[dptr := mem[dptr].(table := 0)];
        assert mem == (Remaining(l, mem0, j, qset) - {table})[dptr := l.NodeCell(j, 0)];
      }
      next := mem[dptr].next;
      Kfree(dptr);
    }

    // Frees every quantum, every pointer array and every node, each once: Kfree accepts only
    // what is still allocated, and nothing is left.
    method FreeAll()
      requires Sound()
      modifies `mem
      ensures mem == map[]
    {
      ghost var l, mem0 := layout, mem;
      ghost var j := 0;
      var dptr := data;
      if Usable() {
        assert l.nodes != [] ==> l.NodeOk(mem, 0);
        NothingFreed(l, mem0, quantum, qset);
      }
      while dptr != 0
        invariant Usable() ==> l.Ok(mem0, quantum, qset) && mem == Remaining(l, mem0, j, 0)
        invariant j <= |l.nodes| && dptr == if j < |l.nodes| then l.nodes[j] else 0
        invariant !Usable() ==> dptr == 0 && mem == map[]
        decreases |l.nodes| - j
      {
        dptr := FreeNodeAt(dptr, l, mem0, j);
        j := j + 1;
      }
      if Usable() {
        assert j < |l.nodes| ==> l.NodeOk(mem0, j);
        NothingLeft(l, mem0, quantum, qset);
      }
    }

    // The device may have any parameters before and after.
    method Trim(params: ScullParams)
      requires Valid()
      modifies this
      ensures Valid() && mem == map[] && data == 0 && denied == old(denied)
      ensures quantum == params.quantum && qset == params.qset && AsFile() == File.Trimmed(params.quantum)
    {
      FreeAll();
      size, data := 0, 0;
      quantum, qset := params.quantum, params.qset;
      layout, content := Layout([], [], map[], map[]), map[];
      EmptyIsSound();
      Log(TrimmedTo(quantum));
    }
  }

  // ---- A client ----

  // A call of write() with nothing unmapped; 0 if kmalloc fails.
  method WriteSome(d: ScullDev, pos: nat, src: seq<Byte>) returns (n: nat)
    requires d.Valid() && d.Usable() && src != []
    modifies d
    ensures d.Valid() && d.quantum == old(d.quantum) && d.qset == old(d.qset)
    ensures d.denied == old(d.denied) + if n == 0 then 1 else 0
    ensures n == 0 || n == old(d.AsFile()).WriteCount(pos, |src|)
    ensures n > 0 ==> d.AsFile() == old(d.AsFile()).Write(pos, src[..n])
  {
    var r := d.Write(pos, src, |src|);
    n := if r.Written? then r.n else 0;
  }

  // write() again for what the last call did not take. It stops early only if kmalloc fails.
  method WriteLoop(d: ScullDev, pos: nat, src: seq<Byte>) returns (done: nat)
    requires d.Valid() && d.Usable()
    modifies d
    ensures d.Valid() && d.quantum == old(d.quantum) && d.qset == old(d.qset)
    ensures done <= |src| && d.denied == old(d.denied) + if done < |src| then 1 else 0
    ensures done == |src| ==> d.AsFile() == WriteAll(old(d.AsFile()), pos, src)
    decreases |src|
  {
    if src == [] {
      return 0;
    }
    done := WriteSome(d, pos, src);
    if done > 0 {
      var more := WriteLoop(d, pos + done, src[done..]);
      done := done + more;
    }
  }

  // A call of read() with nothing unmapped.
  method ReadSome(d: ScullDev, pos: nat, count: nat, ghost f: File) returns (out: seq<Byte>)
    requires d.Valid() && d.Usable() && d.AsFile() == f
    modifies d
    ensures d.Valid() && d.Usable() && d.AsFile() == f && d.denied == old(d.denied)
    ensures |out| == f.ReadCount(pos, count) && f.Reads(pos, out)
  {
    var r := d.Read(pos, count, false);
    out := r.bytes;
  }

  // read() again until it returns nothing or all is there.
  method ReadLoop(d: ScullDev, pos: nat, count: nat, ghost f: File) returns (out: seq<Byte>)
    requires d.Valid() && d.Usable() && d.AsFile() == f
    modifies d
    ensures d.Valid() && d.AsFile() == f && d.denied == old(d.denied)
    ensures ReadAll(f, pos, count, out)
    decreases count
  {
    out := ReadSome(d, pos, count, f);
    var rest := [];
    if out != [] {
      rest := ReadLoop(d, pos + |out|, count - |out|, f);
    }
    ReadAllStep(f, pos, count, out, rest);
    out := out + rest;
  }

  // What a client stores it reads back, unless memory runs out.
  method StoreAndLoad(d: ScullDev, pos: nat, src: seq<Byte>) returns (out: Option<seq<Byte>>)
    requires d.Valid() && d.Usable()
    modifies d
    ensures d.Valid()
    ensures out == if d.denied > old(d.denied) then None else Some(src)
  {
    RunIsValid(d.start, d.events);
    var done := WriteLoop(d, pos, src);
    if done < |src| {
      return None;
    }
    var back := ReadLoop(d, pos, |src|, d.AsFile());
    RoundTrip(old(d.AsFile()), pos, src, back);
    out := Some(back);
  }
}
