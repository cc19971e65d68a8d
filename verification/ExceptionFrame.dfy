// The exception entry and exit code of the aarch64 bare metal vectors: the instruction macros
// that save the interrupted context in a frame on the stack, call the handler and restore it.
module ExceptionFrame {

  const SIZE: int := 288

  // ---- Memory: the value of the 8-byte word at each address; all accesses are aligned ----

  type Mem = map<int, int>

  function Load(m: Mem, a: int): int {
    if a in m then m[a] else 0
  }

  function StoreOne(m: Mem, a: int, v: int): (r: Mem)
    ensures forall b :: Load(r, b) == if b == a then v else Load(m, b)
  {
    m[a := v]
  }

  function Store(m: Mem, a: int, v: int, w: int): (r: Mem)
    ensures forall b :: Load(r, b) == if b == a then v else if b == a + 8 then w else Load(m, b)
  {
    m[a := v][a + 8 := w]
  }

  // Any number of stores, here last ones first.
  function StoreAll(m: Mem, writes: seq<(int, int)>): Mem {
    if writes == [] then m else StoreOne(StoreAll(m, writes[1..]), writes[0].0, writes[0].1)
  }

  type Regs = s: seq<int> | |s| == 31 witness seq(31, _ => 0)

  // `sp` is the stack pointer of the exception level that handles the exception.
  datatype Cpu = Cpu(
    x: Regs,
    sp: int,
    spEl0: int,
    elr: int,
    spsr: int,
    esr: int,
    pc: int,
    pstate: int,
    mem: Mem)

  // ---- The frame, as the C struct lays it out ----

  datatype Field = ExcType | ExcEsr | ExcSp | ExcElr | ExcSpsr | X(i: nat)

  predicate IsField(f: Field) {
    f.X? ==> f.i < 31
  }

  function Offset(f: Field): (o: int)
    ensures IsField(f) ==> 0 <= o < SIZE
  {
    match f
    case ExcType => 0
    case ExcEsr => 8
    case ExcSp => 16
    case ExcElr => 24
    case ExcSpsr => 32
    case X(i) => 40 + 8 * i
  }

  // What the handler finds in a field when an exception interrupts `c`.
  function Value(c: Cpu, kind: int, excSp: int, f: Field): int
    requires IsField(f)
  {
    match f
    case ExcType => kind
    case ExcEsr => c.esr
    case ExcSp => excSp
    case ExcElr => c.elr
    case ExcSpsr => c.spsr
    case X(i) => c.x[i]
  }

  predicate FieldHolds(c: Cpu, kind: int, excSp: int, m: Mem, f: Field) {
    IsField(f) ==> Load(m, c.sp - SIZE + Offset(f)) == Value(c, kind, excSp, f)
  }

  ghost predicate FrameHolds(c: Cpu, kind: int, excSp: int, m: Mem) {
    forall f: Field :: FieldHolds(c, kind, excSp, m, f)
  }

  ghost predicate SameOutside(m: Mem, n: Mem, base: int) {
    forall a | !(base <= a < base + SIZE) :: Load(n, a) == Load(m, a)
  }

  // ---- Saving ----

  // Values pushed in pairs, the last pair first, end up in order from `base` on.
  function Pushed(m: Mem, base: int, vals: seq<int>): Mem
    requires |vals| % 2 == 0
    decreases vals
  {
    if vals == [] then m else Store(Pushed(m, base + 16, vals[2..]), base, vals[0], vals[1])
  }

  lemma {:induction false} PairsSaved(m: Mem, base: int, vals: seq<int>)
    requires |vals| % 2 == 0
    ensures forall i | 0 <= i < |vals| :: Load(Pushed(m, base, vals), base + 8 * i) == vals[i]
    ensures forall a | !(base <= a < base + 8 * |vals|) :: Load(Pushed(m, base, vals), a) == Load(m, a)
    decreases vals
  {
    if vals != [] {
      var rest := Pushed(m, base + 16, vals[2..]);
      PairsSaved(m, base + 16, vals[2..]);
      forall i | 2 <= i < |vals|
        ensures Load(rest, base + 8 * i) == vals[i]
      {
        assert Load(rest, base + 16 + 8 * (i - 2)) == vals[2..][i - 2];
      }
    }
  }

  function Build(c: Cpu, kind: int): Cpu {
    c.(sp := c.sp - SIZE,
       x := c.x[21 := kind][22 := c.esr],
       mem := Head(Pushed(c.mem, c.sp - 240, c.x[1..]), c.sp - SIZE, kind, c.esr, c.elr, c.spsr, c.x[0]))
  }

  function StoreSp(c: Cpu, excSp: int): Cpu {
    c.(x := c.x[21 := excSp], mem := StoreOne(c.mem, c.sp + Offset(ExcSp), excSp))
  }

  // The three pushes after the pairs fill the first six words.
  function Head(m: Mem, base: int, kind: int, esr: int, elr: int, spsr: int, x0: int): Mem {
    Store(Store(Store(m, base + 32, spsr, x0), base + 16, 0, elr), base, kind, esr)
  }

  lemma HeadSaved(m: Mem, base: int, kind: int, esr: int, elr: int, spsr: int, x0: int)
    ensures var h := Head(m, base, kind, esr, elr, spsr, x0);
            && Load(h, base) == kind && Load(h, base + 8) == esr && Load(h, base + 16) == 0
            && Load(h, base + 24) == elr && Load(h, base + 32) == spsr && Load(h, base + 40) == x0
            && forall a | !(base <= a <= base + 40) :: Load(h, a) == Load(m, a)
  {
  }

  lemma FrameBuilt(c: Cpu, kind: int)
    ensures FrameHolds(c, kind, 0, Build(c, kind).mem)
    ensures SameOutside(c.mem, Build(c, kind).mem, c.sp - SIZE)
  {
    var pairs := Pushed(c.mem, c.sp - 240, c.x[1..]);
    PairsSaved(c.mem, c.sp - 240, c.x[1..]);
    HeadSaved(pairs, c.sp - SIZE, kind, c.esr, c.elr, c.spsr, c.x[0]);
    forall f: Field
      ensures FieldHolds(c, kind, 0, Build(c, kind).mem, f)
    {
      if f.X? && 0 < f.i < 31 {
        assert Load(pairs, c.sp - 240 + 8 * (f.i - 1)) == c.x[1..][f.i - 1];
      }
    }
  }

  // ---- Restoring ----

  function Restore(c: Cpu): Cpu {
    c.(x := seq(31, i requires 0 <= i < 31 => Load(c.mem, c.sp + Offset(X(i)))),
       sp := c.sp + SIZE,
       elr := Load(c.mem, c.sp + Offset(ExcElr)),
       spsr := Load(c.mem, c.sp + Offset(ExcSpsr)))
  }

  function ReloadSp(c: Cpu): Cpu {
    var v := Load(c.mem, c.sp + Offset(ExcSp));
    c.(x := c.x[21 := v], spEl0 := v)
  }

  // ---- Exceptions ----

  // What runs in a handler: any change of registers and of other memory, moves of the stack
  // pointer, and further exceptions, with handlers of their own. `nested` tells the two vector
  // functions apart; the other parameters of an exception are what the hardware chooses.
  datatype Action =
    | Scribble(x: Regs, spEl0: int, elr: int, spsr: int, esr: int, pc: int, pstate: int, writes: seq<(int, int)>)
    | MoveSp(delta: int)
    | Exception(nested: bool, kind: int, esr: int, vector: int, mask: int, body: seq<Action>)

  function Enter(c: Cpu, e: Action): Cpu
    requires e.Exception?
  {
    c.(elr := c.pc, spsr := c.pstate, esr := e.esr, pc := e.vector, pstate := e.mask)
  }

  // The stack pointer of the interrupted code.
  function InterruptedSp(c: Cpu, e: Action): int
    requires e.Exception?
  {
    if e.nested then c.sp else c.spEl0
  }

  // The frame is built and the handler called with its address.
  function AtHandler(c: Cpu, e: Action): Cpu
    requires e.Exception?
  {
    var s := StoreSp(Build(Enter(c, e), e.kind), InterruptedSp(c, e));
    s.(x := s.x[0 := s.sp][30 := s.pc])
  }

  function Leave(c: Cpu, nested: bool): Cpu {
    var r := Restore(if nested then c else ReloadSp(c));
    r.(pc := r.elr, pstate := r.spsr)
  }

  function Act(c: Cpu, a: Action): Cpu
    decreases a
  {
    match a
    case Scribble(x, spEl0, elr, spsr, esr, pc, pstate, writes) =>
      Cpu(x, c.sp, spEl0, elr, spsr, esr, pc, pstate, StoreAll(c.mem, writes))
    case MoveSp(delta) => c.(sp := c.sp + delta)
    case Exception(nested, _, _, _, _, body) => Leave(Run(AtHandler(c, a), body), nested)
  }

  function Run(c: Cpu, body: seq<Action>): Cpu
    decreases body
  {
    if body == [] then c else Run(Act(c, body[0]), body[1..])
  }

  // The memory of the frames of all the exceptions being handled, innermost first.
  ghost predicate InFrames(bases: seq<int>, a: int) {
    exists i :: 0 <= i < |bases| && bases[i] <= a < bases[i] + SIZE
  }

  ghost predicate Apart(bases: seq<int>, base: int) {
    forall i | 0 <= i < |bases| :: base + SIZE <= bases[i] || bases[i] + SIZE <= base
  }

  // No handler writes into a frame; a new frame finds room outside the others; and a handler
  // returns with the stack pointer it was called with.
  ghost predicate Behaves(c: Cpu, body: seq<Action>, bases: seq<int>)
    decreases body
  {
    body != [] ==> BehavesOnce(c, body[0], bases) && Behaves(Act(c, body[0]), body[1..], bases)
  }

  ghost predicate BehavesOnce(c: Cpu, a: Action, bases: seq<int>)
    decreases a
  {
    match a
    case Scribble(_, _, _, _, _, _, _, writes) =>
      forall i | 0 <= i < |writes| :: !InFrames(bases, writes[i].0)
    case MoveSp(_) => true
    case Exception(_, _, _, _, _, body) =>
      && Apart(bases, c.sp - SIZE)
      && Behaves(AtHandler(c, a), body, [c.sp - SIZE] + bases)
      && Run(AtHandler(c, a), body).sp == c.sp - SIZE
  }

  ghost predicate Kept(m: Mem, n: Mem, bases: seq<int>) {
    forall a | InFrames(bases, a) :: Load(n, a) == Load(m, a)
  }

  // What the handler is given: a frame of 288 bytes whose words sit at the struct's offsets.
  lemma HandlerSeesFrame(c: Cpu, e: Action)
    requires e.Exception?
    ensures var h := AtHandler(c, e);
            && h.sp == h.x[0] == c.sp - SIZE
            && h.spEl0 == c.spEl0
            && FrameHolds(Enter(c, e), e.kind, InterruptedSp(c, e), h.mem)
            && SameOutside(c.mem, h.mem, c.sp - SIZE)
  {
    var n := Enter(c, e);
    FrameBuilt(n, e.kind);
    forall f: Field
      ensures FieldHolds(n, e.kind, InterruptedSp(c, e), AtHandler(c, e).mem, f)
    {
      assert FieldHolds(n, e.kind, 0, Build(n, e.kind).mem, f);
    }
  }

  // The words themselves, at the offsets of the struct: what the exception was, what it
  // interrupted, and the general registers, of which the handler also finds most as they were.
  lemma HandlerSeesWords(c: Cpu, e: Action)
    requires e.Exception?
    ensures var h := AtHandler(c, e);
            && h.sp == h.x[0] == c.sp - 288
            && Load(h.mem, h.sp) == e.kind && Load(h.mem, h.sp + 8) == e.esr
            && Load(h.mem, h.sp + 16) == (if e.nested then c.sp else c.spEl0)
            && Load(h.mem, h.sp + 24) == c.pc && Load(h.mem, h.sp + 32) == c.pstate
            && (forall i | 0 <= i < 31 :: Load(h.mem, h.sp + 40 + 8 * i) == c.x[i])
            && (forall i | 0 < i < 30 && i != 21 && i != 22 :: h.x[i] == c.x[i])
            && (forall a | !(h.sp <= a < c.sp) :: Load(h.mem, a) == Load(c.mem, a))
  {
    HandlerSeesFrame(c, e);
    var n, h, excSp := Enter(c, e), AtHandler(c, e), InterruptedSp(c, e);
    assert FieldHolds(n, e.kind, excSp, h.mem, ExcType) && FieldHolds(n, e.kind, excSp, h.mem, ExcEsr);
    assert FieldHolds(n, e.kind, excSp, h.mem, ExcSp) && FieldHolds(n, e.kind, excSp, h.mem, ExcElr);
    assert FieldHolds(n, e.kind, excSp, h.mem, ExcSpsr);
    forall i | 0 <= i < 31 ensures Load(h.mem, h.sp + 40 + 8 * i) == c.x[i] {
      assert FieldHolds(n, e.kind, excSp, h.mem, X(i));
    }
  }

  // The interrupted code finds everything as it left it.
  ghost predicate Resumed(c: Cpu, d: Cpu) {
    && d.x == c.x && d.sp == c.sp && d.pc == c.pc && d.pstate == c.pstate
    && d.elr == c.pc && d.spsr == c.pstate
  }

  lemma FrameRestores(c: Cpu, e: Action, done: Cpu)
    requires e.Exception? && done.sp == c.sp - SIZE
    requires FrameHolds(Enter(c, e), e.kind, InterruptedSp(c, e), done.mem)
    ensures Resumed(c, Leave(done, e.nested))
    ensures Leave(done, e.nested).mem == done.mem
    ensures Leave(done, e.nested).spEl0 == if e.nested then done.spEl0 else c.spEl0
    ensures Leave(done, e.nested).esr == done.esr
  {
    var n := Enter(c, e);
    var excSp := InterruptedSp(c, e);
    forall i | 0 <= i < 31
      ensures Load(done.mem, done.sp + Offset(X(i))) == c.x[i]
    {
      assert FieldHolds(n, e.kind, excSp, done.mem, X(i));
    }
    assert FieldHolds(n, e.kind, excSp, done.mem, ExcElr);
    assert FieldHolds(n, e.kind, excSp, done.mem, ExcSpsr);
    assert FieldHolds(n, e.kind, excSp, done.mem, ExcSp);
    assert Leave(done, e.nested).x == c.x;
  }

  // Anything that spares the frame leaves it readable.
  lemma FrameStays(c: Cpu, kind: int, excSp: int, m: Mem, n: Mem, bases: seq<int>)
    requires FrameHolds(c, kind, excSp, m) && Kept(m, n, [c.sp - SIZE] + bases)
    ensures FrameHolds(c, kind, excSp, n)
  {
    var all := [c.sp - SIZE] + bases;
    forall f: Field
      ensures FieldHolds(c, kind, excSp, n, f)
    {
      assert FieldHolds(c, kind, excSp, m, f);
      if IsField(f) {
        assert all[0] <= c.sp - SIZE + Offset(f) < all[0] + SIZE;
        assert InFrames(all, c.sp - SIZE + Offset(f));
      }
    }
  }

  // The frames of the outer exceptions are not touched by building a new one apart from them,
  // nor by what spares all of them.
  lemma OuterFramesStay(m: Mem, built: Mem, done: Mem, base: int, bases: seq<int>)
    requires SameOutside(m, built, base) && Apart(bases, base)
    requires Kept(built, done, [base] + bases)
    ensures Kept(m, done, bases)
  {
    var all := [base] + bases;
    forall a | InFrames(bases, a)
      ensures Load(done, a) == Load(m, a)
    {
      var i :| 0 <= i < |bases| && bases[i] <= a < bases[i] + SIZE;
      assert all[i + 1] == bases[i];
      assert InFrames(all, a);
    }
  }

  lemma {:induction false} WritesKeep(m: Mem, writes: seq<(int, int)>, bases: seq<int>)
    requires forall i | 0 <= i < |writes| :: !InFrames(bases, writes[i].0)
    ensures Kept(m, StoreAll(m, writes), bases)
  {
    if writes != [] {
      WritesKeep(m, writes[1..], bases);
    }
  }

  lemma ExceptionIsTransparent(c: Cpu, e: Action, bases: seq<int>)
    requires e.Exception? && BehavesOnce(c, e, bases)
    ensures Resumed(c, Act(c, e))
    ensures Act(c, e).spEl0 == if e.nested then Run(AtHandler(c, e), e.body).spEl0 else c.spEl0
    ensures Kept(c.mem, Act(c, e).mem, bases)
    decreases e
  {
    var base := c.sp - SIZE;
    var h := AtHandler(c, e);
    HandlerSeesFrame(c, e);
    BodyKeepsFrames(h, e.body, [base] + bases);
    var done := Run(h, e.body);
    FrameStays(Enter(c, e), e.kind, InterruptedSp(c, e), h.mem, done.mem, bases);
    FrameRestores(c, e, done);
    OuterFramesStay(c.mem, h.mem, done.mem, base, bases);
  }

  // However deeply exceptions nest, the frames already on the stack stay as they were built.
  lemma {:induction false} BodyKeepsFrames(c: Cpu, body: seq<Action>, bases: seq<int>)
    requires Behaves(c, body, bases)
    ensures Kept(c.mem, Run(c, body).mem, bases)
    decreases body
  {
    if body != [] {
      match body[0] {
        case Scribble(_, _, _, _, _, _, _, writes) => WritesKeep(c.mem, writes, bases);
        case MoveSp(_) =>
        case Exception(_, _, _, _, _, _) => ExceptionIsTransparent(c, body[0], bases);
      }
      BodyKeepsFrames(Act(c, body[0]), body[1..], bases);
    }
  }

  // Nothing sets SP_EL0, but for what is undone when an exception of the other kind returns.
  ghost predicate SparesSpEl0(c: Cpu, a: Action)
    decreases a
  {
    match a
    case Scribble(_, spEl0, _, _, _, _, _, _) => spEl0 == c.spEl0
    case MoveSp(_) => true
    case Exception(nested, _, _, _, _, body) => nested ==> AllSpareSpEl0(AtHandler(c, a), body)
  }

  ghost predicate AllSpareSpEl0(c: Cpu, body: seq<Action>)
    decreases body
  {
    body != [] ==> SparesSpEl0(c, body[0]) && AllSpareSpEl0(Act(c, body[0]), body[1..])
  }

  // The user's stack pointer survives nested exceptions, which neither save nor restore it.
  lemma SpEl0Survives(c: Cpu, a: Action, bases: seq<int>)
    requires BehavesOnce(c, a, bases) && SparesSpEl0(c, a)
    ensures Act(c, a).spEl0 == c.spEl0
    decreases a
  {
    if a.Exception? {
      ExceptionIsTransparent(c, a, bases);
      if a.nested {
        HandlerSeesFrame(c, a);
        SpEl0SurvivesAll(AtHandler(c, a), a.body, [c.sp - SIZE] + bases);
      }
    }
  }

  lemma {:induction false} SpEl0SurvivesAll(c: Cpu, body: seq<Action>, bases: seq<int>)
    requires Behaves(c, body, bases) && AllSpareSpEl0(c, body)
    ensures Run(c, body).spEl0 == c.spEl0
    decreases body
  {
    if body != [] {
      SpEl0Survives(c, body[0], bases);
      SpEl0SurvivesAll(Act(c, body[0]), body[1..], bases);
    }
  }

  function Depth(e: Action): nat {
    if e.Exception? then 1 + DepthOf(e.body) else 0
  }

  function DepthOf(body: seq<Action>): nat {
    if body == [] then 0
    else var first, rest := Depth(body[0]), DepthOf(body[1..]); if first < rest then rest else first
  }

  // The condition on handlers can be met at every depth: on a stack that grows down, frames
  // always lie apart.
  lemma {:induction false} EveryDepthOccurs(c: Cpu, bases: seq<int>, depth: nat) returns (e: Action)
    requires forall i | 0 <= i < |bases| :: c.sp <= bases[i]
    ensures e.Exception? && Depth(e) == depth + 1 && BehavesOnce(c, e, bases)
    decreases depth
  {
    var bare := Exception(true, 0, 0, 0, 0, []);
    if depth == 0 {
      e := bare;
      HandlerSeesFrame(c, e);
    } else {
      var h := AtHandler(c, bare);
      HandlerSeesFrame(c, bare);
      var inner := EveryDepthOccurs(h, [c.sp - SIZE] + bases, depth - 1);
      ExceptionIsTransparent(h, inner, [c.sp - SIZE] + bases);
      e := bare.(body := [inner]);
      assert AtHandler(c, e) == h;
      assert e.body[1..] == [];
      assert Run(h, e.body) == Act(h, inner);
      assert DepthOf([inner]) == Depth(inner);
    }
  }

  // ---- The macros, instruction by instruction ----

  class Core {
    var x: Regs
    var sp: int
    var spEl0: int
    var elr: int
    var spsr: int
    var esr: int
    var pc: int
    var pstate: int
    var mem: Mem

    function State(): Cpu
      reads this
    {
      Cpu(x, sp, spEl0, elr, spsr, esr, pc, pstate, mem)
    }

    // Register number 31 reads as zero.
    function Reg(i: nat): int
      requires i <= 31
      reads `x
    {
      if i == 31 then 0 else x[i]
    }

    // stp xa, xb, [sp, -16]!
    method Stp(a: nat, b: nat)
      requires a <= 31 && b <= 31
      modifies `sp, `mem
      ensures sp == old(sp) - 16 && mem == Store(old(mem), sp, Reg(a), Reg(b))
    {
      sp := sp - 16;
      mem := mem[sp := Reg(a)][sp + 8 := Reg(b)];
    }

    // ldp xa, xb, [sp], 16
    method Ldp(a: nat, b: nat)
      requires a < 31 && b < 31
      modifies `sp, `x
      ensures sp == old(sp) + 16 && x == old(x)[a := Load(mem, old(sp))][b := Load(mem, old(sp) + 8)]
    {
      x := x[a := Load(mem, sp)][b := Load(mem, sp + 8)];
      sp := sp + 16;
    }

    // stp of xa and the next register, on top of all the later ones.
    method PushPair(a: nat, ghost start: Mem)
      requires a <= 29 && a % 2 == 1 && mem == Pushed(start, sp, x[a + 2..])
      modifies `sp, `mem
      ensures sp == old(sp) - 16 && mem == Pushed(start, sp, x[a..])
    {
      assert x[a..][2..] == x[a + 2..];
      Stp(a, a + 1);
    }

    // x29 and x30 down to x21 and x22.
    method PushHigh(ghost start: Mem)
      requires mem == Pushed(start, sp, x[31..])
      modifies `sp, `mem
      ensures sp == old(sp) - 80 && mem == Pushed(start, sp, x[21..])
    {
      PushPair(29, start);
      PushPair(27, start);
      PushPair(25, start);
      PushPair(23, start);
      PushPair(21, start);
    }

    // x19 and x20 down to x11 and x12.
    method PushMiddle(ghost start: Mem)
      requires mem == Pushed(start, sp, x[21..])
      modifies `sp, `mem
      ensures sp == old(sp) - 80 && mem == Pushed(start, sp, x[11..])
    {
      PushPair(19, start);
      PushPair(17, start);
      PushPair(15, start);
      PushPair(13, start);
      PushPair(11, start);
    }

    // x9 and x10 down to x1 and x2.
    method PushLow(ghost start: Mem)
      requires mem == Pushed(start, sp, x[11..])
      modifies `sp, `mem
      ensures sp == old(sp) - 80 && mem == Pushed(start, sp, x[1..])
    {
      PushPair(9, start);
      PushPair(7, start);
      PushPair(5, start);
      PushPair(3, start);
      PushPair(1, start);
    }

    method BuildTrapframe(kind: int)
      modifies `x, `sp, `mem
      ensures State() == Build(old(State()), kind)
    {
      ghost var start := mem;
      assert x[31..] == [];
      PushHigh(start);
      PushMiddle(start);
      PushLow(start);
      PushHead(kind);
    }

    // mov, mrs and ldr into a register.
    method Set(i: nat, v: int)
      requires i < 31
      modifies `x
      ensures x == old(x)[i := v]
    {
      x := x[i := v];
    }

    // x0 and the exception's own words.
    method PushHead(kind: int)
      modifies `x, `sp, `mem
      ensures x == old(x)[21 := kind][22 := esr] && sp == old(sp) - 48
      ensures mem == Head(old(mem), sp, kind, esr, elr, spsr, old(x)[0])
    {
      Set(21, spsr);
      Stp(21, 0);
      Set(21, elr);
      Stp(31, 21);
      Set(21, kind);
      Set(22, esr);
      Stp(21, 22);
      assert x == old(x)[21 := kind][22 := esr];
    }

    method StoreTrapedSp()
      modifies `x, `mem
      ensures State() == StoreSp(old(State()), spEl0)
    {
      Set(21, spEl0);
      mem := mem[sp + 16 := x[21]];
    }

    method StoreNestedSp()
      modifies `x, `mem
      ensures State() == StoreSp(old(State()), sp + SIZE)
    {
      Set(21, sp);
      Set(21, x[21] + 288);
      mem := mem[sp + 16 := x[21]];
    }

    method RestoreTrapedSp()
      modifies `x, `spEl0
      ensures State() == ReloadSp(old(State()))
    {
      Set(21, Load(mem, sp + 16));
      spEl0 := x[21];
    }

    // The registers before xa have been read back from the frame at `base`.
    ghost predicate Popped(base: int, a: nat)
      requires a <= 31
      reads `x, `sp, `mem
    {
      sp == base + 40 + 8 * a && forall i | 0 <= i < a :: x[i] == Load(mem, base + Offset(X(i)))
    }

    method PopPair(a: nat, ghost base: int)
      requires a <= 29 && Popped(base, a)
      modifies `x, `sp
      ensures Popped(base, a + 2)
    {
      Ldp(a, a + 1);
    }

    method PopLow(ghost base: int)
      requires Popped(base, 1)
      modifies `x, `sp
      ensures Popped(base, 11)
    {
      PopPair(1, base);
      PopPair(3, base);
      PopPair(5, base);
      PopPair(7, base);
      PopPair(9, base);
    }

    method PopMiddle(ghost base: int)
      requires Popped(base, 11)
      modifies `x, `sp
      ensures Popped(base, 21)
    {
      PopPair(11, base);
      PopPair(13, base);
      PopPair(15, base);
      PopPair(17, base);
      PopPair(19, base);
    }

    method PopHigh(ghost base: int)
      requires Popped(base, 21)
      modifies `x, `sp
      ensures Popped(base, 31)
    {
      PopPair(21, base);
      PopPair(23, base);
      PopPair(25, base);
      PopPair(27, base);
      PopPair(29, base);
    }

    // The exception's own words and x0.
    method PopHead()
      modifies `x, `sp, `elr, `spsr
      ensures Popped(old(sp), 1)
      ensures elr == Load(mem, old(sp) + Offset(ExcElr)) && spsr == Load(mem, old(sp) + Offset(ExcSpsr))
    {
      sp := sp + 16;
      Ldp(21, 22);
      elr := x[22];
      Ldp(21, 0);
      spsr := x[21];
    }

    method RestoreTrapframe()
      modifies `x, `sp, `elr, `spsr, `pc, `pstate
      ensures var r := Restore(old(State())); State() == r.(pc := r.elr, pstate := r.spsr)
    {
      ghost var base := sp;
      PopHead();
      PopLow(base);
      PopMiddle(base);
      PopHigh(base);
      assert x == Restore(old(State())).x;
      pc, pstate := elr, spsr;
    }

    // ---- The vector functions ----

    // What the hardware does when the exception is taken.
    method TakeException(e: Action)
      requires e.Exception?
      modifies `elr, `spsr, `esr, `pc, `pstate
      ensures State() == Enter(old(State()), e)
    {
      elr, spsr, esr, pc, pstate := pc, pstate, e.esr, e.vector, e.mask;
    }

    // mov and bl, up to the first instruction of the handler.
    method CallTrapHandler()
      modifies `x
      ensures State() == old(State()).(x := old(x)[0 := sp][30 := pc])
    {
      Set(0, sp);
      Set(30, pc);
    }

    // From the exception to the handler, by either vector function.
    method EnterHandler(e: Action)
      requires e.Exception?
      modifies this
      ensures State() == AtHandler(old(State()), e)
    {
      TakeException(e);
      BuildTrapframe(e.kind);
      if e.nested {
        StoreNestedSp();
      } else {
        StoreTrapedSp();
      }
      CallTrapHandler();
    }

    method LeaveHandler(nested: bool)
      modifies this
      ensures State() == Leave(old(State()), nested)
    {
      if !nested {
        RestoreTrapedSp();
      }
      RestoreTrapframe();
    }

    // An exception from being taken to the eret, whatever the handler does in between.
    method VectorFunction(e: Action)
      requires e.Exception?
      modifies this
      ensures State() == Act(old(State()), e)
      decreases e, 0
    {
      EnterHandler(e);
      Handle(e.body);
      LeaveHandler(e.nested);
    }

    method Perform(a: Action)
      modifies this
      ensures State() == Act(old(State()), a)
      decreases a, 1
    {
      match a
      case Scribble(x', spEl0', elr', spsr', esr', pc', pstate', writes) =>
        x, spEl0, elr, spsr, esr, pc, pstate := x', spEl0', elr', spsr', esr', pc', pstate';
        mem := StoreAll(mem, writes);
      case MoveSp(delta) =>
        sp := sp + delta;
      case Exception(_, _, _, _, _, _) =>
        VectorFunction(a);
    }

    method Handle(body: seq<Action>)
      modifies this
      ensures State() == Run(old(State()), body)
      decreases body
    {
      if body != [] {
        Perform(body[0]);
        Handle(body[1..]);
      }
    }

    // Taking an exception on the core leaves the interrupted code as it was, at any depth.
    method Interrupt(e: Action, ghost bases: seq<int>)
      requires e.Exception? && BehavesOnce(State(), e, bases)
      modifies this
      ensures Resumed(old(State()), State())
      ensures spEl0 == if e.nested then Run(AtHandler(old(State()), e), e.body).spEl0 else old(spEl0)
      ensures SparesSpEl0(old(State()), e) ==> spEl0 == old(spEl0)
      ensures Kept(old(mem), mem, bases)
    {
      ExceptionIsTransparent(State(), e, bases);
      if SparesSpEl0(State(), e) {
        SpEl0Survives(State(), e, bases);
      }
      VectorFunction(e);
    }
  }
}
