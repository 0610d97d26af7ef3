/** The interpreter `run` of src/runtime/mod.rs: a stack of `i64`, a byte heap
    that only `alloc` grows, and a cursor over the program. The program starts
    with an eight-byte little-endian position where execution begins; each
    loop iteration reads one instruction at the cursor and carries it out.
    Every `unwrap()` on a missing value, every out-of-range index and every
    `todo!()` arm of the original is a panic; here it is a `Fault` that ends
    the run, keeping what was printed before it. The loop has no bound in the
    original, so the model runs for a given number of steps. */
module Runtime {
  import opened Bytes
  import opened Results
  import opened Isa
  import opened Stdlib

  /** The built-in routines, by the operand of `Call`. */
  const PUTD: u64 := 0
  const ALLOC: u64 := 1
  const WRITE: u64 := 2

  /** Everything `run` keeps: the cursor position, the value stack, the heap
      and what has been printed so far. */
  datatype Machine = Machine(pc: nat, stack: seq<i64>, heap: seq<byte>, out: seq<Event>)

  /** The heap is a `Vec<u8>`, so it never holds more than `isize::MAX` bytes. */
  predicate Sane(m: Machine) {
    |m.heap| <= MAX_VEC_LEN
  }

  /** Why a run stops with a panic. */
  datatype Fault =
    | MissingHeader                        // fewer than eight bytes to read the start position from
    | BadInstr(error: DecodeError)         // reading past the end, or an opcode with no arm
    | StackUnderflow                       // a `pop().unwrap()` or `stack[len - k]` on too short a stack
    | AddOverflow                          // `a + b` outside `i64`
    | UnknownBuiltin(id: u64)              // a `Call` operand with no arm
    | BadAlloc(size: i64)                  // `alloc` of a negative or too large size
    | BadRange(address: i64, size: i64)    // `write` of a slice outside the heap
    | BadAddress(address: i64)             // `!` outside the heap

  /** What one instruction leaves: a machine that goes on, or the final one. */
  datatype Effect = Continue(m: Machine) | Exited(m: Machine)

  /** The `k`-th value from the top of the stack. */
  function Peek(stack: seq<i64>, k: nat): i64
    requires k < |stack|
  {
    stack[|stack| - 1 - k]
  }

  /** The stack without its top `n` values. */
  function Drop(stack: seq<i64>, n: nat): seq<i64>
    requires n <= |stack|
  {
    stack[..|stack| - n]
  }

  predicate InI64(x: int) {
    -0x8000_0000_0000_0000 <= x < 0x8000_0000_0000_0000
  }

  /** `value as u8`: the low eight bits of the two's-complement value. */
  function LowByte(v: i64): (b: byte)
    ensures b == I64Bits(v) % 0x100
  {
    v % 0x100
  }

  /** One arm of the loop's `match`, after the instruction and its operand
      have been read and `m.pc` already points past them. */
  function Exec(m: Machine, i: Instr): (r: Result<Effect, Fault>)
    ensures r.Ok? && Sane(m) ==> Sane(r.value.m)
    ensures r.Ok? ==> m.out <= r.value.m.out && |r.value.m.out| <= |m.out| + 1
    ensures r.Ok? ==> (|m.heap| <= |r.value.m.heap| && r.value.m.heap[..|m.heap|] == m.heap)
                      || (i.Poke? && |r.value.m.heap| == |m.heap|)
    ensures r.Err? ==> !r.error.MissingHeader? && !r.error.BadInstr?
  {
    var s := m.stack;
    match i
    case Push(v) => Ok(Continue(m.(stack := s + [v])))
    case Dup =>
      if |s| < 1 then Err(StackUnderflow)
      else Ok(Continue(m.(stack := s + [Peek(s, 0)])))
    case Over =>
      if |s| < 2 then Err(StackUnderflow)
      else Ok(Continue(m.(stack := s + [Peek(s, 1)])))
    case Add =>
      if |s| < 2 then Err(StackUnderflow)
      else if !InI64(Peek(s, 0) + Peek(s, 1)) then Err(AddOverflow)
      else Ok(Continue(m.(stack := Drop(s, 2) + [Peek(s, 0) + Peek(s, 1)])))
    case Equal =>
      if |s| < 2 then Err(StackUnderflow)
      else Ok(Continue(m.(stack := Drop(s, 2) + [if Peek(s, 0) == Peek(s, 1) then 1 else 0])))
    case If(t) =>
      if |s| < 1 then Err(StackUnderflow)
      else if Peek(s, 0) == 0 then Ok(Continue(m.(pc := t, stack := Drop(s, 1))))
      else Ok(Continue(m.(stack := Drop(s, 1))))
    case Jump(t) => Ok(Continue(m.(pc := t)))
    case Call(id) =>
      if id == PUTD then
        if |s| < 1 then Err(StackUnderflow)
        else Ok(Continue(m.(stack := Drop(s, 1), out := m.out + [Printed(Peek(s, 0))])))
      else if id == ALLOC then
        if |s| < 1 then Err(StackUnderflow)
        else if Peek(s, 0) < 0 then Err(BadAlloc(Peek(s, 0)))
        else
          match Alloc(m.heap, Peek(s, 0))
          case Err(_) => Err(BadAlloc(Peek(s, 0)))
          case Ok(g) => Ok(Continue(m.(stack := Drop(s, 1) + [g.address], heap := g.heap)))
      else if id == WRITE then
        if |s| < 2 then Err(StackUnderflow)
        else
          var address, size := Peek(s, 0), Peek(s, 1);
          if address < 0 || size < 0 || address + size > |m.heap| then Err(BadRange(address, size))
          else Ok(Continue(m.(stack := Drop(s, 2), out := m.out + [Wrote(m.heap[address..address + size])])))
      else Err(UnknownBuiltin(id))
    case Poke =>
      if |s| < 2 then Err(StackUnderflow)
      else
        var address, value := Peek(s, 0), Peek(s, 1);
        if address < 0 || address >= |m.heap| then Err(BadAddress(address))
        else Ok(Continue(m.(stack := Drop(s, 2), heap := m.heap[address := LowByte(value)])))
    case Exit => Ok(Exited(m))
  }

  /** One loop iteration: read the instruction at the cursor, then run it. */
  function Step(prog: seq<byte>, m: Machine): (r: Result<Effect, Fault>)
    ensures r.Ok? && Sane(m) ==> Sane(r.value.m)
    ensures r.Ok? ==> m.out <= r.value.m.out
    ensures DecodeAt(prog, m.pc).Err? <==> r.Err? && r.error.BadInstr?
    ensures r.Err? ==> !r.error.MissingHeader?
    ensures r.Ok? && r.value.Exited? ==> 0 < r.value.m.pc <= |prog| && prog[r.value.m.pc - 1] == EXIT
  {
    match DecodeAt(prog, m.pc)
    case Err(e) => Err(BadInstr(e))
    case Ok(d) => Exec(m.(pc := d.next), d.instr)
  }

  /** How a bounded run ends: at `Exit`, with a panic (the machine as it was
      before the failing instruction), or with steps left to take. */
  datatype Outcome =
    | Halted(m: Machine)
    | Crashed(fault: Fault, m: Machine)
    | Unfinished(m: Machine)

  /** At most `fuel` iterations of a loop whose body is `next`. */
  function Loop(next: Machine -> Result<Effect, Fault>, m: Machine, fuel: nat): (r: Outcome)
    ensures r.Crashed? ==> next(r.m) == Err(r.fault)
    ensures r.Unfinished? ==> fuel == 0 || next(m).Ok?
    decreases fuel
  {
    if fuel == 0 then Unfinished(m)
    else
      match next(m)
      case Err(f) => Crashed(f, m)
      case Ok(Exited(m')) => Halted(m')
      case Ok(Continue(m')) => Loop(next, m', fuel - 1)
  }

  /** If every iteration that ends the loop leaves a machine satisfying
      `done`, a loop that halts halts in such a machine. */
  lemma {:induction false} LoopHalts(next: Machine -> Result<Effect, Fault>, done: Machine -> bool, m: Machine, fuel: nat)
    requires forall x :: next(x).Ok? && next(x).value.Exited? ==> done(next(x).value.m)
    ensures Loop(next, m, fuel).Halted? ==> done(Loop(next, m, fuel).m)
    decreases fuel
  {
    if fuel > 0 {
      match next(m)
      case Err(_) =>
      case Ok(Exited(_)) =>
      case Ok(Continue(m')) => LoopHalts(next, done, m', fuel - 1);
    }
  }

  /** At most `fuel` iterations of the interpreter loop over `prog`. */
  function Execute(prog: seq<byte>, m: Machine, fuel: nat): (r: Outcome)
    ensures r.Crashed? ==> Step(prog, r.m) == Err(r.fault)
    ensures r.Halted? ==> 0 < r.m.pc <= |prog| && prog[r.m.pc - 1] == EXIT
  {
    LoopHalts(m' => Step(prog, m'), (x: Machine) => 0 < x.pc <= |prog| && prog[x.pc - 1] == EXIT, m, fuel);
    Loop(m' => Step(prog, m'), m, fuel)
  }

  /** The machine `run` starts with: empty stack and heap, nothing printed,
      the cursor at `pc`. */
  function Boot(pc: nat): (m: Machine)
    ensures Sane(m)
  {
    Machine(pc, [], [], [])
  }

  /** `run`: read the start position from the first eight bytes, then loop. */
  function Run(prog: seq<byte>, fuel: nat): (r: Outcome)
    ensures r.Crashed? && r.fault.MissingHeader? <==> |prog| < 8
    ensures |prog| < 8 ==> r == Crashed(MissingHeader, Boot(0))
    ensures r.Crashed? && |prog| >= 8 ==> Step(prog, r.m) == Err(r.fault)
    ensures r.Halted? ==> 0 < r.m.pc <= |prog| && prog[r.m.pc - 1] == EXIT
  {
    if |prog| < 8 then Crashed(MissingHeader, Boot(0))
    else Execute(prog, Boot(DecodeU64(prog[..8])), fuel)
  }

  // ---------------------------------------------------------------------------
  // One instruction
  // ---------------------------------------------------------------------------

  /** How many values an instruction takes off the stack (or reads below the
      top, for `dup` and `over`). A call to an unknown routine takes none: it
      fails before popping. */
  function Needs(i: Instr): nat {
    match i
    case Dup => 1
    case Over => 2
    case Add => 2
    case Equal => 2
    case If(_) => 1
    case Call(id) => if id == PUTD || id == ALLOC then 1 else if id == WRITE then 2 else 0
    case Poke => 2
    case _ => 0
  }

  /** How an instruction changes the height of the stack when it succeeds. */
  function Delta(i: Instr): int {
    match i
    case Push(_) => 1
    case Dup => 1
    case Over => 1
    case Add => -1
    case Equal => -1
    case If(_) => -1
    case Call(id) => if id == PUTD then -1 else if id == WRITE then -2 else 0
    case Poke => -2
    case _ => 0
  }

  /** An instruction underflows exactly when the stack holds fewer values than
      it takes; when it succeeds the height changes by `Delta`, and the values
      below those it takes are left alone. */
  lemma ExecStack(m: Machine, i: Instr)
    ensures Exec(m, i) == Err(StackUnderflow) <==> |m.stack| < Needs(i)
    ensures Exec(m, i).Ok? ==> |Exec(m, i).value.m.stack| == |m.stack| + Delta(i)
    ensures Exec(m, i).Ok? ==> Drop(m.stack, Needs(i)) <= Exec(m, i).value.m.stack
    ensures i.Push? ==> Exec(m, i) == Ok(Continue(m.(stack := m.stack + [i.value])))
    ensures i.Dup? && |m.stack| >= 1 ==> Exec(m, i) == Ok(Continue(m.(stack := m.stack + [Peek(m.stack, 0)])))
    ensures i.Over? && |m.stack| >= 2 ==> Exec(m, i) == Ok(Continue(m.(stack := m.stack + [Peek(m.stack, 1)])))
  {
  }

  /** `exit` is the only instruction that ends the run; every other one goes on
      at the next instruction, except a taken branch, which goes on at its
      target. `if` is taken when the value it pops is zero. */
  lemma ExecControl(m: Machine, i: Instr)
    requires Exec(m, i).Ok?
    ensures Exec(m, i).value.Exited? <==> i.Exit?
    ensures Exec(m, i).value.Exited? ==> Exec(m, i).value.m == m
    ensures i.Jump? ==> Exec(m, i).value.m.pc == i.target
    ensures i.If? ==> Exec(m, i).value.m.pc == (if Peek(m.stack, 0) == 0 then i.target else m.pc)
    ensures !i.Jump? && !i.If? ==> Exec(m, i).value.m.pc == m.pc
  {
  }

  /** Only `alloc` and `!` touch the heap. `alloc` appends `size` zero bytes
      and pushes the old length as the address of the block; `!` replaces the
      one byte at its address with the low byte of the value and keeps the
      rest. */
  lemma ExecHeap(m: Machine, i: Instr)
    requires Exec(m, i).Ok?
    ensures i != Call(ALLOC) && !i.Poke? ==> Exec(m, i).value.m.heap == m.heap
    ensures i == Call(ALLOC) ==>
              var size, m' := Peek(m.stack, 0), Exec(m, i).value.m;
              && |m'.heap| == |m.heap| + size
              && m'.heap[..|m.heap|] == m.heap
              && (forall k :: |m.heap| <= k < |m'.heap| ==> m'.heap[k] == 0)
              && Peek(m'.stack, 0) == |m.heap|
    ensures i.Poke? ==>
              var address, value, m' := Peek(m.stack, 0), Peek(m.stack, 1), Exec(m, i).value.m;
              && 0 <= address < |m.heap| == |m'.heap|
              && m'.heap[address] == LowByte(value)
              && (forall k :: 0 <= k < |m.heap| && k != address ==> m'.heap[k] == m.heap[k])
  {
  }

  /** With enough values on the stack, `alloc`, `!` and `write` fail exactly
      on out-of-range operands: `alloc` on a negative size or one that would
      take the heap past `isize::MAX` bytes, `!` on an address outside the
      heap, `write` on a slice that does not lie in the heap. */
  lemma ExecDataFaults(m: Machine, i: Instr)
    ensures i == Call(ALLOC) && |m.stack| >= 1 ==>
              var size := Peek(m.stack, 0);
              && (Exec(m, i).Ok? <==> 0 <= size && |m.heap| + size <= MAX_VEC_LEN)
              && (Exec(m, i).Err? ==> Exec(m, i).error == BadAlloc(size))
    ensures i.Poke? && |m.stack| >= 2 ==>
              var address := Peek(m.stack, 0);
              && (Exec(m, i).Ok? <==> 0 <= address < |m.heap|)
              && (Exec(m, i).Err? ==> Exec(m, i).error == BadAddress(address))
    ensures i == Call(WRITE) && |m.stack| >= 2 ==>
              var address, size := Peek(m.stack, 0), Peek(m.stack, 1);
              && (Exec(m, i).Ok? <==> 0 <= address && 0 <= size && address + size <= |m.heap|)
              && (Exec(m, i).Err? ==> Exec(m, i).error == BadRange(address, size))
  {
  }

  /** Only `putd` and `write` print. `putd` prints the value it pops; `write`
      prints the `size` heap bytes from `address`, the two values it pops. */
  lemma ExecOutput(m: Machine, i: Instr)
    requires Exec(m, i).Ok?
    ensures i != Call(PUTD) && i != Call(WRITE) ==> Exec(m, i).value.m.out == m.out
    ensures i == Call(PUTD) ==> Exec(m, i).value.m.out == m.out + [Printed(Peek(m.stack, 0))]
    ensures i == Call(WRITE) ==>
              var address, size := Peek(m.stack, 0), Peek(m.stack, 1);
              && 0 <= address && 0 <= size && address + size <= |m.heap|
              && Exec(m, i).value.m.out == m.out + [Wrote(m.heap[address..address + size])]
  {
  }

  /** A call fails as unknown exactly when its operand is none of the three
      routines, whatever the stack holds. */
  lemma ExecUnknown(m: Machine, i: Instr)
    ensures Exec(m, i).Err? && Exec(m, i).error.UnknownBuiltin?
            <==> i.Call? && i.id != PUTD && i.id != ALLOC && i.id != WRITE
  {
  }

  /** `+` pops two values and pushes their sum, and fails exactly when the sum
      leaves `i64`; `=` pushes one when the two values are equal and zero
      otherwise. */
  lemma ExecArithmetic(m: Machine, i: Instr)
    requires |m.stack| >= 2 && (i.Add? || i.Equal?)
    ensures var a, b := Peek(m.stack, 0), Peek(m.stack, 1);
            && (i.Add? ==> (Exec(m, i).Ok? <==> InI64(a + b)))
            && (i.Add? && Exec(m, i).Ok? ==> Peek(Exec(m, i).value.m.stack, 0) == a + b)
            && (i.Equal? ==> Exec(m, i).Ok? && Peek(Exec(m, i).value.m.stack, 0) == (if a == b then 1 else 0))
  {
  }

  // ---------------------------------------------------------------------------
  // The loop
  // ---------------------------------------------------------------------------

  /** A loop that has ended stays ended, with the same result, however many
      more iterations it is allowed. */
  lemma {:induction false} LoopMonotone(next: Machine -> Result<Effect, Fault>, m: Machine, fuel: nat, more: nat)
    requires !Loop(next, m, fuel).Unfinished?
    ensures Loop(next, m, fuel + more) == Loop(next, m, fuel)
    decreases fuel
  {
    match next(m)
    case Err(_) =>
    case Ok(Exited(_)) =>
    case Ok(Continue(m')) => LoopMonotone(next, m', fuel - 1, more);
  }

  /** Running `a + b` iterations is running `a` and then, if the loop has not
      ended, `b` more from where it stopped. */
  lemma {:induction false} LoopSplit(next: Machine -> Result<Effect, Fault>, m: Machine, a: nat, b: nat)
    ensures var first := Loop(next, m, a);
            Loop(next, m, a + b) == if first.Unfinished? then Loop(next, first.m, b) else first
    decreases a
  {
    if a > 0 {
      match next(m)
      case Err(_) =>
      case Ok(Exited(_)) =>
      case Ok(Continue(m')) =>
        assert Loop(next, m, a + b) == Loop(next, m', (a - 1) + b);
        LoopSplit(next, m', a - 1, b);
    }
  }

  /** A loop whose body keeps `inv` and only appends to the output keeps `inv`
      too and only appends to the output. */
  lemma {:induction false} LoopKeeps(next: Machine -> Result<Effect, Fault>, m: Machine, fuel: nat)
    requires forall x :: next(x).Ok? && Sane(x) ==> Sane(next(x).value.m)
    requires forall x :: next(x).Ok? ==> x.out <= next(x).value.m.out
    ensures Sane(m) ==> Sane(Loop(next, m, fuel).m)
    ensures m.out <= Loop(next, m, fuel).m.out
    decreases fuel
  {
    if fuel > 0 {
      match next(m)
      case Err(_) =>
      case Ok(Exited(_)) =>
      case Ok(Continue(m')) => LoopKeeps(next, m', fuel - 1);
    }
  }

  /** If every iteration from a state satisfying `inv` either fails with a
      fault satisfying `allowed` or goes on in a state satisfying `inv`, then
      a loop started in `inv` can only crash with an allowed fault. */
  lemma {:induction false} LoopFaults(next: Machine -> Result<Effect, Fault>, inv: Machine -> bool,
                                      allowed: Fault -> bool, m: Machine, fuel: nat)
    requires inv(m)
    requires forall x :: inv(x) && next(x).Err? ==> allowed(next(x).error)
    requires forall x :: inv(x) && next(x).Ok? && next(x).value.Continue? ==> inv(next(x).value.m)
    ensures Loop(next, m, fuel).Crashed? ==> allowed(Loop(next, m, fuel).fault)
    decreases fuel
  {
    if fuel > 0 {
      match next(m)
      case Err(_) =>
      case Ok(Exited(_)) =>
      case Ok(Continue(m')) => LoopFaults(next, inv, allowed, m', fuel - 1);
    }
  }

  /** The interpreter never lets the heap outgrow a `Vec`, and what it has
      printed is never taken back. */
  lemma ExecuteKeeps(prog: seq<byte>, m: Machine, fuel: nat)
    ensures Sane(m) ==> Sane(Execute(prog, m, fuel).m)
    ensures m.out <= Execute(prog, m, fuel).m.out
  {
    LoopKeeps(m' => Step(prog, m'), m, fuel);
  }

  /** A run that has ended stays ended however many more steps it is allowed. */
  lemma FuelMonotone(prog: seq<byte>, m: Machine, fuel: nat, more: nat)
    requires !Execute(prog, m, fuel).Unfinished?
    ensures Execute(prog, m, fuel + more) == Execute(prog, m, fuel)
  {
    LoopMonotone(m' => Step(prog, m'), m, fuel, more);
  }

  /** Running `a + b` steps is running `a`, then `b` more if not yet ended. */
  lemma ExecuteSplit(prog: seq<byte>, m: Machine, a: nat, b: nat)
    ensures var first := Execute(prog, m, a);
            Execute(prog, m, a + b) == if first.Unfinished? then Execute(prog, first.m, b) else first
  {
    LoopSplit(m' => Step(prog, m'), m, a, b);
  }

  /** One more step of the interpreter: the loop reads and runs the
      instruction at the cursor. */
  lemma ExecuteStep(prog: seq<byte>, m: Machine, fuel: nat)
    requires fuel > 0
    ensures Execute(prog, m, fuel)
            == match Step(prog, m)
               case Err(f) => Crashed(f, m)
               case Ok(Exited(m')) => Halted(m')
               case Ok(Continue(m')) => Execute(prog, m', fuel - 1)
  {
  }

  /** A step that goes on leaves one step fewer to run from where it leads. */
  lemma ExecuteContinue(prog: seq<byte>, m: Machine, fuel: nat, m': Machine)
    requires fuel > 0 && Step(prog, m) == Ok(Continue(m'))
    ensures Execute(prog, m, fuel) == Execute(prog, m', fuel - 1)
  {
    ExecuteStep(prog, m, fuel);
  }
}
