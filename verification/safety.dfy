/** What the runtime does with what the compiler writes. The compiler and
    the interpreter of PushScript agree on the layout of a program: the
    header holds the position of the first instruction, and every branch
    target the compiler resolves is the start of an instruction or the final
    `Exit`. So when every `if` of the text is closed, the interpreter only
    ever reads whole instructions, and every `Call` it meets names one of
    its three routines. */
module Safety {
  import opened Bytes
  import opened Results
  import opened Isa
  import Lexer
  import opened Compiler
  import opened Layout
  import opened Runtime

  /** The compiler's table of routines and the interpreter's `Call` arms
      use the same numbers. */
  lemma RoutineNumbersAgree()
    ensures FUNCTION_IDS.Values == {PUTD, ALLOC, WRITE}
    ensures FUNCTION_IDS["putd"] == PUTD && FUNCTION_IDS["alloc"] == ALLOC
            && FUNCTION_IDS["write"] == WRITE
  {
    assert FUNCTION_IDS["putd"] == PUTD;
    assert FUNCTION_IDS["alloc"] == ALLOC;
    assert FUNCTION_IDS["write"] == WRITE;
  }

  /** The cursor is at the start of instruction `k` of the stream, or, when
      `k == |code|`, at the final `Exit`. */
  predicate At(code: seq<Instr>, pc: nat, k: nat) {
    k <= |code| && pc == CODE_START as nat + OffsetOf(code, k)
  }

  /** At the final `Exit` the interpreter stops. */
  lemma StepAtExit(prog: seq<byte>, code: seq<Instr>, m: Machine)
    requires Stream(prog, code) && At(code, m.pc, |code|)
    ensures Step(prog, m) == Ok(Exited(m.(pc := m.pc + 1)))
  {
    OffsetEnd(code);
    ExitDecodes(prog, EncodeU64(CODE_START), code, m.pc);
  }

  /** At instruction `k` the interpreter reads exactly that instruction and
      moves the cursor to the start of the next one before running it. */
  lemma StepAtInstr(prog: seq<byte>, code: seq<Instr>, m: Machine, k: nat)
    requires Stream(prog, code) && k < |code| && At(code, m.pc, k)
    ensures Step(prog, m) == Exec(m.(pc := CODE_START as nat + OffsetOf(code, k + 1)), code[k])
  {
    DecodeStream(EncodeU64(CODE_START), code, [EXIT], k);
  }

  /** The cursor is at some instruction boundary of the stream. */
  predicate Boundary(code: seq<Instr>, pc: nat) {
    exists k :: 0 <= k <= |code| && At(code, pc, k)
  }

  /** The faults a compiled program can still meet: those that depend on the
      values it computes. */
  predicate DataFault(f: Fault) {
    f.StackUnderflow? || f.AddOverflow? || f.BadAlloc? || f.BadRange? || f.BadAddress?
  }

  /** Running instruction `k` of the stream, with the cursor already past it,
      can only fail on data; if it goes on, the cursor is at a boundary. */
  lemma ExecAt(code: seq<Instr>, m: Machine, k: nat)
    requires AllLand(code) && KnownCalls(code) && k < |code|
    requires m.pc == CODE_START as nat + OffsetOf(code, k + 1)
    ensures Exec(m, code[k]).Err? ==> DataFault(Exec(m, code[k]).error)
    ensures Exec(m, code[k]).Ok? && Exec(m, code[k]).value.Continue?
            ==> Boundary(code, Exec(m, code[k]).value.m.pc)
  {
    var i := code[k];
    var r := Exec(m, i);
    assert r.Err? ==> !r.error.UnknownBuiltin? by {
      ExecUnknown(m, i);
      if i.Call? {
        assert i.id in FUNCTION_IDS.Values;
        RoutineNumbersAgree();
      }
    }
    if r.Ok? && r.value.Continue? {
      ExecControl(m, i);
      if IsBranch(i) && r.value.m.pc == i.target {
        assert Lands(code, k);
        var j :| k < j <= |code| && i.target == CODE_START as int + OffsetOf(code, j);
        assert At(code, r.value.m.pc, j);
      } else {
        assert At(code, r.value.m.pc, k + 1);
      }
    }
  }

  /** From an instruction boundary, one step of the interpreter decodes a
      whole instruction and never calls an unknown routine, so it can only
      fail on data; if it goes on, the cursor is at a boundary again. */
  lemma StepAt(prog: seq<byte>, code: seq<Instr>, m: Machine, k: nat)
    requires Stream(prog, code) && AllLand(code) && KnownCalls(code) && At(code, m.pc, k)
    ensures Step(prog, m).Err? ==> DataFault(Step(prog, m).error)
    ensures Step(prog, m).Ok? && Step(prog, m).value.Continue? ==> Boundary(code, Step(prog, m).value.m.pc)
  {
    if k == |code| {
      StepAtExit(prog, code, m);
    } else {
      StepAtInstr(prog, code, m, k);
      ExecAt(code, m.(pc := CODE_START as nat + OffsetOf(code, k + 1)), k);
    }
  }

  /** A run at instruction `k` goes on from where that instruction leaves
      the machine. */
  lemma ExecuteAt(prog: seq<byte>, code: seq<Instr>, m: Machine, k: nat, next: nat, fuel: nat, m': Machine)
    requires Stream(prog, code) && k < |code| && At(code, m.pc, k) && At(code, next, k + 1) && fuel > 0
    requires Exec(m.(pc := next), code[k]) == Ok(Continue(m'))
    ensures Execute(prog, m, fuel) == Execute(prog, m', fuel - 1)
  {
    assert Step(prog, m) == Ok(Continue(m')) by {
      StepAtInstr(prog, code, m, k);
    }
    ExecuteContinue(prog, m, fuel, m');
  }

  /** A run at the final `Exit` halts there. */
  lemma ExecuteAtExit(prog: seq<byte>, code: seq<Instr>, m: Machine, fuel: nat)
    requires Stream(prog, code) && At(code, m.pc, |code|) && fuel > 0
    ensures Execute(prog, m, fuel) == Halted(m.(pc := m.pc + 1))
  {
    StepAtExit(prog, code, m);
    ExecuteStep(prog, m, fuel);
  }

  /** A compiled program starts at its first instruction. */
  lemma RunStream(prog: seq<byte>, code: seq<Instr>, fuel: nat)
    requires Stream(prog, code)
    ensures Run(prog, fuel) == Execute(prog, Boot(CODE_START as nat), fuel)
    ensures At(code, Boot(CODE_START as nat).pc, 0)
  {
    assert prog[..8] == EncodeU64(CODE_START);
    DecodeEncodeU64(CODE_START);
  }

  /** From an instruction boundary, however many steps it is given, the
      interpreter can only fail on data. */
  lemma RunsFromBoundary(prog: seq<byte>, code: seq<Instr>, m: Machine, fuel: nat)
    requires Stream(prog, code) && AllLand(code) && KnownCalls(code) && Boundary(code, m.pc)
    ensures Execute(prog, m, fuel).Crashed? ==> DataFault(Execute(prog, m, fuel).fault)
  {
    var next := (x: Machine) => Step(prog, x);
    var inv := (x: Machine) => Boundary(code, x.pc);
    forall x | inv(x)
      ensures next(x).Err? ==> DataFault(next(x).error)
      ensures next(x).Ok? && next(x).value.Continue? ==> inv(next(x).value.m)
    {
      var k :| At(code, x.pc, k);
      StepAt(prog, code, x, k);
    }
    LoopFaults(next, inv, DataFault, m, fuel);
  }

  /** A compiled program whose text closes every `if` it opens starts at its
      first instruction, and however long it runs it can only stop at `Exit`,
      run out of steps, or fail on the values it computes: it never reads a
      bad instruction and never calls an unknown routine. */
  lemma CompiledProgramsDecode(ops: seq<Lexer.Op>, prog: seq<byte>, fuel: nat)
    requires Assemble(ops) == Ok(prog) && Depth(ops) == 0
    ensures |prog| >= 8 && DecodeU64(prog[..8]) == CODE_START
    ensures var r := Run(prog, fuel);
            r.Crashed? ==> DataFault(r.fault)
  {
    assert Run(prog, fuel) == Execute(prog, Boot(CODE_START as nat), fuel);
    assert exists code :: Stream(prog, code) && AllLand(code) && KnownCalls(code) by {
      BalancedBranchesLand(ops, prog);
    }
    var code :| Stream(prog, code) && AllLand(code) && KnownCalls(code);
    assert At(code, Boot(CODE_START as nat).pc, 0);
    RunsFromBoundary(prog, code, Boot(CODE_START as nat), fuel);
  }

  /** The same for the source text: `compile` succeeding on a text whose
      `if`s are all closed gives a program that only fails on its data. */
  lemma CompiledTextRuns(text: string, prog: seq<byte>, fuel: nat)
    requires Compile(text) == Ok(prog)
    requires Lexer.Lex(text).Ok? && Depth(Lexer.Lex(text).value) == 0
    ensures var r := Run(prog, fuel);
            r.Crashed? ==> DataFault(r.fault)
  {
    CompiledProgramsDecode(Lexer.Lex(text).value, prog, fuel);
  }

  /** With the end-of-text check in place no text needs a side condition:
      whatever `CompileClosed` accepts only ever fails on its data. */
  lemma ClosedTextRuns(text: string, prog: seq<byte>, fuel: nat)
    requires CompileClosed(text) == Ok(prog)
    ensures var r := Run(prog, fuel);
            r.Crashed? ==> DataFault(r.fault)
  {
    CompiledTextRuns(text, prog, fuel);
  }
}
