/** `n if 7 putd else 9 putd end`: the compiler sends the `if` just past the
    jump that `else` adds and the jump to the `Exit`, and the interpreter
    prints 7 when `n` is not zero and 9 when it is. */
module Choice {
  import opened Bytes
  import opened Results
  import opened Isa
  import Lexer
  import opened Compiler
  import opened Layout
  import opened Runtime
  import opened Safety
  import opened Stdlib
  import opened Scenarios

  /** The words of the text, for any numeral `n`. */
  function Tokens(n: nat): seq<string> {
    [Lexer.Decimal(n), "if", "7", "putd", "else", "9", "putd", "end"]
  }

  /** The text: its words joined by single spaces. */
  function Text(n: nat): string {
    Lexer.Unwords(Tokens(n))
  }

  /** What the text lexes to. */
  function Ops(n: i64): seq<Lexer.Op> {
    [Lexer.Push(n), Lexer.If, Lexer.Push(7), Lexer.Call("putd"),
     Lexer.Else, Lexer.Push(9), Lexer.Call("putd"), Lexer.End]
  }

  /** What the compiler lays out after the header: the `if` goes to the
      `Push 9` at 53, the jump to the `Exit` at 71. */
  function Code(n: i64): seq<Instr> {
    [Instr.Push(n), Instr.If(53), Instr.Push(7), Instr.Call(PUTD),
     Instr.Jump(71), Instr.Push(9), Instr.Call(PUTD)]
  }

  // ---------------------------------------------------------------------------
  // Lexing
  // ---------------------------------------------------------------------------

  /** `9 putd end` lexes to its three operations. */
  lemma ElseArmLexes(n: nat)
    requires n <= I64_MAX
    ensures Lexer.Lex(Lexer.Unwords(Tokens(n)[5..])) == Ok(Ops(n)[5..])
  {
    var ws, ops := Tokens(n), Ops(n);
    KeywordWord("end", Lexer.End);
    LexFrom(ws, ops, 7);
    PutdWord();
    LexFrom(ws, ops, 6);
    NumberWord(9);
    assert Lexer.Decimal(9) == "9";
    LexFrom(ws, ops, 5);
  }

  /** `7 putd else 9 putd end` lexes to its six operations. */
  lemma ThenArmLexes(n: nat)
    requires n <= I64_MAX
    ensures Lexer.Lex(Lexer.Unwords(Tokens(n)[2..])) == Ok(Ops(n)[2..])
  {
    var ws, ops := Tokens(n), Ops(n);
    ElseArmLexes(n);
    KeywordWord("else", Lexer.Else);
    LexFrom(ws, ops, 4);
    PutdWord();
    LexFrom(ws, ops, 3);
    NumberWord(7);
    assert Lexer.Decimal(7) == "7";
    LexFrom(ws, ops, 2);
  }

  /** The text lexes to the eight operations. */
  lemma TextLexes(n: nat)
    requires n <= I64_MAX
    ensures Lexer.Lex(Text(n)) == Ok(Ops(n))
  {
    var ws, ops := Tokens(n), Ops(n);
    ThenArmLexes(n);
    KeywordWord("if", Lexer.If);
    LexFrom(ws, ops, 1);
    NumberWord(n);
    LexFrom(ws, ops, 0);
    assert ws[0..] == ws && ops[0..] == ops;
  }

  // ---------------------------------------------------------------------------
  // Compiling
  // ---------------------------------------------------------------------------

  /** The plan after the first `k` operations. */
  function Stage(n: i64, k: nat): Plan
    requires k <= 8
  {
    var arm := [Instr.Push(n), Instr.If(53), Instr.Push(7), Instr.Call(PUTD)];
    if k == 0 then Plan([], [])
    else if k == 1 then Plan([Instr.Push(n)], [])
    else if k == 2 then Plan([Instr.Push(n), Instr.If(0)], [1])
    else if k == 3 then Plan([Instr.Push(n), Instr.If(0), Instr.Push(7)], [1])
    else if k == 4 then Plan([Instr.Push(n), Instr.If(0), Instr.Push(7), Instr.Call(PUTD)], [1])
    else if k == 5 then Plan(arm + [Instr.Jump(0)], [4])
    else if k == 6 then Plan(arm + [Instr.Jump(0), Instr.Push(9)], [4])
    else if k == 7 then Plan(arm + [Instr.Jump(0), Instr.Push(9), Instr.Call(PUTD)], [4])
    else Plan(Code(n), [])
  }

  /** The first three operations: `n`, `if` and `7`. */
  lemma ConditionPlan(n: i64)
    ensures PlanFrom(Stage(n, 0), Ops(n)[0..]) == PlanFrom(Stage(n, 3), Ops(n)[3..])
    ensures Size(Stage(n, 3).instrs) == 27
  {
    assert PlanFrom(Stage(n, 0), Ops(n)[0..]) == PlanFrom(Stage(n, 1), Ops(n)[1..])
           && Size(Stage(n, 1).instrs) == 9 by {
      PlanPlain(Stage(n, 0), Ops(n)[0]);
      PlanAt(Stage(n, 0), Ops(n), 0, Stage(n, 1));
    }
    assert PlanFrom(Stage(n, 1), Ops(n)[1..]) == PlanFrom(Stage(n, 2), Ops(n)[2..])
           && Size(Stage(n, 2).instrs) == 18 by {
      PlanIf(Stage(n, 1));
      PlanAt(Stage(n, 1), Ops(n), 1, Stage(n, 2));
    }
    assert PlanFrom(Stage(n, 2), Ops(n)[2..]) == PlanFrom(Stage(n, 3), Ops(n)[3..])
           && Size(Stage(n, 3).instrs) == 27 by {
      PlanPlain(Stage(n, 2), Ops(n)[2]);
      PlanAt(Stage(n, 2), Ops(n), 2, Stage(n, 3));
    }
  }

  lemma Staged3(n: i64)
    ensures PlanFrom(Stage(n, 3), Ops(n)[3..]) == PlanFrom(Stage(n, 4), Ops(n)[4..])
    ensures Size(Stage(n, 4).instrs) == 36
  {
    ConditionPlan(n);
    RoutineNumbersAgree();
    PlanPlain(Stage(n, 3), Ops(n)[3]);
    PlanAt(Stage(n, 3), Ops(n), 3, Stage(n, 4));
  }

  lemma Staged4(n: i64)
    ensures PlanFrom(Stage(n, 4), Ops(n)[4..]) == PlanFrom(Stage(n, 5), Ops(n)[5..])
    ensures Size(Stage(n, 5).instrs) == 45
  {
    Staged3(n);
    PlanElse(Stage(n, 4));
    PlanAt(Stage(n, 4), Ops(n), 4, Stage(n, 5));
  }

  lemma Staged5(n: i64)
    ensures PlanFrom(Stage(n, 5), Ops(n)[5..]) == PlanFrom(Stage(n, 6), Ops(n)[6..])
    ensures Size(Stage(n, 6).instrs) == 54
  {
    Staged4(n);
    PlanPlain(Stage(n, 5), Ops(n)[5]);
    PlanAt(Stage(n, 5), Ops(n), 5, Stage(n, 6));
  }

  lemma Staged6(n: i64)
    ensures PlanFrom(Stage(n, 6), Ops(n)[6..]) == PlanFrom(Stage(n, 7), Ops(n)[7..])
    ensures Size(Stage(n, 7).instrs) == 63
  {
    Staged5(n);
    RoutineNumbersAgree();
    PlanPlain(Stage(n, 6), Ops(n)[6]);
    PlanAt(Stage(n, 6), Ops(n), 6, Stage(n, 7));
  }

  lemma Staged7(n: i64)
    ensures PlanFrom(Stage(n, 7), Ops(n)[7..]) == PlanFrom(Stage(n, 8), Ops(n)[8..])
    ensures Size(Stage(n, 8).instrs) == 63
  {
    Staged6(n);
    PlanEnd(Stage(n, 7));
    PlanAt(Stage(n, 7), Ops(n), 7, Stage(n, 8));
  }

  lemma ThenArmPlan(n: i64)
    ensures PlanFrom(Stage(n, 0), Ops(n)[0..]) == PlanFrom(Stage(n, 4), Ops(n)[4..])
  {
    ConditionPlan(n);
    Staged3(n);
  }

  lemma ElseArmPlan(n: i64)
    ensures PlanFrom(Stage(n, 4), Ops(n)[4..]) == PlanFrom(Stage(n, 8), Ops(n)[8..])
    ensures Size(Code(n)) == 63
  {
    Staged4(n);
    Staged5(n);
    Staged6(n);
    Staged7(n);
  }

  /** The compiler loop over the eight operations ends with the `if` sent to
      the `Push 9` and the jump sent to the end, and nothing left open. */
  lemma TextPlan(n: i64)
    ensures PlanFrom(Plan([], []), Ops(n)) == Some(Plan(Code(n), []))
    ensures Size(Code(n)) == 63
  {
    ThenArmPlan(n);
    ElseArmPlan(n);
    assert Ops(n)[0..] == Ops(n) && Ops(n)[8..] == [];
  }

  /** The text compiles to the header, the seven instructions and `Exit`. */
  lemma TextCompiles(n: nat)
    requires n <= I64_MAX
    ensures Compile(Text(n)) == Ok(EncodeU64(CODE_START) + EncodeAll(Code(n)) + [EXIT])
    ensures Stream(Compile(Text(n)).value, Code(n))
  {
    TextLexes(n);
    TextPlan(n);
    CompileByPlan(Text(n), Ops(n), Plan(Code(n), []));
  }

  // ---------------------------------------------------------------------------
  // Running
  // ---------------------------------------------------------------------------

  /** `code` holds the seven instructions, seen one index at a time. */
  predicate Laid(code: seq<Instr>, n: i64) {
    && |code| == 7
    && code[0] == Instr.Push(n) && code[1] == Instr.If(53) && code[2] == Instr.Push(7)
    && code[3] == Instr.Call(PUTD) && code[4] == Instr.Jump(71) && code[5] == Instr.Push(9)
    && code[6] == Instr.Call(PUTD)
  }

  lemma ThenOffsets(code: seq<Instr>, n: i64)
    requires Laid(code, n)
    ensures OffsetOf(code, 0) == 0 && OffsetOf(code, 1) == 9 && OffsetOf(code, 2) == 18
    ensures OffsetOf(code, 3) == 27 && OffsetOf(code, 4) == 36
  {
    OffsetNext(code, 0);
    OffsetNext(code, 1);
    OffsetNext(code, 2);
    OffsetNext(code, 3);
  }

  lemma ElseOffsets(code: seq<Instr>, n: i64)
    requires Laid(code, n)
    ensures OffsetOf(code, 5) == 45 && OffsetOf(code, 6) == 54 && OffsetOf(code, 7) == 63
  {
    ThenOffsets(code, n);
    OffsetNext(code, 4);
    OffsetNext(code, 5);
    OffsetNext(code, 6);
  }

  /** `n` is pushed first. */
  lemma ConditionRuns(prog: seq<byte>, code: seq<Instr>, n: i64, fuel: nat)
    requires Stream(prog, code) && Laid(code, n) && fuel >= 1
    ensures Run(prog, fuel) == Execute(prog, Machine(17, [n], [], []), fuel - 1)
  {
    RunStream(prog, code, fuel);
    ThenOffsets(code, n);
    var m0 := Boot(8);
    GoPush(prog, code, m0, 0, 17, fuel, n);
    assert m0.(pc := 17, stack := m0.stack + [n]) == Machine(17, [n], [], []);
  }

  /** The `if` pops `n` and goes on to the `then` arm at 26, or jumps to the
      `else` arm at 53 when `n` is zero. */
  lemma BranchRuns(prog: seq<byte>, code: seq<Instr>, n: i64, fuel: nat)
    requires Stream(prog, code) && Laid(code, n) && fuel >= 1
    ensures Execute(prog, Machine(17, [n], [], []), fuel)
            == Execute(prog, Machine(if n == 0 then 53 else 26, [], [], []), fuel - 1)
  {
    ThenOffsets(code, n);
    var m1 := Machine(17, [n], [], []);
    GoIf(prog, code, m1, 1, 26, fuel, [], n, 53);
    assert m1.(pc := if n == 0 then 53 as nat else 26, stack := []) == Machine(if n == 0 then 53 else 26, [], [], []);
  }

  /** The `then` arm prints 7 and jumps over the `else` arm to `Exit`. */
  lemma ThenArmRuns(prog: seq<byte>, code: seq<Instr>, n: i64)
    requires Stream(prog, code) && Laid(code, n)
    ensures Execute(prog, Machine(26, [], [], []), 4) == Halted(Machine(72, [], [], [Printed(7)]))
  {
    ThenOffsets(code, n);
    ElseOffsets(code, n);
    var m2 := Machine(26, [], [], []);
    var m3 := Machine(35, [7], [], []);
    GoPush(prog, code, m2, 2, 35, 4, 7);
    assert m2.(pc := 35, stack := m2.stack + [7]) == m3;
    var m4 := Machine(44, [], [], [Printed(7)]);
    GoPutd(prog, code, m3, 3, 44, 3, [], 7);
    assert m3.(pc := 44, stack := [], out := m3.out + [Printed(7)]) == m4;
    GoJump(prog, code, m4, 4, 53, 2, 71);
    ExecuteAtExit(prog, code, m4.(pc := 71), 1);
  }

  /** The `else` arm prints 9 and runs into `Exit`. */
  lemma ElseArmRuns(prog: seq<byte>, code: seq<Instr>, n: i64)
    requires Stream(prog, code) && Laid(code, n)
    ensures Execute(prog, Machine(53, [], [], []), 3) == Halted(Machine(72, [], [], [Printed(9)]))
  {
    ElseOffsets(code, n);
    var m5 := Machine(53, [], [], []);
    var m6 := Machine(62, [9], [], []);
    GoPush(prog, code, m5, 5, 62, 3, 9);
    assert m5.(pc := 62, stack := m5.stack + [9]) == m6;
    var m7 := Machine(71, [], [], [Printed(9)]);
    GoPutd(prog, code, m6, 6, 71, 2, [], 9);
    assert m6.(pc := 71, stack := [], out := m6.out + [Printed(9)]) == m7;
    ExecuteAtExit(prog, code, m7, 1);
  }

  /** Compiled and run for six steps, the text prints 7 when `n` is not zero
      and 9 when it is, and halts just past `Exit` with an empty stack. */
  lemma TextRuns(n: nat)
    requires n <= I64_MAX
    ensures Compile(Text(n)).Ok?
    ensures Run(Compile(Text(n)).value, 6)
            == Halted(Machine(72, [], [], [Printed(if n == 0 then 9 else 7)]))
  {
    TextCompiles(n);
    var prog := Compile(Text(n)).value;
    var code := Code(n);
    ConditionRuns(prog, code, n, 6);
    BranchRuns(prog, code, n, 5);
    if n == 0 {
      ElseArmRuns(prog, code, n);
      FuelMonotone(prog, Machine(53, [], [], []), 3, 1);
    } else {
      ThenArmRuns(prog, code, n);
    }
  }
}
