/** `0 if`: an `if` the text never closes. `compile` accepts it, because it
    never looks at the cross-reference stack once the text ends, so the
    branch keeps its zero placeholder as its target. Run, the false
    condition sends the cursor to address 0, into the header, where the
    byte 8 of `CODE_START` reads as a `Call` whose operand is the rest of
    the header and the first opcode: a call of routine 2^56.
    `Compiler.CompileClosed`, which checks that nothing is left open,
    rejects the text instead. */
module Unclosed {
  import opened Bytes
  import opened Results
  import opened Isa
  import Lexer
  import opened Compiler
  import opened Layout
  import opened Runtime
  import opened Safety
  import opened Scenarios

  /** The words of the text. */
  function Tokens(): seq<string> {
    ["0", "if"]
  }

  function Text(): string {
    Lexer.Unwords(Tokens())
  }

  function Ops(): seq<Lexer.Op> {
    [Lexer.Push(0), Lexer.If]
  }

  /** What the compiler lays out: the branch still points at 0. */
  function Code(): seq<Instr> {
    [Instr.Push(0), Instr.If(0)]
  }

  /** The routine number the header and the first opcode spell: the bytes
      0, 0, 0, 0, 0, 0, 0, 1 read little-endian. */
  const STRAY_ID: u64 := 0x0100_0000_0000_0000

  // ---------------------------------------------------------------------------
  // Compiling
  // ---------------------------------------------------------------------------

  lemma TextLexes()
    ensures Lexer.Lex(Text()) == Ok(Ops())
  {
    var ws, ops := Tokens(), Ops();
    KeywordWord("if", Lexer.If);
    LexFrom(ws, ops, 1);
    NumberWord(0);
    assert Lexer.Decimal(0) == "0";
    LexFrom(ws, ops, 0);
    assert ws[0..] == ws && ops[0..] == ops;
  }

  /** The text leaves one construct open. */
  lemma TextLeavesOneOpen()
    ensures Depth(Ops()) == 1
  {
    assert Ops()[1..][1..] == [];
  }

  /** The plan ends with the branch still open and still pointing at 0. */
  lemma TextPlan()
    ensures PlanFrom(Plan([], []), Ops()) == Some(Plan(Code(), [1]))
    ensures Size(Code()) == 18
  {
    var ops := Ops();
    var p0, p1, p2 := Plan([], []), Plan([Instr.Push(0)], []), Plan(Code(), [1]);
    PlanPlain(p0, ops[0]);
    assert PlanStep(p0, ops[0]) == p1;
    PlanIf(p1);
    assert PlanStep(p1, ops[1]) == p2;
    PlanAt(p0, ops, 0, p1);
    PlanAt(p1, ops, 1, p2);
    assert ops[0..] == ops && ops[2..] == [];
  }

  /** `compile` accepts the text. */
  lemma TextCompiles()
    ensures Compile(Text()) == Ok(EncodeU64(CODE_START) + EncodeAll(Code()) + [EXIT])
    ensures Stream(Compile(Text()).value, Code())
  {
    TextLexes();
    TextPlan();
    CompileByPlan(Text(), Ops(), Plan(Code(), [1]));
  }

  /** The checked compiler refuses it: one construct is left open. */
  lemma TextRejected()
    ensures CompileClosed(Text()) == Err(Unclosed(1))
  {
    TextLexes();
    TextLeavesOneOpen();
    TextCompiles();
  }

  // ---------------------------------------------------------------------------
  // Running
  // ---------------------------------------------------------------------------

  /** `code` holds the two instructions, seen one index at a time. */
  predicate Laid(code: seq<Instr>) {
    |code| == 2 && code[0] == Instr.Push(0) && code[1] == Instr.If(0)
  }

  lemma Offsets(code: seq<Instr>)
    requires Laid(code)
    ensures OffsetOf(code, 0) == 0 && OffsetOf(code, 1) == 9 && OffsetOf(code, 2) == 18
  {
    OffsetNext(code, 0);
    OffsetNext(code, 1);
  }

  /** The condition 0 is pushed. */
  lemma ConditionPushed(prog: seq<byte>, code: seq<Instr>, fuel: nat)
    requires Stream(prog, code) && Laid(code) && fuel >= 1
    ensures Execute(prog, Boot(8), fuel) == Execute(prog, Machine(17, [0], [], []), fuel - 1)
  {
    Offsets(code);
    var m0 := Boot(8);
    GoPush(prog, code, m0, 0, 17, fuel, 0);
    assert m0.(pc := 17, stack := m0.stack + [0]) == Machine(17, [0], [], []);
  }

  /** The false condition sends the cursor to the placeholder target 0 with
      an empty stack. */
  lemma BranchTaken(prog: seq<byte>, code: seq<Instr>, fuel: nat)
    requires Stream(prog, code) && Laid(code) && fuel >= 1
    ensures Execute(prog, Machine(17, [0], [], []), fuel) == Execute(prog, Machine(0, [], [], []), fuel - 1)
  {
    Offsets(code);
    var m1 := Machine(17, [0], [], []);
    GoIf(prog, code, m1, 1, 26, fuel, [], 0, 0);
    assert m1.(pc := 0, stack := []) == Machine(0, [], [], []);
  }

  /** The header `CODE_START` is the byte 8 followed by seven zeros. */
  lemma HeaderBytes()
    ensures EncodeU64(CODE_START) == [CALL, 0, 0, 0, 0, 0, 0, 0]
  {
    assert EncodeLE(0, 1) == [0];
    assert EncodeLE(0, 3) == [0] + EncodeLE(0, 2) == [0, 0, 0];
    assert EncodeLE(0, 5) == [0] + [0] + EncodeLE(0, 3) == [0, 0, 0, 0, 0];
    assert EncodeLE(0, 7) == [0] + [0] + EncodeLE(0, 5) == [0, 0, 0, 0, 0, 0, 0];
    assert EncodeLE(8, 8) == [8] + EncodeLE(0, 7);
  }

  /** Seven zeros then a 1, read little-endian, are 2^56. */
  lemma StrayOperand(bs: seq<byte>)
    requires |bs| == 8 && bs[7] == 1
    requires forall k :: 0 <= k < 7 ==> bs[k] == 0
    ensures DecodeU64(bs) == STRAY_ID
  {
    assert DecodeLE(bs[7..]) == 1 by {
      assert bs[7..][1..] == [];
    }
    assert DecodeLE(bs[5..]) == 256 * 256 by {
      assert bs[5..][1..] == bs[6..] && bs[6..][1..] == bs[7..];
    }
    assert DecodeLE(bs[3..]) == 256 * 256 * 256 * 256 by {
      assert bs[3..][1..] == bs[4..] && bs[4..][1..] == bs[5..];
    }
    assert DecodeLE(bs[1..]) == 256 * 256 * 256 * 256 * 256 * 256 by {
      assert bs[1..][1..] == bs[2..] && bs[2..][1..] == bs[3..];
    }
  }

  /** The first nine bytes of the program: the header's 8 and seven zeros,
      then the opcode of `Push`. */
  lemma HeaderOperand(prog: seq<byte>, code: seq<Instr>)
    requires Stream(prog, code) && Laid(code)
    ensures |prog| >= 9 && prog[0] == CALL && DecodeU64(prog[1..9]) == STRAY_ID
  {
    HeaderBytes();
    var header := EncodeU64(CODE_START);
    assert EncodeAll(code)[0] == PUSH by {
      assert EncodeAll(code) == Encode(code[0]) + EncodeAll(code[1..]);
    }
    assert prog[0] == CALL && prog[8] == PUSH;
    var operand := prog[1..9];
    assert forall k :: 0 <= k < 7 ==> operand[k] == header[k + 1];
    StrayOperand(operand);
  }

  /** At address 0 the interpreter reads the header and the first opcode as
      one `Call` instruction. */
  lemma HeaderDecodes(prog: seq<byte>, code: seq<Instr>)
    requires Stream(prog, code) && Laid(code)
    ensures DecodeAt(prog, 0) == Ok(Decoded(Instr.Call(STRAY_ID), 9))
  {
    assert |prog| >= 9 && prog[0] == CALL && DecodeU64(prog[1..9]) == STRAY_ID by {
      HeaderOperand(prog, code);
    }
  }

  /** That call names no routine, so the step at address 0 fails. */
  lemma HeaderStep(prog: seq<byte>, code: seq<Instr>)
    requires Stream(prog, code) && Laid(code)
    ensures Step(prog, Machine(0, [], [], [])) == Err(UnknownBuiltin(STRAY_ID))
  {
    var m := Machine(0, [], [], []);
    assert Exec(m.(pc := 9), Instr.Call(STRAY_ID)) == Err(UnknownBuiltin(STRAY_ID));
    assert DecodeAt(prog, 0) == Ok(Decoded(Instr.Call(STRAY_ID), 9)) by {
      HeaderDecodes(prog, code);
    }
  }

  /** So the run stops there. */
  lemma HeaderCrashes(prog: seq<byte>, code: seq<Instr>, fuel: nat)
    requires Stream(prog, code) && Laid(code) && fuel >= 1
    ensures Execute(prog, Machine(0, [], [], []), fuel)
            == Crashed(UnknownBuiltin(STRAY_ID), Machine(0, [], [], []))
  {
    HeaderStep(prog, code);
    ExecuteStep(prog, Machine(0, [], [], []), fuel);
  }

  /** Any program laid out as `Push 0; If 0` calls routine 2^56 from inside
      the header on its third step. */
  lemma CodeRunsIntoHeader(prog: seq<byte>, code: seq<Instr>)
    requires Stream(prog, code) && Laid(code)
    ensures Run(prog, 3) == Crashed(UnknownBuiltin(STRAY_ID), Machine(0, [], [], []))
  {
    RunStream(prog, code, 3);
    ConditionPushed(prog, code, 3);
    BranchTaken(prog, code, 2);
    HeaderCrashes(prog, code, 1);
  }

  /** What `compile` writes for the text calls routine 2^56 on its third step. */
  lemma ProgramRunsIntoHeader()
    ensures Compile(Text()).Ok?
    ensures Run(Compile(Text()).value, 3) == Crashed(UnknownBuiltin(STRAY_ID), Machine(0, [], [], []))
  {
    var prog := EncodeU64(CODE_START) + EncodeAll(Code()) + [EXIT];
    assert Compile(Text()) == Ok(prog) && Stream(prog, Code()) && Laid(Code()) by {
      TextCompiles();
    }
    CodeRunsIntoHeader(prog, Code());
  }

  /** `0 if` compiles, leaves one `if` open, and three steps into its run
      calls routine 2^56 from inside the header: a fault that depends on no
      value the program computes. */
  lemma TextRunsIntoHeader()
    ensures Depth(Ops()) == 1
    ensures Compile(Text()).Ok?
    ensures Run(Compile(Text()).value, 3) == Crashed(UnknownBuiltin(STRAY_ID), Machine(0, [], [], []))
    ensures !DataFault(UnknownBuiltin(STRAY_ID))
  {
    TextLeavesOneOpen();
    ProgramRunsIntoHeader();
  }
}
