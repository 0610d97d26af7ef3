/** `2 alloc v over ! 2 over write`: `alloc` hands out a two-byte block at
    address 0, `!` stores the low byte of `v` into its first byte, and
    `write` sends the whole block to the output. */
module HeapBlock {
  import opened Bytes
  import opened Results
  import opened Isa
  import Lexer
  import opened Compiler
  import opened Layout
  import opened Runtime
  import opened Safety
  import opened Stdlib
  import opened Scenarios

  /** The words of the text, for any numeral `v`. */
  function Tokens(v: nat): seq<string> {
    ["2", "alloc", Lexer.Decimal(v), "over", "!", "2", "over", "write"]
  }

  /** The text: its words joined by single spaces. */
  function Text(v: nat): string {
    Lexer.Unwords(Tokens(v))
  }

  /** What the text lexes to. */
  function Ops(v: i64): seq<Lexer.Op> {
    [Lexer.Push(2), Lexer.Call("alloc"), Lexer.Push(v), Lexer.Over,
     Lexer.Poke, Lexer.Push(2), Lexer.Over, Lexer.Call("write")]
  }

  /** What the compiler lays out after the header. */
  function Code(v: i64): seq<Instr> {
    [Instr.Push(2), Instr.Call(ALLOC), Instr.Push(v), Instr.Over,
     Instr.Poke, Instr.Push(2), Instr.Over, Instr.Call(WRITE)]
  }

  // ---------------------------------------------------------------------------
  // Lexing
  // ---------------------------------------------------------------------------

  lemma WriteHalfLexes(v: nat)
    requires v <= I64_MAX
    ensures Lexer.Lex(Lexer.Unwords(Tokens(v)[5..])) == Ok(Ops(v)[5..])
  {
    var ws, ops := Tokens(v), Ops(v);
    WriteWord();
    LexFrom(ws, ops, 7);
    KeywordWord("over", Lexer.Over);
    LexFrom(ws, ops, 6);
    NumberWord(2);
    assert Lexer.Decimal(2) == "2";
    LexFrom(ws, ops, 5);
  }

  lemma StoreHalfLexes(v: nat)
    requires v <= I64_MAX
    ensures Lexer.Lex(Lexer.Unwords(Tokens(v)[2..])) == Ok(Ops(v)[2..])
  {
    var ws, ops := Tokens(v), Ops(v);
    WriteHalfLexes(v);
    KeywordWord("!", Lexer.Poke);
    LexFrom(ws, ops, 4);
    KeywordWord("over", Lexer.Over);
    LexFrom(ws, ops, 3);
    NumberWord(v);
    LexFrom(ws, ops, 2);
  }

  /** The text lexes to the eight operations. */
  lemma TextLexes(v: nat)
    requires v <= I64_MAX
    ensures Lexer.Lex(Text(v)) == Ok(Ops(v))
  {
    var ws, ops := Tokens(v), Ops(v);
    StoreHalfLexes(v);
    AllocWord();
    LexFrom(ws, ops, 1);
    NumberWord(2);
    assert Lexer.Decimal(2) == "2";
    LexFrom(ws, ops, 0);
    assert ws[0..] == ws && ops[0..] == ops;
  }

  // ---------------------------------------------------------------------------
  // Compiling
  // ---------------------------------------------------------------------------

  /** `code` holds the eight instructions, seen one index at a time. */
  predicate Laid(code: seq<Instr>, v: i64) {
    && |code| == 8
    && code[0] == Instr.Push(2) && code[1] == Instr.Call(ALLOC) && code[2] == Instr.Push(v)
    && code[3] == Instr.Over && code[4] == Instr.Poke && code[5] == Instr.Push(2)
    && code[6] == Instr.Over && code[7] == Instr.Call(WRITE)
  }

  lemma StoreOffsets(code: seq<Instr>, v: i64)
    requires Laid(code, v)
    ensures OffsetOf(code, 0) == 0 && OffsetOf(code, 1) == 9 && OffsetOf(code, 2) == 18
    ensures OffsetOf(code, 3) == 27 && OffsetOf(code, 4) == 28 && OffsetOf(code, 5) == 29
  {
    OffsetNext(code, 0);
    OffsetNext(code, 1);
    OffsetNext(code, 2);
    OffsetNext(code, 3);
    OffsetNext(code, 4);
  }

  lemma WriteOffsets(code: seq<Instr>, v: i64)
    requires Laid(code, v)
    ensures OffsetOf(code, 5) == 29 && OffsetOf(code, 6) == 38 && OffsetOf(code, 7) == 39
    ensures OffsetOf(code, 8) == 48 && Size(code) == 48
  {
    StoreOffsets(code, v);
    OffsetNext(code, 5);
    OffsetNext(code, 6);
    OffsetNext(code, 7);
    OffsetEnd(code);
  }

  /** Every operation of the text is plain and compiles to the instruction
      at the same index. */
  lemma AllPlain(v: i64)
    ensures |Ops(v)| == |Code(v)|
    ensures forall j :: 0 <= j < |Ops(v)| ==> PlainPair(Ops(v), Code(v), j)
  {
    var ops, code := Ops(v), Code(v);
    RoutineNumbersAgree();
    forall j | 0 <= j < |ops|
      ensures PlainPair(ops, code, j)
    {
      if j == 1 {
        assert ops[j] == Lexer.Call("alloc") && code[j] == Instr.Call(ALLOC);
      } else if j == 7 {
        assert ops[j] == Lexer.Call("write") && code[j] == Instr.Call(WRITE);
      }
    }
  }

  /** The compiler loop lays out the eight instructions in order, with
      nothing left open. */
  lemma TextPlan(v: i64)
    ensures PlanFrom(Plan([], []), Ops(v)) == Some(Plan(Code(v), []))
    ensures Size(Code(v)) == 48
  {
    var ops, code := Ops(v), Code(v);
    assert Laid(code, v);
    WriteOffsets(code, v);
    AllPlain(v);
    PlainPlan(ops, code, 0);
    assert code[..0] == [] && ops[0..] == ops;
  }

  /** The text compiles to the header, the eight instructions and `Exit`. */
  lemma TextCompiles(v: nat)
    requires v <= I64_MAX
    ensures Compile(Text(v)) == Ok(EncodeU64(CODE_START) + EncodeAll(Code(v)) + [EXIT])
    ensures Stream(Compile(Text(v)).value, Code(v))
  {
    TextLexes(v);
    TextPlan(v);
    CompileByPlan(Text(v), Ops(v), Plan(Code(v), []));
  }

  // ---------------------------------------------------------------------------
  // Running
  // ---------------------------------------------------------------------------

  /** `2`: the size of the block. */
  lemma SizePushed(prog: seq<byte>, code: seq<Instr>, v: i64, fuel: nat)
    requires Stream(prog, code) && Laid(code, v) && fuel >= 1
    ensures Execute(prog, Boot(8), fuel) == Execute(prog, Machine(17, [2], [], []), fuel - 1)
  {
    StoreOffsets(code, v);
    var m0 := Boot(8);
    GoPush(prog, code, m0, 0, 17, fuel, 2);
    assert m0.(pc := 17, stack := m0.stack + [2]) == Machine(17, [2], [], []);
  }

  /** `alloc`: a zeroed two-byte block at address 0. */
  lemma BlockAllocated(prog: seq<byte>, code: seq<Instr>, v: i64, fuel: nat)
    requires Stream(prog, code) && Laid(code, v) && fuel >= 1
    ensures Execute(prog, Machine(17, [2], [], []), fuel)
            == Execute(prog, Machine(26, [0], [0, 0], []), fuel - 1)
  {
    StoreOffsets(code, v);
    var m1 := Machine(17, [2], [], []);
    GoAlloc(prog, code, m1, 1, 26, fuel, [], 2);
    assert m1.heap + Zeros(2) == [0, 0];
    assert m1.(pc := 26, stack := [] + [|m1.heap|], heap := m1.heap + Zeros(2)) == Machine(26, [0], [0, 0], []);
  }

  /** `v`: the value to store. */
  lemma ValuePushed(prog: seq<byte>, code: seq<Instr>, v: i64, fuel: nat)
    requires Stream(prog, code) && Laid(code, v) && fuel >= 1
    ensures Execute(prog, Machine(26, [0], [0, 0], []), fuel)
            == Execute(prog, Machine(35, [0, v], [0, 0], []), fuel - 1)
  {
    StoreOffsets(code, v);
    var m2 := Machine(26, [0], [0, 0], []);
    GoPush(prog, code, m2, 2, 35, fuel, v);
    assert m2.(pc := 35, stack := m2.stack + [v]) == Machine(35, [0, v], [0, 0], []);
  }

  /** `over`: the block's address on top of the value. */
  lemma AddressCopied(prog: seq<byte>, code: seq<Instr>, v: i64, fuel: nat)
    requires Stream(prog, code) && Laid(code, v) && fuel >= 1
    ensures Execute(prog, Machine(35, [0, v], [0, 0], []), fuel)
            == Execute(prog, Machine(36, [0, v, 0], [0, 0], []), fuel - 1)
  {
    StoreOffsets(code, v);
    var m3 := Machine(35, [0, v], [0, 0], []);
    GoOver(prog, code, m3, 3, 36, fuel, 0);
    assert m3.(pc := 36, stack := m3.stack + [0]) == Machine(36, [0, v, 0], [0, 0], []);
  }

  /** `!`: the low byte of `v` goes to address 0. */
  lemma ByteStored(prog: seq<byte>, code: seq<Instr>, v: i64, fuel: nat)
    requires Stream(prog, code) && Laid(code, v) && fuel >= 1
    ensures Execute(prog, Machine(36, [0, v, 0], [0, 0], []), fuel)
            == Execute(prog, Machine(37, [0], [LowByte(v), 0], []), fuel - 1)
  {
    StoreOffsets(code, v);
    var m4 := Machine(36, [0, v, 0], [0, 0], []);
    GoPoke(prog, code, m4, 4, 37, fuel, [0], v, 0);
    assert m4.(pc := 37, stack := [0], heap := m4.heap[0 := LowByte(v)])
           == Machine(37, [0], [LowByte(v), 0], []);
  }

  /** `2`: the number of bytes to write. */
  lemma LengthPushed(prog: seq<byte>, code: seq<Instr>, v: i64, fuel: nat)
    requires Stream(prog, code) && Laid(code, v) && fuel >= 1
    ensures Execute(prog, Machine(37, [0], [LowByte(v), 0], []), fuel)
            == Execute(prog, Machine(46, [0, 2], [LowByte(v), 0], []), fuel - 1)
  {
    WriteOffsets(code, v);
    var m5 := Machine(37, [0], [LowByte(v), 0], []);
    GoPush(prog, code, m5, 5, 46, fuel, 2);
    assert m5.(pc := 46, stack := m5.stack + [2]) == Machine(46, [0, 2], [LowByte(v), 0], []);
  }

  /** `over`: the block's address on top of the length. */
  lemma AddressCopiedAgain(prog: seq<byte>, code: seq<Instr>, v: i64, fuel: nat)
    requires Stream(prog, code) && Laid(code, v) && fuel >= 1
    ensures Execute(prog, Machine(46, [0, 2], [LowByte(v), 0], []), fuel)
            == Execute(prog, Machine(47, [0, 2, 0], [LowByte(v), 0], []), fuel - 1)
  {
    WriteOffsets(code, v);
    var m6 := Machine(46, [0, 2], [LowByte(v), 0], []);
    GoOver(prog, code, m6, 6, 47, fuel, 0);
    assert m6.(pc := 47, stack := m6.stack + [0]) == Machine(47, [0, 2, 0], [LowByte(v), 0], []);
  }

  /** `write` sends the two bytes of the block. */
  lemma BlockWritten(prog: seq<byte>, code: seq<Instr>, v: i64, fuel: nat)
    requires Stream(prog, code) && Laid(code, v) && fuel >= 1
    ensures Execute(prog, Machine(47, [0, 2, 0], [LowByte(v), 0], []), fuel)
            == Execute(prog, Machine(56, [0], [LowByte(v), 0], [Wrote([LowByte(v), 0])]), fuel - 1)
  {
    WriteOffsets(code, v);
    var h := [LowByte(v), 0];
    var m7, m8 := Machine(47, [0, 2, 0], h, []), Machine(56, [0], h, [Wrote(h)]);
    assert m7.(pc := 56, stack := [0], out := m7.out + [Wrote(m7.heap[0..2])]) == m8 by {
      assert m7.heap[0..2] == h;
    }
    assert Execute(prog, m7, fuel) == Execute(prog, m8, fuel - 1) by {
      GoWrite(prog, code, m7, 7, 56, fuel, [0], 2, 0);
    }
  }

  /** The program then halts just past `Exit`. */
  lemma BlockProgramHalts(prog: seq<byte>, code: seq<Instr>, v: i64)
    requires Stream(prog, code) && Laid(code, v)
    ensures Execute(prog, Machine(56, [0], [LowByte(v), 0], [Wrote([LowByte(v), 0])]), 1)
            == Halted(Machine(57, [0], [LowByte(v), 0], [Wrote([LowByte(v), 0])]))
  {
    WriteOffsets(code, v);
    ExecuteAtExit(prog, code, Machine(56, [0], [LowByte(v), 0], [Wrote([LowByte(v), 0])]), 1);
  }

  /** Compiled and run for nine steps, the text writes the two-byte block
      holding the low byte of `v` and a zero, and halts just past `Exit`
      with the block's address on the stack. */
  lemma TextRuns(v: nat)
    requires v <= I64_MAX
    ensures Compile(Text(v)).Ok?
    ensures Run(Compile(Text(v)).value, 9)
            == Halted(Machine(57, [0], [LowByte(v), 0], [Wrote([LowByte(v), 0])]))
  {
    TextCompiles(v);
    var prog := Compile(Text(v)).value;
    var code := Code(v);
    assert Laid(code, v);
    RunStream(prog, code, 9);
    SizePushed(prog, code, v, 9);
    BlockAllocated(prog, code, v, 8);
    ValuePushed(prog, code, v, 7);
    AddressCopied(prog, code, v, 6);
    ByteStored(prog, code, v, 5);
    LengthPushed(prog, code, v, 4);
    AddressCopiedAgain(prog, code, v, 3);
    BlockWritten(prog, code, v, 2);
    BlockProgramHalts(prog, code, v);
  }
}
