/** The one-pass compiler `compile` of src/compiler.rs: an eight-byte header,
    one fixed-format instruction per operation, and a trailing `Exit`. The
    targets of `if` and `else` are resolved with a LIFO cross-reference stack
    whose entries record the offset of an eight-byte operand to patch later. */
module Compiler {
  import opened Bytes
  import opened Results
  import opened Isa
  import Lexer

  type Op = Lexer.Op

  datatype CompileError =
    | LexFailed(cause: Lexer.LexError)
    /** `cross_ref_stack.pop().unwrap()` on an empty stack. */
    | XRefUnderflow
    /** An `else` whose open construct is not an `if`. */
    | ElseWithoutIf
    /** An `end` whose open construct is neither an `if` nor an `else`. */
    | EndWithoutOpener
    /** `functions.get(name).unwrap()` on a name missing from the table. */
    | UnknownFunction(name: string)
    /** The output buffer would exceed `isize::MAX` bytes. */
    | CapacityOverflow
    /** The text ends with `open` constructs still open; only the checked
        compiler `CompileClosed` reports this. */
    | Unclosed(open: nat)

  /** The compiler's own name-to-id table of built-in routines. */
  const FUNCTION_IDS: map<string, u64> := map["putd" := 0, "alloc" := 1, "write" := 2]

  /** The value of the header: code starts right after it. */
  const CODE_START: u64 := 8

  /** The lexer's set of built-in names is exactly the key set of the
      compiler's table, so a lexed call always finds its id. */
  lemma BuiltinTablesAgree()
    ensures FUNCTION_IDS.Keys == Lexer.BUILTINS
    ensures forall name :: name in Lexer.BUILTINS ==> name in FUNCTION_IDS
  {
  }

  /** A pending forward reference: the construct that opened it and the offset
      of its eight-byte operand. */
  datatype XRef = XRef(kind: Op, at: nat)

  /** The compiler's state: the bytes written so far and the cross-reference
      stack (its top is the last element). */
  datatype Asm = Asm(code: seq<byte>, xrefs: seq<XRef>)

  function Top(xrefs: seq<XRef>): XRef
    requires |xrefs| > 0
  {
    xrefs[|xrefs| - 1]
  }

  function Pop(xrefs: seq<XRef>): seq<XRef>
    requires |xrefs| > 0
  {
    xrefs[..|xrefs| - 1]
  }

  /** The bounds every patch relies on: the header is in place, the buffer is
      within a `Vec`'s capacity, and every recorded operand lies after the
      header and inside the buffer. */
  predicate Valid(st: Asm) {
    && 8 <= |st.code| <= MAX_VEC_LEN
    && forall i :: 0 <= i < |st.xrefs| ==> 8 <= st.xrefs[i].at && st.xrefs[i].at + 8 <= |st.code|
  }

  /** Byte `k` lies inside the operand field of a pending reference. */
  predicate Pending(st: Asm, k: int) {
    exists i :: 0 <= i < |st.xrefs| && st.xrefs[i].at <= k < st.xrefs[i].at + 8
  }

  /** The state every compilation starts from: the header, no pending reference. */
  function Start(): (st: Asm)
    ensures Valid(st)
  {
    Asm(EncodeU64(CODE_START), [])
  }

  /** Overwrite the eight bytes at `at` with the little-endian encoding of `v`
      (`set_position(at)`, `write_u64`, `set_position(back)`). */
  function Patch(code: seq<byte>, at: nat, v: u64): (r: seq<byte>)
    requires at + 8 <= |code|
    ensures |r| == |code|
    ensures r[at..at + 8] == EncodeU64(v)
    ensures DecodeU64(r[at..at + 8]) == v
  {
    DecodeEncodeU64(v);
    var r := code[..at] + EncodeU64(v) + code[at + 8..];
    assert r[at..at + 8] == EncodeU64(v);
    r
  }

  /** A patch changes no byte outside its field. */
  lemma PatchKeeps(code: seq<byte>, at: nat, v: u64)
    requires at + 8 <= |code|
    ensures forall k :: 0 <= k < |code| && !(at <= k < at + 8) ==> Patch(code, at, v)[k] == code[k]
  {
  }

  /** A patch leaves everything from the end of its field onward as it was. */
  lemma PatchKeepsTail(code: seq<byte>, at: nat, v: u64, n: nat)
    requires at + 8 <= n <= |code|
    ensures Patch(code, at, v)[n..] == code[n..]
  {
    PatchKeeps(code, at, v);
  }

  lemma AppendAssoc(a: seq<byte>, b: seq<byte>, c: seq<byte>)
    ensures a + b + c == a + (b + c)
  {
  }

  /** Append bytes, failing as a `Vec` does when it cannot grow. */
  function Emit(st: Asm, bytes: seq<byte>): (r: Result<Asm, CompileError>)
    ensures r.Ok? <==> |st.code| + |bytes| <= MAX_VEC_LEN
    ensures r.Ok? ==> r.value == Asm(st.code + bytes, st.xrefs)
    ensures r.Err? ==> r.error == CapacityOverflow
  {
    if |st.code| + |bytes| > MAX_VEC_LEN then Err(CapacityOverflow)
    else Ok(Asm(st.code + bytes, st.xrefs))
  }

  /** Operations that compile to a single instruction with nothing to patch. */
  predicate IsPlain(op: Op) {
    !op.If? && !op.Else? && !op.End?
  }

  /** The instruction a plain operation compiles to. */
  function PlainInstr(op: Op): (i: Instr)
    requires IsPlain(op) && (op.Call? ==> op.name in FUNCTION_IDS)
    ensures Width(i) == OpWidth(op)
  {
    match op
    case Push(n) => Instr.Push(n)
    case Dup => Instr.Dup
    case Over => Instr.Over
    case Add => Instr.Add
    case Equal => Instr.Equal
    case Call(name) => Instr.Call(FUNCTION_IDS[name])
    case Poke => Instr.Poke
  }

  /** Bytes an operation adds to the buffer. */
  function OpWidth(op: Op): nat {
    match op
    case Push(_) => 9
    case If => 9
    case Else => 9
    case End => 0
    case Call(_) => 9
    case _ => 1
  }

  /** An operation can be compiled in state `st`: the buffer has room for it and
      the cross-reference stack has the shape it needs. */
  predicate Compilable(st: Asm, op: Op) {
    && |st.code| + OpWidth(op) <= MAX_VEC_LEN
    && (op.Else? ==> |st.xrefs| > 0 && Top(st.xrefs).kind.If?)
    && (op.End? ==> |st.xrefs| > 0 && (Top(st.xrefs).kind.If? || Top(st.xrefs).kind.Else?))
    && (op.Call? ==> op.name in FUNCTION_IDS)
  }

  /** `st2` continues `st1`: the buffer only grows, bytes outside the pending
      operand fields of `st1` keep their values, and no byte of the old buffer
      becomes pending that was not pending before. */
  predicate Extends(st1: Asm, st2: Asm) {
    && |st1.code| <= |st2.code|
    && (forall k :: 0 <= k < |st1.code| && !Pending(st1, k) ==> st2.code[k] == st1.code[k])
    && (forall k :: 0 <= k < |st1.code| && Pending(st2, k) ==> Pending(st1, k))
  }

  /** `r` is what compiling `op` in state `st` may yield: success exactly when
      the operation is compilable, and then a valid state `OpWidth(op)` bytes
      longer. */
  predicate Advances(st: Asm, op: Op, r: Result<Asm, CompileError>) {
    && (r.Ok? <==> Compilable(st, op))
    && (r.Ok? ==> Valid(r.value) && |r.value.code| == |st.code| + OpWidth(op))
  }

  lemma ExtendsTransitive(st1: Asm, st2: Asm, st3: Asm)
    requires Extends(st1, st2) && Extends(st2, st3)
    ensures Extends(st1, st3)
  {
  }

  /** Resolving the top entry (and, for `else`, recording a new one past the old
      buffer) continues the state. */
  lemma ResolveExtends(st: Asm, r: Asm)
    requires Valid(st) && |st.xrefs| > 0 && |st.code| <= |r.code|
    requires r.xrefs == Pop(st.xrefs)
             || r.xrefs == Pop(st.xrefs) + [XRef(Lexer.Else, |st.code| + 1)]
    requires forall k :: 0 <= k < |st.code| && !(Top(st.xrefs).at <= k < Top(st.xrefs).at + 8)
                         ==> r.code[k] == st.code[k]
    ensures Extends(st, r)
  {
    forall k | 0 <= k < |st.code| && Pending(r, k)
      ensures Pending(st, k)
    {
      var i :| 0 <= i < |r.xrefs| && r.xrefs[i].at <= k < r.xrefs[i].at + 8;
      assert i < |st.xrefs| - 1 && st.xrefs[i] == r.xrefs[i];
    }
    forall k | 0 <= k < |st.code| && !Pending(st, k)
      ensures r.code[k] == st.code[k]
    {
      assert !(Top(st.xrefs).at <= k < Top(st.xrefs).at + 8);
    }
  }

  /** `OP::If`: write the branch opcode, record the offset of its operand and
      reserve that operand with zeros. */
  function CompileIf(st: Asm): (r: Result<Asm, CompileError>)
    requires Valid(st)
    ensures Advances(st, Lexer.If, r)
    ensures r.Ok? ==> r.value.code == st.code + Encode(Instr.If(0))
    ensures r.Ok? ==> r.value.xrefs == st.xrefs + [XRef(Lexer.If, |st.code| + 1)]
  {
    var st1 :- Emit(st, Encode(Instr.If(0)));
    Ok(Asm(st1.code, st.xrefs + [XRef(Lexer.If, |st.code| + 1)]))
  }

  /** `OP::Else`: pop the open construct, write a jump with a reserved operand
      and record it, then point the popped `if` just past that jump. */
  function CompileElse(st: Asm): (r: Result<Asm, CompileError>)
    requires Valid(st)
    ensures |st.xrefs| == 0 ==> r == Err(XRefUnderflow)
    ensures Advances(st, Lexer.Else, r)
    ensures r.Ok? ==>
              forall k {:trigger r.value.code[k]} :: 0 <= k < |st.code| && !(Top(st.xrefs).at <= k < Top(st.xrefs).at + 8)
                          ==> r.value.code[k] == st.code[k]
    ensures r.Ok? ==> r.value.code[|st.code|..] == Encode(Instr.Jump(0))
    ensures r.Ok? ==> r.value.xrefs == Pop(st.xrefs) + [XRef(Lexer.Else, |st.code| + 1)]
    ensures r.Ok? ==> r.value.code[Top(st.xrefs).at..Top(st.xrefs).at + 8] == EncodeU64(|r.value.code|)
    ensures r.Ok? ==> DecodeU64(r.value.code[Top(st.xrefs).at..Top(st.xrefs).at + 8]) == |r.value.code|
  {
    if |st.xrefs| == 0 then Err(XRefUnderflow)
    else
      var start := Top(st.xrefs);
      var st1 :- Emit(Asm(st.code, Pop(st.xrefs)), Encode(Instr.Jump(0)));
      var st2 := Asm(st1.code, st1.xrefs + [XRef(Lexer.Else, |st.code| + 1)]);
      if !start.kind.If? then Err(ElseWithoutIf)
      else
        var code := Patch(st2.code, start.at, |st2.code|);
        PatchKeeps(st2.code, start.at, |st2.code|);
        PatchKeepsTail(st2.code, start.at, |st2.code|, |st.code|);
        Ok(Asm(code, st2.xrefs))
  }

  /** `OP::End`: pop the open `if` or `else` and point it at the current
      position, the offset of the next instruction. */
  function CompileEnd(st: Asm): (r: Result<Asm, CompileError>)
    requires Valid(st)
    ensures |st.xrefs| == 0 ==> r == Err(XRefUnderflow)
    ensures |st.xrefs| > 0 && !Top(st.xrefs).kind.If? && !Top(st.xrefs).kind.Else?
            ==> r == Err(EndWithoutOpener)
    ensures Advances(st, Lexer.End, r)
    ensures r.Ok? ==>
              forall k {:trigger r.value.code[k]} :: 0 <= k < |st.code| && !(Top(st.xrefs).at <= k < Top(st.xrefs).at + 8)
                          ==> r.value.code[k] == st.code[k]
    ensures r.Ok? ==> r.value.xrefs == Pop(st.xrefs)
    ensures r.Ok? ==> r.value.code[Top(st.xrefs).at..Top(st.xrefs).at + 8] == EncodeU64(|st.code|)
    ensures r.Ok? ==> DecodeU64(r.value.code[Top(st.xrefs).at..Top(st.xrefs).at + 8]) == |st.code|
  {
    if |st.xrefs| == 0 then Err(XRefUnderflow)
    else
      var start := Top(st.xrefs);
      if start.kind.If? || start.kind.Else? then
        PatchKeeps(st.code, start.at, |st.code|);
        Ok(Asm(Patch(st.code, start.at, |st.code|), Pop(st.xrefs)))
      else Err(EndWithoutOpener)
  }

  /** `OP::Call`: the call opcode, then the routine's id from the table. */
  function CompileCall(st: Asm, name: string): (r: Result<Asm, CompileError>)
    requires Valid(st)
    ensures Advances(st, Lexer.Call(name), r)
    ensures r.Ok? ==> r.value == Asm(st.code + Encode(Instr.Call(FUNCTION_IDS[name])), st.xrefs)
  {
    var st1 :- Emit(st, [CALL]);
    if name !in FUNCTION_IDS then Err(UnknownFunction(name))
    else
      var st2 :- Emit(st1, EncodeU64(FUNCTION_IDS[name]));
      AppendAssoc(st.code, [CALL], EncodeU64(FUNCTION_IDS[name]));
      Ok(st2)
  }

  /** Any other operation: its single instruction. */
  function CompilePlain(st: Asm, op: Op): (r: Result<Asm, CompileError>)
    requires Valid(st) && IsPlain(op) && !op.Call?
    ensures Advances(st, op, r)
    ensures r.Ok? ==> r.value == Asm(st.code + Encode(PlainInstr(op)), st.xrefs)
  {
    Emit(st, Encode(PlainInstr(op)))
  }

  /** One iteration of the loop of `compile`. */
  function CompileOp(st: Asm, op: Op): (r: Result<Asm, CompileError>)
    requires Valid(st)
    ensures Advances(st, op, r)
    ensures (op.Else? || op.End?) && |st.xrefs| == 0 ==> r == Err(XRefUnderflow)
  {
    match op
    case If => CompileIf(st)
    case Else => CompileElse(st)
    case End => CompileEnd(st)
    case Call(name) => CompileCall(st, name)
    case _ => CompilePlain(st, op)
  }

  /** Bytes a sequence of operations adds to the buffer. */
  function TotalWidth(ops: seq<Op>): nat {
    if |ops| == 0 then 0 else OpWidth(ops[0]) + TotalWidth(ops[1..])
  }

  /** The loop of `compile`, continuing from state `st`. */
  function AssembleFrom(st: Asm, ops: seq<Op>): (r: Result<Asm, CompileError>)
    requires Valid(st)
    ensures r.Ok? ==> Valid(r.value)
    ensures r.Ok? ==> |r.value.code| == |st.code| + TotalWidth(ops)
    decreases |ops|
  {
    if |ops| == 0 then Ok(st)
    else
      var st1 :- CompileOp(st, ops[0]);
      AssembleFrom(st1, ops[1..])
  }

  // ---------------------------------------------------------------------------
  // Only pending operand fields are ever rewritten
  // ---------------------------------------------------------------------------

  lemma AppendExtends(st: Asm, extra: seq<byte>)
    requires Valid(st)
    ensures Extends(st, Asm(st.code + extra, st.xrefs))
  {
  }

  lemma IfExtends(st: Asm)
    requires Valid(st) && CompileIf(st).Ok?
    ensures Extends(st, CompileIf(st).value)
  {
    var r := CompileIf(st).value;
    forall k | 0 <= k < |st.code| && Pending(r, k)
      ensures Pending(st, k)
    {
      var i :| 0 <= i < |r.xrefs| && r.xrefs[i].at <= k < r.xrefs[i].at + 8;
      assert i < |st.xrefs| && st.xrefs[i] == r.xrefs[i];
    }
  }

  lemma ElseExtends(st: Asm)
    requires Valid(st) && CompileElse(st).Ok?
    ensures Extends(st, CompileElse(st).value)
  {
    ResolveExtends(st, CompileElse(st).value);
  }

  lemma EndExtends(st: Asm)
    requires Valid(st) && CompileEnd(st).Ok?
    ensures Extends(st, CompileEnd(st).value)
  {
    ResolveExtends(st, CompileEnd(st).value);
  }

  /** Compiling one operation rewrites no byte outside the pending fields. */
  lemma CompileOpExtends(st: Asm, op: Op)
    requires Valid(st) && CompileOp(st, op).Ok?
    ensures Extends(st, CompileOp(st, op).value)
  {
    match op
    case If => IfExtends(st);
    case Else => ElseExtends(st);
    case End => EndExtends(st);
    case Call(name) => AppendExtends(st, Encode(Instr.Call(FUNCTION_IDS[name])));
    case _ => AppendExtends(st, Encode(PlainInstr(op)));
  }

  /** The whole loop rewrites no byte outside the fields pending at its start. */
  lemma {:induction false} AssembleExtends(st: Asm, ops: seq<Op>)
    requires Valid(st) && AssembleFrom(st, ops).Ok?
    ensures Extends(st, AssembleFrom(st, ops).value)
    decreases |ops|
  {
    if |ops| > 0 {
      var st1 := CompileOp(st, ops[0]).value;
      CompileOpExtends(st, ops[0]);
      AssembleExtends(st1, ops[1..]);
      ExtendsTransitive(st, st1, AssembleFrom(st, ops).value);
    }
  }

  /** `compile` after lexing: the header, the operations, then `Exit`. The
      cross-reference stack is not required to be empty at the end. */
  function Assemble(ops: seq<Op>): (r: Result<seq<byte>, CompileError>)
    ensures r.Ok? ==> |r.value| == 8 + TotalWidth(ops) + 1
    ensures r.Ok? ==> r.value[..8] == EncodeU64(CODE_START) && DecodeU64(r.value[..8]) == CODE_START
    ensures r.Ok? ==> r.value[|r.value| - 1] == EXIT
    ensures r.Ok? ==> AssembleFrom(Start(), ops).Ok?
                      && r.value == AssembleFrom(Start(), ops).value.code + [EXIT]
  {
    var st :- AssembleFrom(Start(), ops);
    var fin :- Emit(st, [EXIT]);
    AssembleExtends(Start(), ops);
    assert fin.code[..8] == EncodeU64(CODE_START) by {
      forall k | 0 <= k < 8
        ensures fin.code[k] == Start().code[k]
      {
        assert !Pending(Start(), k);
      }
    }
    DecodeEncodeU64(CODE_START);
    Ok(fin.code)
  }

  /** `compile`: lex the text, then assemble the operations. */
  function Compile(text: string): (r: Result<seq<byte>, CompileError>)
    ensures Lexer.Lex(text).Err? ==> r == Err(LexFailed(Lexer.Lex(text).error))
    ensures Lexer.Lex(text).Ok? ==> r == Assemble(Lexer.Lex(text).value)
  {
    match Lexer.Lex(text)
    case Err(e) => Err(LexFailed(e))
    case Ok(ops) => Assemble(ops)
  }

  // ---------------------------------------------------------------------------
  // The stack holds one entry per open construct
  // ---------------------------------------------------------------------------

  /** How an operation changes the number of open constructs. */
  function Nesting(op: Op): int {
    if op.If? then 1 else if op.End? then -1 else 0
  }

  /** The number of constructs a text leaves open: `if` opens one, `end`
      closes one, and `else` closes one and opens another. */
  function Depth(ops: seq<Op>): int {
    if |ops| == 0 then 0 else Nesting(ops[0]) + Depth(ops[1..])
  }

  lemma CompileOpDepth(st: Asm, op: Op)
    requires Valid(st) && CompileOp(st, op).Ok?
    ensures |CompileOp(st, op).value.xrefs| == |st.xrefs| + Nesting(op)
  {
    match op
    case If =>
    case Else =>
    case End =>
    case Call(name) =>
    case _ =>
  }

  /** After a successful loop the stack holds exactly the constructs the text
      left open. */
  lemma {:induction false} AssembleDepth(st: Asm, ops: seq<Op>)
    requires Valid(st) && AssembleFrom(st, ops).Ok?
    ensures |AssembleFrom(st, ops).value.xrefs| == |st.xrefs| + Depth(ops)
    decreases |ops|
  {
    if |ops| > 0 {
      CompileOpDepth(st, ops[0]);
      AssembleDepth(CompileOp(st, ops[0]).value, ops[1..]);
    }
  }

  // ---------------------------------------------------------------------------
  // What the cross-reference stack looks like in every reachable state
  // ---------------------------------------------------------------------------

  /** Every entry was pushed by `if` or `else`. */
  predicate Openers(xrefs: seq<XRef>) {
    forall i :: 0 <= i < |xrefs| ==> xrefs[i].kind.If? || xrefs[i].kind.Else?
  }

  /** Entries lie in buffer order and their fields do not overlap. */
  predicate Ordered(xrefs: seq<XRef>) {
    forall i, j :: 0 <= i < j < |xrefs| ==> xrefs[i].at + 8 <= xrefs[j].at
  }

  /** Every recorded field still holds the zero placeholder. */
  predicate Placeholders(code: seq<byte>, xrefs: seq<XRef>) {
    forall i :: 0 <= i < |xrefs| ==>
      xrefs[i].at + 8 <= |code| && code[xrefs[i].at..xrefs[i].at + 8] == EncodeU64(0)
  }

  /** The shape of the cross-reference stack in every reachable state. */
  predicate Consistent(st: Asm) {
    Valid(st) && Openers(st.xrefs) && Ordered(st.xrefs) && Placeholders(st.code, st.xrefs)
  }

  lemma StartConsistent()
    ensures Consistent(Start())
  {
  }

  /** Pushing an opener past every recorded field keeps the stack in shape. */
  lemma PushShape(xrefs: seq<XRef>, x: XRef)
    requires Openers(xrefs) && Ordered(xrefs) && (x.kind.If? || x.kind.Else?)
    requires forall i :: 0 <= i < |xrefs| ==> xrefs[i].at + 8 <= x.at
    ensures Openers(xrefs + [x]) && Ordered(xrefs + [x])
  {
  }

  lemma PopShape(xrefs: seq<XRef>)
    requires |xrefs| > 0 && Openers(xrefs) && Ordered(xrefs)
    ensures Openers(Pop(xrefs)) && Ordered(Pop(xrefs))
  {
  }

  /** Appending to the buffer keeps every recorded field. */
  lemma AppendKeepsPlaceholders(code: seq<byte>, extra: seq<byte>, xrefs: seq<XRef>)
    requires Placeholders(code, xrefs)
    ensures Placeholders(code + extra, xrefs)
  {
    forall i | 0 <= i < |xrefs|
      ensures (code + extra)[xrefs[i].at..xrefs[i].at + 8] == EncodeU64(0)
    {
      assert (code + extra)[xrefs[i].at..xrefs[i].at + 8] == code[xrefs[i].at..xrefs[i].at + 8];
    }
  }

  /** Rewriting bytes at or after `from` keeps the fields that end before it. */
  lemma RewriteKeepsPlaceholders(code: seq<byte>, code': seq<byte>, from: nat, xrefs: seq<XRef>)
    requires Placeholders(code, xrefs) && from <= |code| <= |code'|
    requires forall i :: 0 <= i < |xrefs| ==> xrefs[i].at + 8 <= from
    requires forall k :: 0 <= k < from ==> code'[k] == code[k]
    ensures Placeholders(code', xrefs)
  {
    forall i | 0 <= i < |xrefs|
      ensures code'[xrefs[i].at..xrefs[i].at + 8] == EncodeU64(0)
    {
      assert code'[xrefs[i].at..xrefs[i].at + 8] == code[xrefs[i].at..xrefs[i].at + 8];
    }
  }

  /** A new field at the end of the buffer holding the zero placeholder. */
  lemma PushPlaceholder(code: seq<byte>, xrefs: seq<XRef>, x: XRef)
    requires Placeholders(code, xrefs)
    requires x.at + 8 <= |code| && code[x.at..x.at + 8] == EncodeU64(0)
    ensures Placeholders(code, xrefs + [x])
  {
  }

  /** `If(0)` and `Jump(0)` reserve an all-zero operand. */
  lemma ReservedOperand(i: Instr)
    requires i == Instr.If(0) || i == Instr.Jump(0)
    ensures |Encode(i)| == 9 && Encode(i)[1..9] == EncodeU64(0)
  {
  }

  /** Writing a nine-byte instruction whose operand is the zero placeholder and
      recording that operand keeps the stack in shape. */
  lemma PushFresh(st: Asm, extra: seq<byte>, r: Asm, x: XRef)
    requires Valid(st) && Openers(st.xrefs) && Ordered(st.xrefs) && Placeholders(st.code, st.xrefs)
    requires |extra| == 9 && extra[1..9] == EncodeU64(0) && |st.code| + 9 <= MAX_VEC_LEN
    requires r.code == st.code + extra && x.at == |st.code| + 1 && (x.kind.If? || x.kind.Else?)
    requires r.xrefs == st.xrefs + [x]
    ensures Consistent(r)
  {
    PushShape(st.xrefs, x);
    AppendKeepsPlaceholders(st.code, extra, st.xrefs);
    assert r.code[x.at..x.at + 8] == extra[1..9];
    PushPlaceholder(r.code, st.xrefs, x);
  }

  /** Entries below the top of the stack end before the top's field. */
  lemma BelowTop(xrefs: seq<XRef>)
    requires |xrefs| > 0 && Ordered(xrefs)
    ensures forall i :: 0 <= i < |Pop(xrefs)| ==> Pop(xrefs)[i].at + 8 <= Top(xrefs).at
  {
  }

  /** Resolving the top entry, which rewrites only its field and what follows
      the old buffer, keeps the entries below it. */
  lemma ResolveConsistent(st: Asm, r: Asm)
    requires Consistent(st) && |st.xrefs| > 0 && |st.code| <= |r.code| <= MAX_VEC_LEN
    requires forall k :: 0 <= k < Top(st.xrefs).at ==> r.code[k] == st.code[k]
    requires r.xrefs == Pop(st.xrefs)
    ensures Consistent(r)
  {
    var rest := Pop(st.xrefs);
    PopShape(st.xrefs);
    assert Placeholders(st.code, rest);
    BelowTop(st.xrefs);
    RewriteKeepsPlaceholders(st.code, r.code, Top(st.xrefs).at, rest);
  }

  lemma SplitAt(s: seq<byte>, n: nat)
    requires n <= |s|
    ensures s[..n] + s[n..] == s
  {
  }

  lemma ElseConsistent(st: Asm, r: Asm)
    requires Consistent(st) && |st.xrefs| > 0 && |r.code| == |st.code| + 9 <= MAX_VEC_LEN
    requires forall k :: 0 <= k < Top(st.xrefs).at ==> r.code[k] == st.code[k]
    requires r.code[|st.code|..] == Encode(Instr.Jump(0))
    requires r.xrefs == Pop(st.xrefs) + [XRef(Lexer.Else, |st.code| + 1)]
    ensures Consistent(r)
  {
    var n := |st.code|;
    var mid := Asm(r.code[..n], Pop(st.xrefs));
    ResolveConsistent(st, mid);
    ReservedOperand(Instr.Jump(0));
    SplitAt(r.code, n);
    PushFresh(mid, r.code[n..], r, XRef(Lexer.Else, n + 1));
  }

  lemma AppendConsistent(st: Asm, extra: seq<byte>)
    requires Consistent(st) && |st.code| + |extra| <= MAX_VEC_LEN
    ensures Consistent(Asm(st.code + extra, st.xrefs))
  {
    AppendKeepsPlaceholders(st.code, extra, st.xrefs);
  }

  lemma IfKeepsConsistent(st: Asm)
    requires Consistent(st) && CompileIf(st).Ok?
    ensures Consistent(CompileIf(st).value)
  {
    ReservedOperand(Instr.If(0));
    PushFresh(st, Encode(Instr.If(0)), CompileIf(st).value, XRef(Lexer.If, |st.code| + 1));
  }

  lemma ElseKeepsConsistent(st: Asm)
    requires Consistent(st) && CompileElse(st).Ok?
    ensures Consistent(CompileElse(st).value)
  {
    ElseConsistent(st, CompileElse(st).value);
  }

  lemma EndKeepsConsistent(st: Asm)
    requires Consistent(st) && CompileEnd(st).Ok?
    ensures Consistent(CompileEnd(st).value)
  {
    ResolveConsistent(st, CompileEnd(st).value);
  }

  lemma CallKeepsConsistent(st: Asm, name: string)
    requires Consistent(st) && CompileCall(st, name).Ok?
    ensures Consistent(CompileCall(st, name).value)
  {
    AppendConsistent(st, Encode(Instr.Call(FUNCTION_IDS[name])));
  }

  lemma PlainKeepsConsistent(st: Asm, op: Op)
    requires Consistent(st) && IsPlain(op) && !op.Call? && CompilePlain(st, op).Ok?
    ensures Consistent(CompilePlain(st, op).value)
  {
    AppendConsistent(st, Encode(PlainInstr(op)));
  }

  /** Compiling one operation keeps the stack consistent. */
  lemma CompileOpConsistent(st: Asm, op: Op)
    requires Consistent(st) && CompileOp(st, op).Ok?
    ensures Consistent(CompileOp(st, op).value)
  {
    match op
    case If => IfKeepsConsistent(st);
    case Else => ElseKeepsConsistent(st);
    case End => EndKeepsConsistent(st);
    case Call(name) => CallKeepsConsistent(st, name);
    case _ => PlainKeepsConsistent(st, op);
  }

  /** The whole loop keeps the stack consistent. */
  lemma {:induction false} AssembleConsistent(st: Asm, ops: seq<Op>)
    requires Consistent(st) && AssembleFrom(st, ops).Ok?
    ensures Consistent(AssembleFrom(st, ops).value)
    decreases |ops|
  {
    if |ops| > 0 {
      CompileOpConsistent(st, ops[0]);
      AssembleConsistent(CompileOp(st, ops[0]).value, ops[1..]);
    }
  }

  /** The catch-all arm of `end` is unreachable: every entry on the stack was
      pushed by `if` or `else`, so `end` fails only on an empty stack. */
  lemma EndFailsOnlyWhenEmpty(st: Asm)
    requires Consistent(st)
    ensures CompileOp(st, Lexer.End).Err? <==> |st.xrefs| == 0
  {
  }

  /** The zero placeholder reads back as target 0. */
  lemma PlaceholderReadsZero()
    ensures DecodeU64(EncodeU64(0)) == 0
  {
    DecodeEncodeU64(0);
  }

  /** The recorded fields survive the final `Exit`. */
  lemma FieldsBeforeExit(code: seq<byte>, xrefs: seq<XRef>, prog: seq<byte>)
    requires Placeholders(code, xrefs) && prog == code + [EXIT]
    ensures forall x :: x in xrefs ==> x.at + 8 < |prog| && prog[x.at..x.at + 8] == EncodeU64(0)
  {
    AppendKeepsPlaceholders(code, [EXIT], xrefs);
    forall x | x in xrefs
      ensures x.at + 8 < |prog| && prog[x.at..x.at + 8] == EncodeU64(0)
    {
      var i :| 0 <= i < |xrefs| && xrefs[i] == x;
    }
  }

  /** An `if` or `else` left open at the end of the text keeps the zero operand
      it was reserved with. */
  lemma UnmatchedOperandStaysZero(ops: seq<Op>, prog: seq<byte>)
    requires Assemble(ops) == Ok(prog)
    ensures AssembleFrom(Start(), ops).Ok?
    ensures forall x :: x in AssembleFrom(Start(), ops).value.xrefs ==>
              x.at + 8 < |prog| && DecodeU64(prog[x.at..x.at + 8]) == 0
  {
    var st := AssembleFrom(Start(), ops).value;
    StartConsistent();
    AssembleConsistent(Start(), ops);
    FieldsBeforeExit(st.code, st.xrefs, prog);
    PlaceholderReadsZero();
  }

  // ---------------------------------------------------------------------------
  // Refusing open constructs
  // ---------------------------------------------------------------------------

  /** `compile` with the check the cross-reference stack is meant to pass at
      the end of the text: it fails when an `if` or `else` is left open,
      and otherwise writes the same program. */
  function CompileClosed(text: string): (r: Result<seq<byte>, CompileError>)
    ensures r.Ok? <==> Compile(text).Ok? && Depth(Lexer.Lex(text).value) == 0
    ensures r.Ok? ==> r == Compile(text)
    ensures Compile(text).Ok? && Depth(Lexer.Lex(text).value) != 0
            ==> r.Err? && r.error.Unclosed? && r.error.open == Depth(Lexer.Lex(text).value)
  {
    match Lexer.Lex(text)
    case Err(e) => Err(LexFailed(e))
    case Ok(ops) =>
      var st :- AssembleFrom(Start(), ops);
      AssembleDepth(Start(), ops);
      if |st.xrefs| > 0 then Err(Unclosed(|st.xrefs|)) else Assemble(ops)
  }
}
