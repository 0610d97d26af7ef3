/** Whole programs, from source text to what the interpreter prints: the
    steps every such proof repeats (lexing a word, growing the compiler's
    plan by one operation, running one instruction), and the sum `a b +`.
    The modules `Choice`, `HeapBlock` and `Unclosed` follow three more
    texts the same way. */
module Scenarios {
  import opened Bytes
  import opened Results
  import opened Isa
  import Lexer
  import opened Compiler
  import opened Layout
  import opened Runtime
  import opened Stdlib
  import opened Safety

  // ---------------------------------------------------------------------------
  // From text to bytes
  // ---------------------------------------------------------------------------

  /** A last token lexes on its own. */
  lemma LexLast(w: string, op: Lexer.Op)
    requires Lexer.IsWord(w) && Lexer.Classify(w) == Ok(op)
    ensures Lexer.Lex(w) == Ok([op])
  {
    Lexer.WordsOfWordThen(w, "");
    assert w + "" == w;
    assert [w] + [] == [w] && [w][1..] == [];
    assert [op] + [] == [op];
  }

  /** A token, a space and the rest of the text lex to the token's operation
      followed by the rest's. */
  lemma LexCons(w: string, rest: string, op: Lexer.Op, ops: seq<Lexer.Op>)
    requires Lexer.IsWord(w) && Lexer.Classify(w) == Ok(op) && Lexer.Lex(rest) == Ok(ops)
    ensures Lexer.Lex(w + " " + rest) == Ok([op] + ops)
  {
    Lexer.WordsOfWordThen(w, " " + rest);
    assert w + " " + rest == w + (" " + rest);
    assert (" " + rest)[1..] == rest;
    var ws := Lexer.Words(rest);
    assert ([w] + ws)[0] == w && ([w] + ws)[1..] == ws;
  }

  /** A text whose plan is `code` compiles to the header, `code` and `Exit`. */
  lemma CompileByPlan(text: string, ops: seq<Lexer.Op>, p: Plan)
    requires Lexer.Lex(text) == Ok(ops) && PlanFrom(Plan([], []), ops) == Some(p)
    requires CODE_START as nat + Size(p.instrs) + 1 <= MAX_VEC_LEN
    ensures Compile(text) == Ok(EncodeU64(CODE_START) + EncodeAll(p.instrs) + [EXIT])
    ensures Stream(Compile(text).value, p.instrs)
  {
    CompileLaysOut(text);
  }

  /** Words joined by single spaces lex word by word: the last word alone. */
  lemma LexOne(w: string, op: Lexer.Op)
    requires Lexer.IsWord(w) && Lexer.Classify(w) == Ok(op)
    ensures Lexer.Lex(Lexer.Unwords([w])) == Ok([op])
  {
    LexLast(w, op);
  }

  /** Words joined by single spaces lex word by word: one more word in front. */
  lemma LexMore(w: string, ws: seq<string>, op: Lexer.Op, ops: seq<Lexer.Op>)
    requires |ws| > 0 && Lexer.IsWord(w) && Lexer.Classify(w) == Ok(op)
    requires Lexer.Lex(Lexer.Unwords(ws)) == Ok(ops)
    ensures Lexer.Lex(Lexer.Unwords([w] + ws)) == Ok([op] + ops)
  {
    assert ([w] + ws)[0] == w && ([w] + ws)[1..] == ws;
    LexCons(w, Lexer.Unwords(ws), op, ops);
  }

  /** A suffix is its first element followed by the next suffix. */
  lemma SuffixCons<T>(s: seq<T>, k: nat)
    requires k < |s|
    ensures s[k..] == [s[k]] + s[k + 1..]
  {
  }

  /** Words joined by single spaces lex word by word, from word `k` on. */
  lemma LexFrom(ws: seq<string>, ops: seq<Lexer.Op>, k: nat)
    requires |ws| == |ops| && k < |ws|
    requires Lexer.IsWord(ws[k]) && Lexer.Classify(ws[k]) == Ok(ops[k])
    requires k + 1 < |ws| ==> Lexer.Lex(Lexer.Unwords(ws[k + 1..])) == Ok(ops[k + 1..])
    ensures Lexer.Lex(Lexer.Unwords(ws[k..])) == Ok(ops[k..])
  {
    SuffixCons(ws, k);
    SuffixCons(ops, k);
    if k + 1 == |ws| {
      assert ws[k + 1..] == [] && ops[k + 1..] == [];
      LexOne(ws[k], ops[k]);
    } else {
      LexMore(ws[k], ws[k + 1..], ops[k], ops[k + 1..]);
    }
  }

  /** Concatenation of texts is associative. */
  lemma Glue(x: string, y: string, z: string)
    ensures x + y + z == x + (y + z)
  {
  }

  lemma KeywordWord(w: string, op: Lexer.Op)
    requires Lexer.FixedWord(w) == Some(op)
    ensures Lexer.IsWord(w) && Lexer.Classify(w) == Ok(op)
  {
  }

  lemma PutdWord()
    ensures Lexer.IsWord("putd") && Lexer.Classify("putd") == Ok(Lexer.Call("putd"))
  {
    Lexer.ClassifyCall("putd");
  }

  lemma AllocWord()
    ensures Lexer.IsWord("alloc") && Lexer.Classify("alloc") == Ok(Lexer.Call("alloc"))
  {
    Lexer.ClassifyCall("alloc");
  }

  lemma WriteWord()
    ensures Lexer.IsWord("write") && Lexer.Classify("write") == Ok(Lexer.Call("write"))
  {
    Lexer.ClassifyCall("write");
  }

  lemma NumberWord(n: nat)
    requires n <= I64_MAX
    ensures Lexer.IsWord(Lexer.Decimal(n)) && Lexer.Classify(Lexer.Decimal(n)) == Ok(Lexer.Push(n))
  {
    Lexer.ClassifyDecimal(n);
  }

  /** A plain operation appends its instruction to the plan. */
  lemma PlanPlain(p: Plan, op: Lexer.Op)
    requires Shaped(p) && IsPlain(op) && (op.Call? ==> op.name in FUNCTION_IDS)
    requires CODE_START as nat + Size(p.instrs) + OpWidth(op) <= MAX_VEC_LEN
    ensures PlanOk(p, op) && PlanStep(p, op) == Plan(p.instrs + [PlainInstr(op)], p.opens)
    ensures Size(PlanStep(p, op).instrs) == Size(p.instrs) + OpWidth(op)
  {
    SizeAppend(p.instrs, [PlainInstr(op)]);
  }

  /** `if` appends a branch with a placeholder target and opens it. */
  lemma PlanIf(p: Plan)
    requires Shaped(p) && CODE_START as nat + Size(p.instrs) + 9 <= MAX_VEC_LEN
    ensures PlanOk(p, Lexer.If)
    ensures Size(PlanStep(p, Lexer.If).instrs) == Size(p.instrs) + 9
  {
    SizeAppend(p.instrs, [Instr.If(0)]);
  }

  /** Patching a branch target leaves the size of the stream alone. */
  lemma SizeRetarget(a: seq<Instr>, j: nat, v: u64)
    requires j < |a| && IsBranch(a[j])
    ensures Size(a[j := Retarget(a[j], v)]) == Size(a)
  {
    OffsetSameWidth(a, j, Retarget(a[j], v), |a|);
    OffsetEnd(a);
    OffsetEnd(a[j := Retarget(a[j], v)]);
  }

  /** `else` after an `if` appends a jump and grows the stream by its width. */
  lemma PlanElse(p: Plan)
    requires Shaped(p) && |p.opens| > 0 && p.instrs[p.opens[|p.opens| - 1]].If?
    requires CODE_START as nat + Size(p.instrs) + 9 <= MAX_VEC_LEN
    ensures PlanOk(p, Lexer.Else)
    ensures Size(PlanStep(p, Lexer.Else).instrs) == Size(p.instrs) + 9
  {
    var j := p.opens[|p.opens| - 1];
    SizeAppend(p.instrs, [Instr.Jump(0)]);
    SizeRetarget(p.instrs + [Instr.Jump(0)], j, CODE_START as nat + Size(p.instrs) + 9);
  }

  /** `end` only patches, so the stream keeps its size. */
  lemma PlanEnd(p: Plan)
    requires Shaped(p) && |p.opens| > 0 && CODE_START as nat + Size(p.instrs) <= MAX_VEC_LEN
    ensures PlanOk(p, Lexer.End)
    ensures Size(PlanStep(p, Lexer.End).instrs) == Size(p.instrs)
  {
    SizeRetarget(p.instrs, p.opens[|p.opens| - 1], CODE_START as nat + Size(p.instrs));
  }

  /** The plan of a text is built one operation at a time. */
  lemma PlanCons(p: Plan, ops: seq<Lexer.Op>)
    requires |ops| > 0 && PlanOk(p, ops[0])
    ensures PlanFrom(p, ops) == PlanFrom(PlanStep(p, ops[0]), ops[1..])
  {
  }

  /** The same, from operation `k` on. */
  lemma PlanAt(p: Plan, ops: seq<Lexer.Op>, k: nat, q: Plan)
    requires k < |ops| && PlanOk(p, ops[k]) && PlanStep(p, ops[k]) == q
    ensures PlanFrom(p, ops[k..]) == PlanFrom(q, ops[k + 1..])
  {
    assert ops[k..][0] == ops[k] && ops[k..][1..] == ops[k + 1..];
    PlanCons(p, ops[k..]);
  }

  /** Operation `k` compiles on its own to instruction `k`. */
  predicate PlainPair(ops: seq<Lexer.Op>, code: seq<Instr>, k: nat)
    requires k < |ops| && k < |code|
  {
    IsPlain(ops[k]) && (ops[k].Call? ==> ops[k].name in FUNCTION_IDS) && PlainInstr(ops[k]) == code[k]
  }

  /** A plain operation extends the plan by its own instruction. */
  lemma PlainAt(ops: seq<Lexer.Op>, code: seq<Instr>, k: nat)
    requires |ops| == |code| && k < |ops| && PlainPair(ops, code, k)
    requires CODE_START as nat + Size(code[..k]) + OpWidth(ops[k]) <= MAX_VEC_LEN
    ensures PlanFrom(Plan(code[..k], []), ops[k..]) == PlanFrom(Plan(code[..k + 1], []), ops[k + 1..])
    ensures Size(code[..k + 1]) == Size(code[..k]) + OpWidth(ops[k])
  {
    PlanPlain(Plan(code[..k], []), ops[k]);
    assert code[..k] + [code[k]] == code[..k + 1];
    PlanAt(Plan(code[..k], []), ops, k, Plan(code[..k + 1], []));
  }

  /** A text of plain operations compiles, from operation `k` on, to their
      instructions in the same order, with nothing left open. */
  lemma {:induction false} PlainPlan(ops: seq<Lexer.Op>, code: seq<Instr>, k: nat)
    requires |ops| == |code| && k <= |ops|
    requires forall j :: k <= j < |ops| ==> PlainPair(ops, code, j)
    requires CODE_START as nat + Size(code) <= MAX_VEC_LEN
    ensures PlanFrom(Plan(code[..k], []), ops[k..]) == Some(Plan(code, []))
    decreases |ops| - k
  {
    if k == |ops| {
      assert code[..k] == code && ops[k..] == [];
    } else {
      SizeAppend(code[..k + 1], code[k + 1..]);
      assert code[..k + 1] + code[k + 1..] == code;
      SizeAppend(code[..k], [code[k]]);
      assert code[..k] + [code[k]] == code[..k + 1];
      PlainAt(ops, code, k);
      PlainPlan(ops, code, k + 1);
    }
  }

  // ---------------------------------------------------------------------------
  // One instruction at a time
  // ---------------------------------------------------------------------------

  /** The cursor of `m` is at instruction `k` of a laid-out stream, and `next`
      is where the following instruction starts. */
  predicate Poised(prog: seq<byte>, code: seq<Instr>, m: Machine, k: nat, next: nat) {
    Stream(prog, code) && k < |code| && At(code, m.pc, k) && At(code, next, k + 1)
  }

  lemma GoPush(prog: seq<byte>, code: seq<Instr>, m: Machine, k: nat, next: nat, fuel: nat, v: i64)
    requires Poised(prog, code, m, k, next) && fuel > 0 && code[k] == Instr.Push(v)
    ensures Execute(prog, m, fuel) == Execute(prog, m.(pc := next, stack := m.stack + [v]), fuel - 1)
  {
    ExecuteAt(prog, code, m, k, next, fuel, m.(pc := next, stack := m.stack + [v]));
  }

  lemma GoOver(prog: seq<byte>, code: seq<Instr>, m: Machine, k: nat, next: nat, fuel: nat, a: i64)
    requires Poised(prog, code, m, k, next) && fuel > 0 && code[k] == Instr.Over
    requires |m.stack| >= 2 && Peek(m.stack, 1) == a
    ensures Execute(prog, m, fuel) == Execute(prog, m.(pc := next, stack := m.stack + [a]), fuel - 1)
  {
    ExecuteAt(prog, code, m, k, next, fuel, m.(pc := next, stack := m.stack + [a]));
  }

  lemma GoAdd(prog: seq<byte>, code: seq<Instr>, m: Machine, k: nat, next: nat, fuel: nat,
              rest: seq<i64>, a: i64, b: i64)
    requires Poised(prog, code, m, k, next) && fuel > 0 && code[k] == Instr.Add
    requires m.stack == rest + [a, b] && InI64(a + b)
    ensures Execute(prog, m, fuel) == Execute(prog, m.(pc := next, stack := rest + [a + b]), fuel - 1)
  {
    assert Drop(m.stack, 2) == rest;
    ExecuteAt(prog, code, m, k, next, fuel, m.(pc := next, stack := rest + [a + b]));
  }

  lemma GoIf(prog: seq<byte>, code: seq<Instr>, m: Machine, k: nat, next: nat, fuel: nat,
             rest: seq<i64>, c: i64, t: u64)
    requires Poised(prog, code, m, k, next) && fuel > 0 && code[k] == Instr.If(t)
    requires m.stack == rest + [c]
    ensures Execute(prog, m, fuel)
            == Execute(prog, m.(pc := if c == 0 then t as nat else next, stack := rest), fuel - 1)
  {
    assert Drop(m.stack, 1) == rest;
    ExecuteAt(prog, code, m, k, next, fuel, m.(pc := if c == 0 then t as nat else next, stack := rest));
  }

  lemma GoJump(prog: seq<byte>, code: seq<Instr>, m: Machine, k: nat, next: nat, fuel: nat, t: u64)
    requires Poised(prog, code, m, k, next) && fuel > 0 && code[k] == Instr.Jump(t)
    ensures Execute(prog, m, fuel) == Execute(prog, m.(pc := t as nat), fuel - 1)
  {
    ExecuteAt(prog, code, m, k, next, fuel, m.(pc := t as nat));
  }

  lemma GoPutd(prog: seq<byte>, code: seq<Instr>, m: Machine, k: nat, next: nat, fuel: nat,
               rest: seq<i64>, v: i64)
    requires Poised(prog, code, m, k, next) && fuel > 0 && code[k] == Instr.Call(PUTD)
    requires m.stack == rest + [v]
    ensures Execute(prog, m, fuel)
            == Execute(prog, m.(pc := next, stack := rest, out := m.out + [Printed(v)]), fuel - 1)
  {
    assert Drop(m.stack, 1) == rest;
    ExecuteAt(prog, code, m, k, next, fuel, m.(pc := next, stack := rest, out := m.out + [Printed(v)]));
  }

  lemma GoAlloc(prog: seq<byte>, code: seq<Instr>, m: Machine, k: nat, next: nat, fuel: nat,
                rest: seq<i64>, size: i64)
    requires Poised(prog, code, m, k, next) && fuel > 0 && code[k] == Instr.Call(ALLOC)
    requires m.stack == rest + [size] && 0 <= size && |m.heap| + size <= MAX_VEC_LEN
    ensures Execute(prog, m, fuel)
            == Execute(prog, m.(pc := next, stack := rest + [|m.heap|], heap := m.heap + Zeros(size)), fuel - 1)
  {
    assert Drop(m.stack, 1) == rest;
    ExecuteAt(prog, code, m, k, next, fuel,
              m.(pc := next, stack := rest + [|m.heap|], heap := m.heap + Zeros(size)));
  }

  lemma GoPoke(prog: seq<byte>, code: seq<Instr>, m: Machine, k: nat, next: nat, fuel: nat,
               rest: seq<i64>, value: i64, address: i64)
    requires Poised(prog, code, m, k, next) && fuel > 0 && code[k] == Instr.Poke
    requires m.stack == rest + [value, address] && 0 <= address < |m.heap|
    ensures Execute(prog, m, fuel)
            == Execute(prog, m.(pc := next, stack := rest, heap := m.heap[address := LowByte(value)]), fuel - 1)
  {
    assert Drop(m.stack, 2) == rest;
    ExecuteAt(prog, code, m, k, next, fuel,
              m.(pc := next, stack := rest, heap := m.heap[address := LowByte(value)]));
  }

  lemma GoWrite(prog: seq<byte>, code: seq<Instr>, m: Machine, k: nat, next: nat, fuel: nat,
                rest: seq<i64>, size: i64, address: i64)
    requires Poised(prog, code, m, k, next) && fuel > 0 && code[k] == Instr.Call(WRITE)
    requires m.stack == rest + [size, address] && 0 <= address && 0 <= size && address + size <= |m.heap|
    ensures Execute(prog, m, fuel)
            == Execute(prog, m.(pc := next, stack := rest, out := m.out + [Wrote(m.heap[address..address + size])]),
                       fuel - 1)
  {
    assert Drop(m.stack, 2) == rest;
    ExecuteAt(prog, code, m, k, next, fuel,
              m.(pc := next, stack := rest, out := m.out + [Wrote(m.heap[address..address + size])]));
  }

  // ---------------------------------------------------------------------------
  // `a b +`
  // ---------------------------------------------------------------------------

  /** `a b +` lexes to two pushes and an add. */
  lemma SumLexes(a: nat, b: nat)
    requires a <= I64_MAX && b <= I64_MAX
    ensures Lexer.Lex(Lexer.Decimal(a) + " " + Lexer.Decimal(b) + " +")
            == Ok([Lexer.Push(a), Lexer.Push(b), Lexer.Add])
  {
    var da, db := Lexer.Decimal(a), Lexer.Decimal(b);
    NumberWord(a);
    AddendLexes(b);
    LexCons(da, db + " +", Lexer.Push(a), [Lexer.Push(b), Lexer.Add]);
    Glue(da + " ", db, " +");
    assert [Lexer.Push(a)] + [Lexer.Push(b), Lexer.Add] == [Lexer.Push(a), Lexer.Push(b), Lexer.Add];
  }

  lemma AddendLexes(b: nat)
    requires b <= I64_MAX
    ensures Lexer.Lex(Lexer.Decimal(b) + " +") == Ok([Lexer.Push(b), Lexer.Add])
  {
    var db := Lexer.Decimal(b);
    NumberWord(b);
    KeywordWord("+", Lexer.Add);
    LexLast("+", Lexer.Add);
    LexCons(db, "+", Lexer.Push(b), [Lexer.Add]);
    Glue(db, " ", "+");
    assert " " + "+" == " +";
    assert [Lexer.Push(b)] + [Lexer.Add] == [Lexer.Push(b), Lexer.Add];
  }

  /** The plan of `a b +`: the three instructions, nothing left open. */
  lemma SumPlan(a: i64, b: i64)
    ensures PlanFrom(Plan([], []), [Lexer.Push(a), Lexer.Push(b), Lexer.Add])
            == Some(Plan([Instr.Push(a), Instr.Push(b), Instr.Add], []))
    ensures Size([Instr.Push(a), Instr.Push(b), Instr.Add]) == 19
  {
    var ops := [Lexer.Push(a), Lexer.Push(b), Lexer.Add];
    var p0 := Plan([], []);
    var p1 := Plan([Instr.Push(a)], []);
    var p2 := Plan([Instr.Push(a), Instr.Push(b)], []);
    var p3 := Plan([Instr.Push(a), Instr.Push(b), Instr.Add], []);
    PlanPlain(p0, ops[0]);
    assert PlanStep(p0, ops[0]) == p1;
    PlanPlain(p1, ops[1]);
    assert PlanStep(p1, ops[1]) == p2;
    PlanPlain(p2, ops[2]);
    assert PlanStep(p2, ops[2]) == p3;
    PlanCons(p0, ops);
    PlanCons(p1, ops[1..]);
    PlanCons(p2, ops[2..]);
    assert ops[1..][1..] == ops[2..] && ops[2..][1..] == [];
  }

  /** `a b +` compiles to two pushes and an add. */
  lemma SumCompiles(a: nat, b: nat)
    requires a <= I64_MAX && b <= I64_MAX
    ensures Compile(Lexer.Decimal(a) + " " + Lexer.Decimal(b) + " +").Ok?
    ensures Stream(Compile(Lexer.Decimal(a) + " " + Lexer.Decimal(b) + " +").value,
                   [Instr.Push(a), Instr.Push(b), Instr.Add])
  {
    SumLexes(a, b);
    SumPlan(a, b);
    var code := [Instr.Push(a), Instr.Push(b), Instr.Add];
    CompileByPlan(Lexer.Decimal(a) + " " + Lexer.Decimal(b) + " +",
                  [Lexer.Push(a), Lexer.Push(b), Lexer.Add], Plan(code, []));
  }

  /** Any program laid out as `Push a; Push b; Add` halts after four steps
      with the sum alone on the stack and nothing printed. */
  lemma SumCodeRuns(prog: seq<byte>, code: seq<Instr>, a: i64, b: i64)
    requires Stream(prog, code) && |code| == 3
    requires code[0] == Instr.Push(a) && code[1] == Instr.Push(b) && code[2] == Instr.Add
    requires InI64(a + b)
    ensures Run(prog, 4) == Halted(Machine(28, [a + b], [], []))
  {
    RunStream(prog, code, 4);
    OffsetNext(code, 0);
    OffsetNext(code, 1);
    OffsetNext(code, 2);
    var m0 := Boot(8);
    var m1 := Machine(17, [a], [], []);
    GoPush(prog, code, m0, 0, 17, 4, a);
    assert m0.(pc := 17, stack := m0.stack + [a]) == m1;
    var m2 := Machine(26, [a, b], [], []);
    GoPush(prog, code, m1, 1, 26, 3, b);
    assert m1.(pc := 26, stack := m1.stack + [b]) == m2;
    var m3 := Machine(27, [a + b], [], []);
    GoAdd(prog, code, m2, 2, 27, 2, [], a, b);
    assert m2.(pc := 27, stack := [] + [a + b]) == m3;
    ExecuteAtExit(prog, code, m3, 1);
  }

  /** Compiled and run, `a b +` halts with the sum alone on the stack and
      prints nothing. */
  lemma SumRuns(a: nat, b: nat)
    requires a + b <= I64_MAX
    ensures var prog := Compile(Lexer.Decimal(a) + " " + Lexer.Decimal(b) + " +");
            prog.Ok? && Run(prog.value, 4) == Halted(Machine(28, [a + b], [], []))
  {
    SumCompiles(a, b);
    SumCodeRuns(Compile(Lexer.Decimal(a) + " " + Lexer.Decimal(b) + " +").value,
                [Instr.Push(a), Instr.Push(b), Instr.Add], a, b);
  }
}
