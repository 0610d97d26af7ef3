/** The instruction set shared by the compiler and the runtime: the opcode byte
    values of `Instruction` (src/compiler.rs) and the fixed instruction formats,
    one opcode byte optionally followed by an eight-byte little-endian operand. */
module Isa {
  import opened Bytes
  import opened Results

  const PUSH: byte := 0x01
  const DUP: byte := 0x02
  const OVER: byte := 0x03
  const ADD: byte := 0x04
  const EQUAL: byte := 0x05
  const IF: byte := 0x06
  const JUMP: byte := 0x07
  const CALL: byte := 0x08
  const POKE: byte := 0x09
  const EXIT: byte := 0xFF

  /** One decoded instruction. `If` is the conditional branch: it jumps to
      `target` when the popped condition is zero. */
  datatype Instr =
    | Push(value: i64)
    | Dup
    | Over
    | Add
    | Equal
    | If(target: u64)
    | Jump(target: u64)
    | Call(id: u64)
    | Poke
    | Exit

  predicate HasOperand(i: Instr) {
    i.Push? || i.If? || i.Jump? || i.Call?
  }

  function Opcode(i: Instr): byte {
    match i
    case Push(_) => PUSH
    case Dup => DUP
    case Over => OVER
    case Add => ADD
    case Equal => EQUAL
    case If(_) => IF
    case Jump(_) => JUMP
    case Call(_) => CALL
    case Poke => POKE
    case Exit => EXIT
  }

  /** Number of bytes an instruction occupies. */
  function Width(i: Instr): nat {
    if HasOperand(i) then 9 else 1
  }

  /** The bytes the compiler writes for one instruction. */
  function Encode(i: Instr): (bs: seq<byte>)
    ensures |bs| == Width(i)
    ensures bs[0] == Opcode(i)
  {
    match i
    case Push(v) => [PUSH] + EncodeI64(v)
    case If(t) => [IF] + EncodeU64(t)
    case Jump(t) => [JUMP] + EncodeU64(t)
    case Call(id) => [CALL] + EncodeU64(id)
    case _ => [Opcode(i)]
  }

  /** Why an instruction could not be read at a cursor position. */
  datatype DecodeError =
    | ReadPastEnd(at: nat)
    | UnknownOpcode(op: byte, at: nat)

  /** The opcodes followed by an eight-byte operand. */
  predicate TakesOperand(op: byte) {
    op == PUSH || op == IF || op == JUMP || op == CALL
  }

  /** The instruction an operand-taking opcode and its operand bytes stand for. */
  function WithOperand(op: byte, operand: seq<byte>): (i: Instr)
    requires TakesOperand(op) && |operand| == 8
    ensures Encode(i) == [op] + operand
  {
    EncodeDecodeU64(operand);
    if op == PUSH then Push(DecodeI64(operand))
    else if op == IF then If(DecodeU64(operand))
    else if op == JUMP then Jump(DecodeU64(operand))
    else Call(DecodeU64(operand))
  }

  /** The instruction a one-byte opcode stands for, if it is one. */
  function Bare(op: byte): (r: Option<Instr>)
    requires !TakesOperand(op)
    ensures r.Some? ==> Encode(r.value) == [op]
    ensures r.None? ==> forall i: Instr :: Opcode(i) != op
  {
    if op == DUP then Some(Dup)
    else if op == OVER then Some(Over)
    else if op == ADD then Some(Add)
    else if op == EQUAL then Some(Equal)
    else if op == POKE then Some(Poke)
    else if op == EXIT then Some(Exit)
    else None
  }

  /** An instruction read from a program and the cursor position after it. */
  datatype Decoded = Decoded(instr: Instr, next: nat)

  /** The instruction starting at byte `pc` and the position just after it:
      the opcode read, then the operand for the four instructions that have one. */
  function DecodeAt(prog: seq<byte>, pc: nat): (r: Result<Decoded, DecodeError>)
    ensures r.Ok? ==> pc < r.value.next <= |prog| && prog[pc..r.value.next] == Encode(r.value.instr)
    ensures r.Err? && r.error.UnknownOpcode? ==>
              r.error.at == pc && pc < |prog| && r.error.op == prog[pc]
              && forall i: Instr :: Opcode(i) != prog[pc]
    ensures pc >= |prog| ==> r == Err(ReadPastEnd(pc))
  {
    if pc >= |prog| then Err(ReadPastEnd(pc))
    else if TakesOperand(prog[pc]) then
      if pc + 9 > |prog| then Err(ReadPastEnd(pc + 1))
      else
        assert prog[pc..pc + 9] == [prog[pc]] + prog[pc + 1..pc + 9];
        Ok(Decoded(WithOperand(prog[pc], prog[pc + 1..pc + 9]), pc + 9))
    else
      match Bare(prog[pc])
      case Some(i) => Ok(Decoded(i, pc + 1))
      case None => Err(UnknownOpcode(prog[pc], pc))
  }

  /** Different instructions have different encodings. */
  lemma EncodeInjective(a: Instr, b: Instr)
    requires Encode(a) == Encode(b)
    ensures a == b
  {
    assert Opcode(a) == Encode(a)[0] == Encode(b)[0] == Opcode(b);
    var wa, wb := Encode(a)[1..], Encode(b)[1..];
    match a
    case Push(v) =>
      assert wa == EncodeI64(v) && wb == EncodeI64(b.value);
      DecodeEncodeI64(v);
      DecodeEncodeI64(b.value);
    case If(t) =>
      assert wa == EncodeU64(t) && wb == EncodeU64(b.target);
      DecodeEncodeU64(t);
      DecodeEncodeU64(b.target);
    case Jump(t) =>
      assert wa == EncodeU64(t) && wb == EncodeU64(b.target);
      DecodeEncodeU64(t);
      DecodeEncodeU64(b.target);
    case Call(id) =>
      assert wa == EncodeU64(id) && wb == EncodeU64(b.id);
      DecodeEncodeU64(id);
      DecodeEncodeU64(b.id);
    case _ =>
  }

  /** Wherever the bytes of an instruction appear in a program, decoding there
      gives the instruction back and moves past exactly its width. */
  lemma DecodeEncoded(prog: seq<byte>, pc: nat, next: nat, i: Instr)
    requires pc <= next <= |prog| && prog[pc..next] == Encode(i)
    ensures DecodeAt(prog, pc) == Ok(Decoded(i, next))
  {
    assert prog[pc] == Encode(i)[0] == Opcode(i);
    var r := DecodeAt(prog, pc);
    assert r.Ok? && r.value.next == pc + Width(i);
    EncodeInjective(r.value.instr, i);
  }

  /** The bytes of an instruction stream. */
  function EncodeAll(code: seq<Instr>): (bs: seq<byte>)
  {
    if |code| == 0 then [] else Encode(code[0]) + EncodeAll(code[1..])
  }

  function Size(code: seq<Instr>): nat {
    if |code| == 0 then 0 else Width(code[0]) + Size(code[1..])
  }

  lemma {:induction false} EncodeAllSize(code: seq<Instr>)
    ensures |EncodeAll(code)| == Size(code)
  {
    if |code| > 0 {
      EncodeAllSize(code[1..]);
    }
  }

  lemma {:induction false} EncodeAllAppend(a: seq<Instr>, b: seq<Instr>)
    ensures EncodeAll(a + b) == EncodeAll(a) + EncodeAll(b)
  {
    if |a| == 0 {
      assert a + b == b;
    } else {
      assert (a + b)[1..] == a[1..] + b;
      EncodeAllAppend(a[1..], b);
    }
  }

  /** Offset, relative to the start of the stream, of instruction `k`. */
  function OffsetOf(code: seq<Instr>, k: nat): nat
    requires k <= |code|
  {
    if k == 0 then 0 else Width(code[0]) + OffsetOf(code[1..], k - 1)
  }

  lemma {:induction false} SizeAppend(a: seq<Instr>, b: seq<Instr>)
    ensures Size(a + b) == Size(a) + Size(b)
  {
    if |a| == 0 {
      assert a + b == b;
    } else {
      assert (a + b)[1..] == a[1..] + b;
      SizeAppend(a[1..], b);
    }
  }

  /** A slice of a slice is a slice of the original. */
  lemma SubSlice(s: seq<byte>, i: nat, j: nat, a: nat, b: nat)
    requires i <= j <= |s| && a <= b <= j - i
    ensures s[i..j][a..b] == s[i + a..i + b]
  {
    forall t | 0 <= t < b - a
      ensures s[i..j][a..b][t] == s[i + a..i + b][t]
    {
    }
  }

  /** The stream `code` is laid out in `prog` from offset `p` on. */
  predicate LaidOut(prog: seq<byte>, p: nat, code: seq<Instr>) {
    p + |EncodeAll(code)| <= |prog| && prog[p..p + |EncodeAll(code)|] == EncodeAll(code)
  }

  lemma LaidOutBetween(prefix: seq<byte>, code: seq<Instr>, suffix: seq<byte>)
    ensures LaidOut(prefix + EncodeAll(code) + suffix, |prefix|, code)
  {
    var e := EncodeAll(code);
    assert (prefix + e + suffix)[|prefix|..|prefix| + |e|] == e;
  }

  /** Peeling the first instruction off a laid-out stream. */
  lemma LaidOutSplit(prog: seq<byte>, p: nat, code: seq<Instr>)
    requires |code| > 0 && LaidOut(prog, p, code)
    ensures p + Width(code[0]) <= |prog| && prog[p..p + Width(code[0])] == Encode(code[0])
    ensures LaidOut(prog, p + Width(code[0]), code[1..])
  {
    var e0, rest := Encode(code[0]), EncodeAll(code[1..]);
    var n := |e0| + |rest|;
    assert EncodeAll(code) == e0 + rest;
    SubSlice(prog, p, p + n, 0, |e0|);
    assert (e0 + rest)[0..|e0|] == e0;
    SubSlice(prog, p, p + n, |e0|, n);
    assert (e0 + rest)[|e0|..n] == rest;
  }

  /** The bytes of instruction `k` of a stream laid out at `p`. */
  predicate InstrAt(prog: seq<byte>, p: nat, code: seq<Instr>, k: nat)
    requires k < |code|
  {
    && OffsetOf(code, k + 1) == OffsetOf(code, k) + Width(code[k])
    && p + OffsetOf(code, k + 1) <= |prog|
    && prog[p + OffsetOf(code, k)..p + OffsetOf(code, k + 1)] == Encode(code[k])
  }

  /** Instruction `k` of a laid-out stream occupies the bytes between its offset
      and the next. */
  lemma {:induction false} InstrLaidOut(prog: seq<byte>, p: nat, code: seq<Instr>, k: nat)
    requires k < |code| && LaidOut(prog, p, code)
    ensures InstrAt(prog, p, code, k)
    decreases k
  {
    LaidOutSplit(prog, p, code);
    if k > 0 {
      InstrLaidOut(prog, p + Width(code[0]), code[1..], k - 1);
      InstrAtStep(prog, p, code, k);
    }
  }

  /** Instruction `k` of a stream is instruction `k - 1` of its tail, laid out
      one instruction further on. */
  lemma InstrAtStep(prog: seq<byte>, p: nat, code: seq<Instr>, k: nat)
    requires 0 < k < |code|
    requires InstrAt(prog, p + Width(code[0]), code[1..], k - 1)
    ensures InstrAt(prog, p, code, k)
  {
    var q := p + Width(code[0]);
    assert code[1..][k - 1] == code[k];
    assert p + OffsetOf(code, k) == q + OffsetOf(code[1..], k - 1);
    assert p + OffsetOf(code, k + 1) == q + OffsetOf(code[1..], k);
  }

  /** Decoding at the offset of any instruction of an encoded stream yields that
      instruction and the offset of the next one. */
  lemma DecodeStream(prefix: seq<byte>, code: seq<Instr>, suffix: seq<byte>, k: nat)
    requires k < |code|
    ensures DecodeAt(prefix + EncodeAll(code) + suffix, |prefix| + OffsetOf(code, k))
            == Ok(Decoded(code[k], |prefix| + OffsetOf(code, k + 1)))
  {
    var prog := prefix + EncodeAll(code) + suffix;
    var pc, next := |prefix| + OffsetOf(code, k), |prefix| + OffsetOf(code, k + 1);
    assert pc <= next <= |prog| && prog[pc..next] == Encode(code[k]) by {
      LaidOutBetween(prefix, code, suffix);
      InstrLaidOut(prog, |prefix|, code, k);
    }
    DecodeEncoded(prog, pc, next, code[k]);
  }

  lemma SingleEncoding(i: Instr)
    ensures EncodeAll([i]) == Encode(i)
  {
    assert [i][1..] == [];
  }

  /** Appending instructions moves none of the earlier ones. */
  lemma {:induction false} OffsetPrefix(a: seq<Instr>, b: seq<Instr>, k: nat)
    requires k <= |a|
    ensures OffsetOf(a + b, k) == OffsetOf(a, k)
    decreases k
  {
    if k > 0 {
      assert (a + b)[1..] == a[1..] + b;
      OffsetPrefix(a[1..], b, k - 1);
    }
  }

  /** The position just past the last instruction is the size of the stream. */
  lemma {:induction false} OffsetEnd(a: seq<Instr>)
    ensures OffsetOf(a, |a|) == Size(a)
    decreases |a|
  {
    if |a| > 0 {
      OffsetEnd(a[1..]);
    }
  }

  /** Each instruction starts where the previous one ends. */
  lemma {:induction false} OffsetNext(a: seq<Instr>, k: nat)
    requires k < |a|
    ensures OffsetOf(a, k + 1) == OffsetOf(a, k) + Width(a[k])
    decreases k
  {
    if k > 0 {
      OffsetNext(a[1..], k - 1);
    }
  }

  /** No instruction starts past the end of the stream. */
  lemma {:induction false} OffsetWithin(a: seq<Instr>, k: nat)
    requires k <= |a|
    ensures OffsetOf(a, k) <= Size(a)
    decreases k
  {
    if k > 0 {
      OffsetWithin(a[1..], k - 1);
    }
  }

  /** Replacing an instruction by one of the same width moves no instruction. */
  lemma {:induction false} OffsetSameWidth(a: seq<Instr>, j: nat, x: Instr, k: nat)
    requires j < |a| && Width(x) == Width(a[j]) && k <= |a|
    ensures OffsetOf(a[j := x], k) == OffsetOf(a, k)
    decreases k
  {
    if k > 0 && j > 0 {
      assert a[j := x][1..] == a[1..][j - 1 := x];
      OffsetSameWidth(a[1..], j - 1, x, k - 1);
    } else if k > 0 {
      assert a[j := x][1..] == a[1..];
    }
  }

  /** The bytes of a stream around its instruction `k`, which starts at
      `OffsetOf(code, k)`. */
  lemma EncodeAllAround(code: seq<Instr>, k: nat)
    requires k < |code|
    ensures EncodeAll(code) == EncodeAll(code[..k]) + Encode(code[k]) + EncodeAll(code[k + 1..])
    ensures |EncodeAll(code[..k])| == OffsetOf(code, k)
  {
    assert code == code[..k] + ([code[k]] + code[k + 1..]);
    EncodeAllAppend(code[..k], [code[k]] + code[k + 1..]);
    EncodeAllAppend([code[k]], code[k + 1..]);
    SingleEncoding(code[k]);
    EncodeAllSize(code[..k]);
    OffsetPrefix(code[..k], [code[k]] + code[k + 1..], k);
    OffsetEnd(code[..k]);
  }

  /** Later instructions start no earlier. */
  lemma {:induction false} OffsetMono(a: seq<Instr>, i: nat, k: nat)
    requires i <= k <= |a|
    ensures OffsetOf(a, i) <= OffsetOf(a, k)
    decreases i
  {
    if i > 0 {
      OffsetMono(a[1..], i - 1, k - 1);
    }
  }
}
