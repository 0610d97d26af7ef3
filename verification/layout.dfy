/** The output of `compile` (src/compiler.rs) read at the level of whole
    instructions. After the header the buffer is always the encoding of a
    stream of instructions; every pending cross-reference names the branch
    instruction whose operand it will patch; and each patch only changes the
    target of that one instruction. The stream is built by `PlanStep`, the
    compiler loop restated over instructions instead of bytes. Every branch it
    resolves points forward, to the start of a later instruction or to the
    trailing `Exit`. */
module Layout {
  import opened Bytes
  import opened Results
  import opened Isa
  import Lexer
  import opened Compiler

  /** A compiler state read as instructions: the stream written after the
      header, and for every pending cross-reference, bottom first, the index
      of the branch it names. */
  datatype Plan = Plan(instrs: seq<Instr>, opens: seq<nat>)

  predicate IsBranch(i: Instr) {
    i.If? || i.Jump?
  }

  /** The same branch with another target. */
  function Retarget(i: Instr, v: u64): (r: Instr)
    requires IsBranch(i)
    ensures IsBranch(r) && r.If? == i.If? && r.target == v
    ensures Width(r) == Width(i)
  {
    if i.If? then Instr.If(v) else Instr.Jump(v)
  }

  /** Cross-reference `x` names the operand of instruction `j` of a stream
      laid out right after the header: an `if` entry an `If`, an `else` entry
      a `Jump`. */
  predicate Names(x: XRef, code: seq<Instr>, j: nat) {
    && j < |code|
    && x.at == CODE_START as nat + OffsetOf(code, j) + 1
    && ((x.kind.If? && code[j].If?) || (x.kind.Else? && code[j].Jump?))
  }

  /** Each cross-reference names the branch at the matching plan index. */
  predicate AllNamed(xrefs: seq<XRef>, p: Plan) {
    && |xrefs| == |p.opens|
    && forall i :: 0 <= i < |p.opens| ==> Names(xrefs[i], p.instrs, p.opens[i])
  }

  /** The byte state `st` is the plan `p` laid out after the eight-byte `hdr`. */
  predicate Mirrors(st: Asm, hdr: seq<byte>, p: Plan) {
    && |hdr| == CODE_START as nat
    && st.code == hdr + EncodeAll(p.instrs)
    && AllNamed(st.xrefs, p)
  }

  /** Every pending index names a branch of the stream. */
  predicate Shaped(p: Plan) {
    forall i :: 0 <= i < |p.opens| ==> p.opens[i] < |p.instrs| && IsBranch(p.instrs[p.opens[i]])
  }

  /** What `PlanStep` needs: a shaped plan, an open construct for `else` and
      `end`, a known routine for a call, and room for the targets. */
  predicate Steppable(p: Plan, op: Op) {
    && Shaped(p)
    && ((op.Else? || op.End?) ==> |p.opens| > 0)
    && (op.Call? ==> op.name in FUNCTION_IDS)
    && CODE_START as nat + Size(p.instrs) + OpWidth(op) <= MAX_VEC_LEN
  }

  /** One iteration of the compiler loop over instructions. `if` adds a branch
      and opens it; `else` adds a jump, sends the open branch just past it and
      opens the jump; `end` sends the open branch to the next instruction;
      anything else adds its instruction. */
  function PlanStep(p: Plan, op: Op): (q: Plan)
    requires Steppable(p, op)
  {
    var here := CODE_START as nat + Size(p.instrs);
    match op
    case If => Plan(p.instrs + [Instr.If(0)], p.opens + [|p.instrs|])
    case Else =>
      var j := p.opens[|p.opens| - 1];
      Plan((p.instrs + [Instr.Jump(0)])[j := Retarget(p.instrs[j], here + 9)],
           p.opens[..|p.opens| - 1] + [|p.instrs|])
    case End =>
      var j := p.opens[|p.opens| - 1];
      Plan(p.instrs[j := Retarget(p.instrs[j], here)], p.opens[..|p.opens| - 1])
    case _ => Plan(p.instrs + [PlainInstr(op)], p.opens)
  }

  /** Branch `j` targets the start of a later instruction, or the position
      just past the stream, where the compiler puts `Exit`. */
  predicate Lands(code: seq<Instr>, j: nat)
    requires j < |code| && IsBranch(code[j])
  {
    exists m :: j < m <= |code| && code[j].target as int == CODE_START as int + OffsetOf(code, m)
  }

  /** Every branch is either still pending with its zero placeholder or lands. */
  predicate Resolved(p: Plan) {
    forall j :: 0 <= j < |p.instrs| && IsBranch(p.instrs[j]) ==>
      (j in p.opens && p.instrs[j].target == 0) || Lands(p.instrs, j)
  }

  // ---------------------------------------------------------------------------
  // Branches only ever point forward
  // ---------------------------------------------------------------------------

  /** Adding an instruction at the end keeps every branch landing; a new
      branch must come in pending. */
  lemma AppendResolved(p: Plan, x: Instr, opens: seq<nat>)
    requires Resolved(p)
    requires IsBranch(x) ==> x.target == 0 && |p.instrs| in opens
    requires forall j :: j in p.opens ==> j in opens
    ensures Resolved(Plan(p.instrs + [x], opens))
  {
    var code := p.instrs + [x];
    forall j | 0 <= j < |code| && IsBranch(code[j])
      ensures (j in opens && code[j].target == 0) || Lands(code, j)
    {
      if j < |p.instrs| && Lands(p.instrs, j) {
        var m :| j < m <= |p.instrs| && p.instrs[j].target as int == CODE_START as int + OffsetOf(p.instrs, m);
        OffsetPrefix(p.instrs, [x], m);
        assert code[j] == p.instrs[j];
      }
    }
  }

  /** Sending branch `k` to the start of a later instruction `m` keeps every
      other branch as it was; the pending list may drop `k`. */
  lemma RetargetResolved(p: Plan, k: nat, m: nat, v: u64, opens: seq<nat>)
    requires Resolved(p) && k < m <= |p.instrs| && IsBranch(p.instrs[k])
    requires v as int == CODE_START as int + OffsetOf(p.instrs, m)
    requires forall j :: j in p.opens && j != k ==> j in opens
    ensures Resolved(Plan(p.instrs[k := Retarget(p.instrs[k], v)], opens))
  {
    var code := p.instrs[k := Retarget(p.instrs[k], v)];
    forall j | 0 <= j < |code| && IsBranch(code[j])
      ensures (j in opens && code[j].target == 0) || Lands(code, j)
    {
      if j == k {
        OffsetSameWidth(p.instrs, k, Retarget(p.instrs[k], v), m);
      } else if Lands(p.instrs, j) {
        var n :| j < n <= |p.instrs| && p.instrs[j].target as int == CODE_START as int + OffsetOf(p.instrs, n);
        OffsetSameWidth(p.instrs, k, Retarget(p.instrs[k], v), n);
      }
    }
  }

  lemma IfResolved(p: Plan)
    requires Steppable(p, Lexer.If) && Resolved(p)
    ensures Resolved(PlanStep(p, Lexer.If))
  {
    AppendResolved(p, Instr.If(0), p.opens + [|p.instrs|]);
  }

  lemma ElseResolved(p: Plan)
    requires Steppable(p, Lexer.Else) && Resolved(p)
    ensures Resolved(PlanStep(p, Lexer.Else))
  {
    var j := p.opens[|p.opens| - 1];
    var rest := p.opens[..|p.opens| - 1] + [|p.instrs|];
    var v := (CODE_START as nat + Size(p.instrs) + 9) as u64;
    var wide := Plan(p.instrs + [Instr.Jump(0)], p.opens + [|p.instrs|]);
    assert PlanStep(p, Lexer.Else) == Plan(wide.instrs[j := Retarget(wide.instrs[j], v)], rest);
    assert Resolved(wide) by {
      AppendResolved(p, Instr.Jump(0), wide.opens);
    }
    assert v as int == CODE_START as int + OffsetOf(wide.instrs, |wide.instrs|) by {
      OffsetPastLast(p.instrs, Instr.Jump(0));
    }
    assert forall i :: i in wide.opens && i != j ==> i in rest by {
      assert p.opens == p.opens[..|p.opens| - 1] + [j];
    }
    RetargetResolved(wide, j, |wide.instrs|, v, rest);
  }

  lemma EndResolved(p: Plan)
    requires Steppable(p, Lexer.End) && Resolved(p)
    ensures Resolved(PlanStep(p, Lexer.End))
  {
    var j := p.opens[|p.opens| - 1];
    var rest := p.opens[..|p.opens| - 1];
    OffsetEnd(p.instrs);
    assert forall i :: i in p.opens && i != j ==> i in rest by {
      assert p.opens == rest + [j];
    }
    RetargetResolved(p, j, |p.instrs|, (CODE_START as nat + Size(p.instrs)) as u64, rest);
  }

  /** Every step keeps every branch pending or landing. */
  lemma PlanStepResolved(p: Plan, op: Op)
    requires Steppable(p, op) && Resolved(p)
    ensures Resolved(PlanStep(p, op))
  {
    match op
    case If => IfResolved(p);
    case Else => ElseResolved(p);
    case End => EndResolved(p);
    case _ => AppendResolved(p, PlainInstr(op), p.opens);
  }

  /** Every call in the stream names a routine of the compiler's table. */
  predicate KnownCalls(code: seq<Instr>) {
    forall j :: 0 <= j < |code| && code[j].Call? ==> code[j].id in FUNCTION_IDS.Values
  }

  /** A step only ever adds calls to routines of the table. */
  lemma PlanStepKnown(p: Plan, op: Op)
    requires Steppable(p, op) && KnownCalls(p.instrs)
    ensures KnownCalls(PlanStep(p, op).instrs)
  {
    var q := PlanStep(p, op);
    forall j | 0 <= j < |q.instrs| && q.instrs[j].Call?
      ensures q.instrs[j].id in FUNCTION_IDS.Values
    {
      if j < |p.instrs| && q.instrs[j] == p.instrs[j] {
      } else if op.Call? {
        assert q.instrs == p.instrs + [PlainInstr(op)];
        assert q.instrs[j] == Instr.Call(FUNCTION_IDS[op.name]);
      }
    }
  }

  /** The position past an appended instruction. */
  lemma OffsetPastLast(code: seq<Instr>, x: Instr)
    ensures OffsetOf(code + [x], |code| + 1) == Size(code) + Width(x)
  {
    OffsetNext(code + [x], |code|);
    OffsetPrefix(code, [x], |code|);
    OffsetEnd(code);
  }

  // ---------------------------------------------------------------------------
  // The bytes follow the plan
  // ---------------------------------------------------------------------------

  /** Appending an instruction's bytes appends the instruction. */
  lemma AppendBytes(hdr: seq<byte>, code: seq<Instr>, x: Instr)
    ensures hdr + EncodeAll(code) + Encode(x) == hdr + EncodeAll(code + [x])
  {
    EncodeAllAppend(code, [x]);
    SingleEncoding(x);
    AppendAssoc(hdr, EncodeAll(code), Encode(x));
  }

  /** Writing `v` over the operand of a branch gives that branch target `v`. */
  lemma PatchBranch(pre: seq<byte>, b: Instr, post: seq<byte>, v: u64, s: seq<byte>, t: seq<byte>, at: nat)
    requires IsBranch(b) && at == |pre| + 1
    requires s == pre + Encode(b) + post && t == pre + Encode(Retarget(b, v)) + post
    ensures at + 8 <= |s|
    ensures Patch(s, at, v) == t
  {
    var r := Patch(s, at, v);
    PatchKeeps(s, at, v);
    forall k | 0 <= k < |r|
      ensures r[k] == t[k]
    {
      if at <= k < at + 8 {
        assert r[k] == r[at..at + 8][k - at];
        assert t[k] == Encode(Retarget(b, v))[k - |pre|];
      } else if k < at {
        assert r[k] == s[k];
      } else {
        assert r[k] == s[k];
      }
    }
  }

  /** A laid-out stream around its instruction `k`. */
  lemma Around(hdr: seq<byte>, code: seq<Instr>, k: nat)
    requires k < |code|
    ensures hdr + EncodeAll(code) == (hdr + EncodeAll(code[..k])) + Encode(code[k]) + EncodeAll(code[k + 1..])
    ensures |hdr + EncodeAll(code[..k])| == |hdr| + OffsetOf(code, k)
  {
    EncodeAllAround(code, k);
    AppendAssoc(hdr, EncodeAll(code[..k]) + Encode(code[k]), EncodeAll(code[k + 1..]));
    AppendAssoc(hdr, EncodeAll(code[..k]), Encode(code[k]));
  }

  /** Patching the operand of branch `k` of a laid-out stream retargets
      instruction `k` and leaves every other instruction where it was. */
  lemma PatchBytes(hdr: seq<byte>, code: seq<Instr>, k: nat, at: nat, v: u64)
    requires k < |code| && IsBranch(code[k]) && at == |hdr| + OffsetOf(code, k) + 1
    ensures at + 8 <= |hdr + EncodeAll(code)|
    ensures Patch(hdr + EncodeAll(code), at, v) == hdr + EncodeAll(code[k := Retarget(code[k], v)])
  {
    var b := code[k];
    var code' := code[k := Retarget(b, v)];
    var pre, post := hdr + EncodeAll(code[..k]), EncodeAll(code[k + 1..]);
    assert hdr + EncodeAll(code) == pre + Encode(b) + post && |pre| + 1 == at by {
      Around(hdr, code, k);
    }
    assert hdr + EncodeAll(code') == pre + Encode(Retarget(b, v)) + post by {
      Around(hdr, code', k);
      assert code'[..k] == code[..k] && code'[k + 1..] == code[k + 1..];
    }
    PatchBranch(pre, b, post, v, hdr + EncodeAll(code), hdr + EncodeAll(code'), at);
  }

  lemma NamedAppend(xrefs: seq<XRef>, p: Plan, x: Instr)
    requires AllNamed(xrefs, p)
    ensures AllNamed(xrefs, Plan(p.instrs + [x], p.opens))
  {
    forall i | 0 <= i < |p.opens|
      ensures Names(xrefs[i], p.instrs + [x], p.opens[i])
    {
      OffsetPrefix(p.instrs, [x], p.opens[i]);
      assert (p.instrs + [x])[p.opens[i]] == p.instrs[p.opens[i]];
    }
  }

  lemma NamedRetarget(xrefs: seq<XRef>, p: Plan, k: nat, v: u64)
    requires AllNamed(xrefs, p) && k < |p.instrs| && IsBranch(p.instrs[k])
    ensures AllNamed(xrefs, Plan(p.instrs[k := Retarget(p.instrs[k], v)], p.opens))
  {
    forall i | 0 <= i < |p.opens|
      ensures Names(xrefs[i], p.instrs[k := Retarget(p.instrs[k], v)], p.opens[i])
    {
      OffsetSameWidth(p.instrs, k, Retarget(p.instrs[k], v), p.opens[i]);
    }
  }

  lemma NamedPush(xrefs: seq<XRef>, p: Plan, x: XRef, j: nat)
    requires AllNamed(xrefs, p) && Names(x, p.instrs, j)
    ensures AllNamed(xrefs + [x], Plan(p.instrs, p.opens + [j]))
  {
  }

  lemma NamedPop(xrefs: seq<XRef>, p: Plan)
    requires AllNamed(xrefs, p) && |p.opens| > 0
    ensures AllNamed(Pop(xrefs), Plan(p.instrs, p.opens[..|p.opens| - 1]))
  {
  }

  lemma MirrorsShaped(st: Asm, hdr: seq<byte>, p: Plan)
    requires Mirrors(st, hdr, p)
    ensures Shaped(p)
    ensures |st.code| == CODE_START as nat + Size(p.instrs)
  {
    EncodeAllSize(p.instrs);
    assert forall i :: 0 <= i < |p.opens| ==> Names(st.xrefs[i], p.instrs, p.opens[i]);
  }

  lemma IfMirrors(st: Asm, hdr: seq<byte>, p: Plan)
    requires Valid(st) && Mirrors(st, hdr, p) && CompileIf(st).Ok?
    ensures Steppable(p, Lexer.If)
    ensures Mirrors(CompileIf(st).value, hdr, PlanStep(p, Lexer.If))
  {
    MirrorsShaped(st, hdr, p);
    var code := p.instrs + [Instr.If(0)];
    AppendBytes(hdr, p.instrs, Instr.If(0));
    NamedAppend(st.xrefs, p, Instr.If(0));
    OffsetPrefix(p.instrs, [Instr.If(0)], |p.instrs|);
    OffsetEnd(p.instrs);
    NamedPush(st.xrefs, Plan(code, p.opens), XRef(Lexer.If, |st.code| + 1), |p.instrs|);
  }

  /** The buffer and stack `end` leaves. */
  lemma EndBytes(st: Asm)
    requires Valid(st) && CompileEnd(st).Ok?
    ensures Top(st.xrefs).at + 8 <= |st.code|
    ensures CompileEnd(st).value == Asm(Patch(st.code, Top(st.xrefs).at, |st.code|), Pop(st.xrefs))
  {
  }

  /** Patching the open field with the current length and popping it is the
      plan's `end`. */
  lemma EndLayout(st: Asm, hdr: seq<byte>, p: Plan, r: Asm)
    requires Valid(st) && Mirrors(st, hdr, p) && Steppable(p, Lexer.End)
    requires Top(st.xrefs).at + 8 <= |st.code|
    requires r == Asm(Patch(st.code, Top(st.xrefs).at, |st.code|), Pop(st.xrefs))
    ensures Mirrors(r, hdr, PlanStep(p, Lexer.End))
  {
    MirrorsShaped(st, hdr, p);
    var j := p.opens[|p.opens| - 1];
    var v := |st.code| as u64;
    var patched := Plan(p.instrs[j := Retarget(p.instrs[j], v)], p.opens);
    var q := Plan(patched.instrs, p.opens[..|p.opens| - 1]);
    assert PlanStep(p, Lexer.End) == q;
    assert r.code == hdr + EncodeAll(q.instrs) by {
      assert Names(Top(st.xrefs), p.instrs, j);
      PatchBytes(hdr, p.instrs, j, Top(st.xrefs).at, v);
    }
    assert AllNamed(r.xrefs, q) by {
      NamedRetarget(st.xrefs, p, j, v);
      NamedPop(st.xrefs, patched);
    }
  }

  lemma EndMirrors(st: Asm, hdr: seq<byte>, p: Plan)
    requires Valid(st) && Mirrors(st, hdr, p) && CompileEnd(st).Ok?
    ensures Steppable(p, Lexer.End)
    ensures Mirrors(CompileEnd(st).value, hdr, PlanStep(p, Lexer.End))
  {
    MirrorsShaped(st, hdr, p);
    EndBytes(st);
    EndLayout(st, hdr, p, CompileEnd(st).value);
  }

  /** The buffer and stack `else` leaves: a jump appended, the open field
      patched, and the jump's field opened. */
  lemma ElseBytes(st: Asm)
    requires Valid(st) && CompileElse(st).Ok?
    ensures Top(st.xrefs).at + 8 <= |st.code| && |st.code| + 9 <= MAX_VEC_LEN
    ensures CompileElse(st).value
            == Asm(Patch(st.code + Encode(Instr.Jump(0)), Top(st.xrefs).at, |st.code| + 9),
                   Pop(st.xrefs) + [XRef(Lexer.Else, |st.code| + 1)])
  {
  }

  /** The buffer of `else`: an instruction appended, then the operand of an
      earlier branch patched. */
  lemma AppendThenPatch(hdr: seq<byte>, code: seq<Instr>, x: Instr, j: nat, at: nat, v: u64)
    requires j < |code| && IsBranch(code[j]) && at == |hdr| + OffsetOf(code, j) + 1
    ensures at + 8 <= |hdr + EncodeAll(code) + Encode(x)|
    ensures Patch(hdr + EncodeAll(code) + Encode(x), at, v)
            == hdr + EncodeAll((code + [x])[j := Retarget(code[j], v)])
  {
    AppendBytes(hdr, code, x);
    OffsetPrefix(code, [x], j);
    assert (code + [x])[j] == code[j];
    PatchBytes(hdr, code + [x], j, at, v);
  }

  /** The stack of `else`: the open branch is dropped and the new jump, at
      index `|p.instrs|`, opened. */
  lemma ElseNamed(xrefs: seq<XRef>, p: Plan, v: u64, at: nat)
    requires AllNamed(xrefs, p) && Shaped(p) && |p.opens| > 0
    requires at == CODE_START as nat + Size(p.instrs) + 1
    ensures AllNamed(Pop(xrefs) + [XRef(Lexer.Else, at)],
                     Plan((p.instrs + [Instr.Jump(0)])[p.opens[|p.opens| - 1] := Retarget(p.instrs[p.opens[|p.opens| - 1]], v)],
                          p.opens[..|p.opens| - 1] + [|p.instrs|]))
  {
    var j := p.opens[|p.opens| - 1];
    var wide := Plan(p.instrs + [Instr.Jump(0)], p.opens);
    var code := wide.instrs[j := Retarget(p.instrs[j], v)];
    NamedAppend(xrefs, p, Instr.Jump(0));
    assert wide.instrs[j] == p.instrs[j];
    NamedRetarget(xrefs, wide, j, v);
    NamedPop(xrefs, Plan(code, p.opens));
    OffsetSameWidth(wide.instrs, j, Retarget(p.instrs[j], v), |p.instrs|);
    OffsetPrefix(p.instrs, [Instr.Jump(0)], |p.instrs|);
    OffsetEnd(p.instrs);
    assert code[|p.instrs|] == Instr.Jump(0);
    NamedPush(Pop(xrefs), Plan(code, p.opens[..|p.opens| - 1]), XRef(Lexer.Else, at), |p.instrs|);
  }

  /** Appending a jump, patching the open field past it and opening the jump
      is the plan's `else`. */
  lemma ElseLayout(st: Asm, hdr: seq<byte>, p: Plan, r: Asm)
    requires Valid(st) && Mirrors(st, hdr, p) && Steppable(p, Lexer.Else)
    requires Top(st.xrefs).at + 8 <= |st.code| && |st.code| + 9 <= MAX_VEC_LEN
    requires r == Asm(Patch(st.code + Encode(Instr.Jump(0)), Top(st.xrefs).at, |st.code| + 9),
                      Pop(st.xrefs) + [XRef(Lexer.Else, |st.code| + 1)])
    ensures Mirrors(r, hdr, PlanStep(p, Lexer.Else))
  {
    MirrorsShaped(st, hdr, p);
    var j := p.opens[|p.opens| - 1];
    var v := (|st.code| + 9) as u64;
    var q := Plan((p.instrs + [Instr.Jump(0)])[j := Retarget(p.instrs[j], v)], p.opens[..|p.opens| - 1] + [|p.instrs|]);
    assert PlanStep(p, Lexer.Else) == q;
    assert r.code == hdr + EncodeAll(q.instrs) by {
      assert Names(Top(st.xrefs), p.instrs, j);
      AppendThenPatch(hdr, p.instrs, Instr.Jump(0), j, Top(st.xrefs).at, v);
    }
    assert AllNamed(r.xrefs, q) by {
      ElseNamed(st.xrefs, p, v, |st.code| + 1);
    }
  }

  lemma ElseMirrors(st: Asm, hdr: seq<byte>, p: Plan)
    requires Valid(st) && Mirrors(st, hdr, p) && CompileElse(st).Ok?
    ensures Steppable(p, Lexer.Else)
    ensures Mirrors(CompileElse(st).value, hdr, PlanStep(p, Lexer.Else))
  {
    MirrorsShaped(st, hdr, p);
    ElseBytes(st);
    ElseLayout(st, hdr, p, CompileElse(st).value);
  }

  lemma PlainMirrors(st: Asm, hdr: seq<byte>, p: Plan, op: Op)
    requires Valid(st) && Mirrors(st, hdr, p) && IsPlain(op) && CompileOp(st, op).Ok?
    ensures Steppable(p, op)
    ensures Mirrors(CompileOp(st, op).value, hdr, PlanStep(p, op))
  {
    MirrorsShaped(st, hdr, p);
    assert CompileOp(st, op).value == Asm(st.code + Encode(PlainInstr(op)), st.xrefs);
    AppendBytes(hdr, p.instrs, PlainInstr(op));
    NamedAppend(st.xrefs, p, PlainInstr(op));
  }

  /** Each compiled operation is the plan's step laid out in bytes. */
  lemma StepMirrors(st: Asm, hdr: seq<byte>, p: Plan, op: Op)
    requires Valid(st) && Mirrors(st, hdr, p) && CompileOp(st, op).Ok?
    ensures Steppable(p, op)
    ensures Mirrors(CompileOp(st, op).value, hdr, PlanStep(p, op))
  {
    match op
    case If => IfMirrors(st, hdr, p);
    case Else => ElseMirrors(st, hdr, p);
    case End => EndMirrors(st, hdr, p);
    case _ => PlainMirrors(st, hdr, p, op);
  }

  // ---------------------------------------------------------------------------
  // The whole program
  // ---------------------------------------------------------------------------

  /** The whole loop: a state that mirrors a plan whose branches all pend or
      land ends in a state that mirrors such a plan. */
  lemma {:induction false} AssembleMirrors(st: Asm, hdr: seq<byte>, p: Plan, ops: seq<Op>) returns (q: Plan)
    requires Valid(st) && Mirrors(st, hdr, p) && Resolved(p) && KnownCalls(p.instrs)
    requires AssembleFrom(st, ops).Ok?
    ensures Mirrors(AssembleFrom(st, ops).value, hdr, q) && Resolved(q) && KnownCalls(q.instrs)
    decreases |ops|
  {
    if |ops| == 0 {
      q := p;
    } else {
      StepMirrors(st, hdr, p, ops[0]);
      PlanStepResolved(p, ops[0]);
      PlanStepKnown(p, ops[0]);
      q := AssembleMirrors(CompileOp(st, ops[0]).value, hdr, PlanStep(p, ops[0]), ops[1..]);
    }
  }

  lemma StartMirrors()
    ensures Mirrors(Start(), Start().code, Plan([], []))
    ensures Resolved(Plan([], [])) && KnownCalls([])
  {
    assert Start().code + EncodeAll([]) == Start().code;
  }

  /** The checks `compile` makes before an operation, read off the plan: room
      in the buffer, an open construct for `else` and `end`, an open `if`
      (not an `else`) for `else`, and a known routine for a call. */
  predicate PlanOk(p: Plan, op: Op) {
    && Steppable(p, op)
    && (op.Else? ==> p.instrs[p.opens[|p.opens| - 1]].If?)
  }

  /** The compiler loop over instructions: the plan of the whole text, or
      `None` where `compile` would stop. */
  function PlanFrom(p: Plan, ops: seq<Op>): Option<Plan>
    decreases |ops|
  {
    if |ops| == 0 then Some(p)
    else if !PlanOk(p, ops[0]) then None
    else PlanFrom(PlanStep(p, ops[0]), ops[1..])
  }

  /** An operation compiles exactly when the plan allows it. */
  lemma CompilableIff(st: Asm, hdr: seq<byte>, p: Plan, op: Op)
    requires Valid(st) && Mirrors(st, hdr, p)
    ensures Compilable(st, op) <==> PlanOk(p, op)
  {
    MirrorsShaped(st, hdr, p);
    if |p.opens| > 0 {
      assert Names(Top(st.xrefs), p.instrs, p.opens[|p.opens| - 1]);
    }
  }

  /** The byte-level loop of `compile` succeeds exactly when the plan-level
      loop does, and then writes the plan laid out after the header. */
  lemma {:induction false} AssemblePlanned(st: Asm, hdr: seq<byte>, p: Plan, ops: seq<Op>)
    requires Valid(st) && Mirrors(st, hdr, p)
    ensures AssembleFrom(st, ops).Ok? <==> PlanFrom(p, ops).Some?
    ensures AssembleFrom(st, ops).Ok? ==> Mirrors(AssembleFrom(st, ops).value, hdr, PlanFrom(p, ops).value)
    decreases |ops|
  {
    if |ops| > 0 {
      CompilableIff(st, hdr, p, ops[0]);
      if CompileOp(st, ops[0]).Ok? {
        StepMirrors(st, hdr, p, ops[0]);
        AssemblePlanned(CompileOp(st, ops[0]).value, hdr, PlanStep(p, ops[0]), ops[1..]);
      }
    }
  }

  /** `compile` of a whole text, read over instructions: it succeeds exactly
      when the plan does and the plan and the final `Exit` fit in a `Vec`, and
      it then writes the header, the plan's instructions and `Exit`. */
  lemma AssembleByPlan(ops: seq<Op>)
    ensures Assemble(ops).Ok? <==>
              PlanFrom(Plan([], []), ops).Some?
              && CODE_START as nat + Size(PlanFrom(Plan([], []), ops).value.instrs) + 1 <= MAX_VEC_LEN
    ensures Assemble(ops).Ok? ==>
              Assemble(ops).value
              == EncodeU64(CODE_START) + EncodeAll(PlanFrom(Plan([], []), ops).value.instrs) + [EXIT]
  {
    StartMirrors();
    AssemblePlanned(Start(), Start().code, Plan([], []), ops);
    if AssembleFrom(Start(), ops).Ok? {
      MirrorsShaped(AssembleFrom(Start(), ops).value, Start().code, PlanFrom(Plan([], []), ops).value);
    }
  }

  /** `prog` is the header, the stream `code` and a final `Exit`. */
  predicate Stream(prog: seq<byte>, code: seq<Instr>) {
    prog == EncodeU64(CODE_START) + EncodeAll(code) + [EXIT]
  }

  /** `compile` of source text, read over instructions: it fails when lexing
      fails, reporting that failure; otherwise it succeeds exactly when the
      plan of the lexed operations succeeds and fits with the header and
      `Exit`, and it then writes the header, that plan's stream and `Exit`. */
  lemma CompileLaysOut(text: string)
    ensures Lexer.Lex(text).Err? ==> Compile(text) == Err(LexFailed(Lexer.Lex(text).error))
    ensures Lexer.Lex(text).Ok? ==>
              var p := PlanFrom(Plan([], []), Lexer.Lex(text).value);
              && (Compile(text).Ok? <==> p.Some? && CODE_START as nat + Size(p.value.instrs) + 1 <= MAX_VEC_LEN)
              && (Compile(text).Ok? ==> p.Some? && Stream(Compile(text).value, p.value.instrs))
  {
    if Lexer.Lex(text).Ok? {
      AssembleByPlan(Lexer.Lex(text).value);
    }
  }

  /** Every branch of the stream lands. */
  predicate AllLand(code: seq<Instr>) {
    forall j :: 0 <= j < |code| && IsBranch(code[j]) ==> Lands(code, j)
  }

  /** What `compile` writes is the header, a stream of instructions and the
      final `Exit`, and every branch in the stream either lands or still
      holds the zero placeholder of a construct the text left open. */
  lemma CompiledStream(ops: seq<Op>, prog: seq<byte>)
    requires Assemble(ops) == Ok(prog)
    ensures exists p: Plan :: Stream(prog, p.instrs) && Resolved(p) && KnownCalls(p.instrs)
                              && |p.opens| == Depth(ops)
  {
    StartMirrors();
    var p := AssembleMirrors(Start(), Start().code, Plan([], []), ops);
    AssembleDepth(Start(), ops);
    assert Stream(prog, p.instrs);
  }

  /** For a text that closes every construct it opens, every `If` and `Jump`
      the compiler writes lands on a later instruction or on the `Exit`. */
  lemma BalancedBranchesLand(ops: seq<Op>, prog: seq<byte>)
    requires Assemble(ops) == Ok(prog) && Depth(ops) == 0
    ensures exists code: seq<Instr> :: Stream(prog, code) && AllLand(code) && KnownCalls(code)
  {
    CompiledStream(ops, prog);
    var p: Plan :| Stream(prog, p.instrs) && Resolved(p) && KnownCalls(p.instrs) && |p.opens| == 0;
    assert AllLand(p.instrs);
  }

  /** The final `Exit` decodes where the stream ends. */
  lemma ExitDecodes(prog: seq<byte>, hdr: seq<byte>, code: seq<Instr>, pc: nat)
    requires prog == hdr + EncodeAll(code) + [EXIT] && pc == |hdr| + Size(code)
    ensures pc < |prog| && DecodeAt(prog, pc) == Ok(Decoded(Instr.Exit, pc + 1))
  {
    EncodeAllSize(code);
    assert prog[pc..pc + 1] == [EXIT];
    DecodeEncoded(prog, pc, pc + 1, Instr.Exit);
  }

  /** Any instruction of the stream decodes where it starts. */
  lemma InstrDecodes(prog: seq<byte>, hdr: seq<byte>, code: seq<Instr>, m: nat)
    requires prog == hdr + EncodeAll(code) + [EXIT] && m < |code|
    ensures |hdr| + OffsetOf(code, m) < |prog| && DecodeAt(prog, |hdr| + OffsetOf(code, m)).Ok?
  {
    DecodeStream(hdr, code, [EXIT], m);
  }

  /** A landing branch of a stream laid out after any eight-byte header. */
  lemma LandsAfter(prog: seq<byte>, hdr: seq<byte>, code: seq<Instr>, j: nat)
    requires prog == hdr + EncodeAll(code) + [EXIT] && |hdr| == CODE_START as nat
    requires j < |code| && IsBranch(code[j]) && Lands(code, j)
    ensures CODE_START as nat + OffsetOf(code, j + 1) <= code[j].target as nat < |prog|
    ensures DecodeAt(prog, code[j].target as nat).Ok?
  {
    var t := code[j].target as nat;
    var m :| j < m <= |code| && t == CODE_START as int + OffsetOf(code, m);
    assert CODE_START as nat + OffsetOf(code, j + 1) <= t by {
      OffsetMono(code, j + 1, m);
    }
    BoundaryDecodes(prog, hdr, code, m, t);
  }

  /** Every instruction boundary of the stream, the end included, decodes. */
  lemma BoundaryDecodes(prog: seq<byte>, hdr: seq<byte>, code: seq<Instr>, m: nat, t: nat)
    requires prog == hdr + EncodeAll(code) + [EXIT]
    requires m <= |code| && t == |hdr| + OffsetOf(code, m)
    ensures t < |prog| && DecodeAt(prog, t).Ok?
  {
    if m < |code| {
      InstrDecodes(prog, hdr, code, m);
    } else {
      OffsetEnd(code);
      ExitDecodes(prog, hdr, code, t);
    }
  }

  /** A landing branch points forward, past its own bytes and no further than
      the `Exit`, and the runtime can decode an instruction where it lands. */
  lemma LandingDecodes(prog: seq<byte>, code: seq<Instr>, j: nat)
    requires Stream(prog, code) && j < |code| && IsBranch(code[j]) && Lands(code, j)
    ensures CODE_START as nat + OffsetOf(code, j + 1) <= code[j].target as nat < |prog|
    ensures DecodeAt(prog, code[j].target as nat).Ok?
  {
    LandsAfter(prog, EncodeU64(CODE_START), code, j);
  }
}
