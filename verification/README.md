# PushScript in Dafny

PushScript is a small stack language. Its compiler (`src/compiler.rs`) reads source text and writes a binary program. Its interpreter (`src/runtime/mod.rs`) runs that program on a stack of `i64` values and a byte heap.

The compiler works in two stages:
- `lex` splits the text on whitespace and classifies each token as an `OP`.
- `compile` writes an eight-byte little-endian header holding 8, the offset where code starts. It then writes one fixed-format instruction per operation and a final `Exit`.

An instruction is one opcode byte. `Push`, `If`, `Jump` and `Call` are followed by an eight-byte little-endian operand. `if` and `else` write a zero placeholder as their target and push its offset on a cross-reference stack. The matching `else` or `end` pops that entry and backpatches the placeholder.

`run` reads the header, puts the cursor there, and loops over instructions until `Exit`. A `Call` dispatches to the routines of `src/runtime/stdlib.rs`:
- `putd` (0) prints a number;
- `alloc` (1) grows the heap by zero bytes and pushes the old length;
- `write` (2) prints a slice of the heap.

Every `unwrap()` on a missing value, out-of-range index, debug-build overflow and `todo!()` in the original is a panic. The model makes each one an error value.

The modules follow the program:

| module | file | what it holds |
|---|---|---|
| `Results` | results.dfy | `Result` and `Option` |
| `Bytes` | bytes.dfy | `u64`/`i64` and their little-endian encodings (`byteorder`) |
| `Lexer` | lexer.dfy | `OP`, `split_whitespace`, `parse::<u64>`/`parse::<i64>`, `lex` |
| `Isa` | isa.dfy | the `Instruction` opcodes, encoding and decoding one instruction |
| `Compiler` | compiler.dfy | `compile` on bytes, with the cross-reference stack and backpatching |
| `Layout` | layout.dfy | the same loop read over whole instructions (`PlanStep`), and where branches land |
| `Stdlib` | stdlib.dfy | `alloc`, and output events for `putd` and `write` |
| `Runtime` | runtime.dfy | `run`: one arm of the loop (`Exec`), one iteration (`Step`), a run bounded by a step count |
| `Safety` | safety.dfy | what a compiled program can and cannot do when run |
| `Scenarios`, `Choice`, `HeapBlock`, `Unclosed` | scenarios.dfy, choice.dfy, heap_block.dfy, unclosed.dfy | whole texts followed from source to output |

The worked texts are:
- `Scenarios`: `a b +`.
- `Choice`: `n if 7 putd else 9 putd end`.
- `HeapBlock`: `2 alloc v over ! 2 over write`.
- `Unclosed`: `0 if` (see Findings).

## Model

| member | source | states |
|---|---|---|
| Bytes.DecodeEncodeU64 | src/runtime/mod.rs:14 | Reading back a `u64` written little-endian gives the value written, so the header `run` reads is the one `compile` wrote. |
| Bytes.EncodeDecodeU64 | src/runtime/mod.rs:34 | Every eight bytes are the encoding of the `u64` they read as, so every branch operand reads as some target. |
| Bytes.DecodeEncodeI64 | src/runtime/mod.rs:20 | Reading back an `i64` written in two's complement gives the value written, so `Push n` pushes `n`. |
| Lexer.Words | src/compiler.rs:40 | Every token `split_whitespace` yields is a non-empty run of non-whitespace characters. Its partners below pin down which tokens it yields. |
| Lexer.WordsSkipsWhitespace | src/compiler.rs:40 | Any whitespace character before the text, of any kind, leaves the tokens unchanged, so runs of whitespace separate tokens as one space does. |
| Lexer.WordsOfWordThen | src/compiler.rs:40 | A token followed by whitespace or the end of the text is the first token, and the rest of the text gives the rest. |
| Lexer.WordsCover | src/compiler.rs:40 | For every text, the tokens, end to end, are the text with its whitespace removed: no character is lost or invented. |
| Lexer.WordsUnwords | src/compiler.rs:40 | Splitting tokens joined by single spaces gives back exactly those tokens, in order. |
| Lexer.ParseU64 | src/compiler.rs:50 | `parse::<u64>` succeeds exactly on an optional `+` followed by ASCII digits whose value is at most `u64::MAX`, and then yields that value. |
| Lexer.Decimal | src/compiler.rs:50 | The decimal numeral of a number is non-empty and all digits. |
| Lexer.DecimalValue | src/compiler.rs:50 | The digits of a number's numeral read back as that number. |
| Lexer.FixedWord | src/compiler.rs:42-49 | The eight fixed words are neither literals nor built-in names, so the match arms tried after them never see them. |
| Lexer.Classify | src/compiler.rs:41-52 | A token lexes exactly when it is a fixed word, an unsigned literal whose value is at most `i64::MAX`, or a built-in name. A fixed word lexes as its own operation. Every such literal, including ones like `007` or `+5`, lexes as a push of its value, and a push comes only from such a literal. A call keeps the built-in name. It fails as too large exactly when it is a literal between `i64::MAX` and `u64::MAX`, and as an unknown word otherwise. |
| Lexer.ClassifyFixed | src/compiler.rs:42-49 | `dup`, `over`, `+`, `=`, `if`, `else`, `end` and `!` lex as their own operations. |
| Lexer.ClassifyCall | src/compiler.rs:35-51 | A token lexes as a call exactly when it is `putd`, `alloc` or `write`. |
| Lexer.ClassifyDecimal | src/compiler.rs:50 | Every numeral up to `i64::MAX`, with or without a leading `+`, lexes as a push of its value. |
| Lexer.ClassifyLargeDecimal | src/compiler.rs:50-52 | A numeral above `i64::MAX` fails: as too large up to `u64::MAX`, and as an unknown word beyond. |
| Lexer.LexWords | src/compiler.rs:40-56 | Lexing succeeds exactly when every token classifies, and then gives one operation per token in order. On failure, the error is that of the first failing token. |
| Lexer.LexUnwords | src/compiler.rs:32-57 | `lex` of tokens joined by spaces succeeds exactly when each classifies, and yields their operations in order. |
| Isa.Encode | src/compiler.rs:74-126 | An instruction is written as its opcode byte, followed by an eight-byte operand for exactly `Push`, `If`, `Jump` and `Call`. |
| Isa.WithOperand | src/runtime/mod.rs:20-44 | An operand-taking opcode and eight operand bytes read as the instruction whose encoding is exactly those nine bytes. |
| Isa.Bare | src/runtime/mod.rs:19-64 | A one-byte opcode reads as the instruction encoded by that byte, or as none when no instruction has that opcode. |
| Isa.DecodeAt | src/runtime/mod.rs:18-64 | A successful read consumes exactly the bytes of the instruction it returns. An unknown-opcode error names a byte that is no instruction's opcode, at the cursor. Reading at or past the end is an error. |
| Isa.EncodeInjective | src/compiler.rs:17-29 | Different instructions are written as different bytes. |
| Isa.DecodeEncoded | src/runtime/mod.rs:18-44 | Wherever an instruction's bytes appear in a program, the interpreter reads back that instruction and moves past exactly its width. |
| Isa.DecodeStream | src/runtime/mod.rs:17-20 | In a header followed by a stream of instructions, reading at the offset of instruction `k` gives instruction `k` and the offset of instruction `k + 1`. |
| Stdlib.Alloc | src/runtime/stdlib.rs:7-11 | `alloc` succeeds exactly when the heap stays within `isize::MAX` bytes. It then returns the old length as the address, keeps the old bytes, and adds exactly `size` zero bytes. |
| Stdlib.AllocNothing | src/runtime/stdlib.rs:7-11 | Allocating zero bytes leaves the heap unchanged and returns its length. |
| Stdlib.AllocTwice | src/runtime/stdlib.rs:7-11 | Two allocations in a row leave the same heap as one of the total size, and the second block starts right after the first. |
| Compiler.Patch | src/compiler.rs:96-99 | A backpatch writes the target into its eight-byte field, where it reads back as that target, and keeps the buffer's length. |
| Compiler.PatchKeeps | src/compiler.rs:107-111 | A backpatch changes no byte outside its field. |
| Compiler.CompilePlain | src/compiler.rs:74-81 | A `Push`, `dup`, `over`, `+`, `=` or `!` (line 126) succeeds exactly while the buffer has room. It then appends the encoding of its one instruction, `Push n` with `n` as its operand, and leaves the cross-reference stack alone. `Isa.DecodeEncoded` is its partner: the interpreter reads that instruction back. |
| Compiler.Emit | src/compiler.rs:75-76 | Appending succeeds exactly while the buffer stays within `isize::MAX` bytes, and then only appends. |
| Compiler.CompileIf | src/compiler.rs:82-86 | `if` writes a branch with target 0 and pushes an `If` entry naming the offset of that zero operand. |
| Compiler.CompileElse | src/compiler.rs:87-103 | `else` fails on an empty stack and when the popped entry is not an `If`. Otherwise it appends a zero-target jump and replaces the popped entry with an `Else` entry for that jump. It points the popped branch just past the jump and changes no other earlier byte. |
| Compiler.CompileEnd | src/compiler.rs:104-121 | `end` fails on an empty stack and on an entry that is neither `If` nor `Else`. Otherwise it pops the entry and points it at the current end of the buffer, the next instruction. It changes no other byte. |
| Compiler.CompileCall | src/compiler.rs:122-125 | A call writes the call opcode and the routine's id from the compiler's table, and fails exactly when the name is missing from the table or the buffer is full. |
| Compiler.CompileOp | src/compiler.rs:73-127 | One loop iteration succeeds exactly when the operation is compilable: room in the buffer, the right open construct for `else`/`end`, a known routine. It then adds that operation's width. `else` and `end` on an empty stack fail as the `pop().unwrap()` does. |
| Compiler.AssembleFrom | src/compiler.rs:72-128 | The loop keeps every recorded operand inside the buffer and adds the widths of all operations. |
| Compiler.AssembleExtends | src/compiler.rs:72-128 | The loop only grows the buffer and rewrites no byte outside the operand fields pending when it started. |
| Compiler.AssembleDepth | src/compiler.rs:70-128 | After the loop, the cross-reference stack holds one entry per construct the text leaves open (`if` opens one, `end` closes one). |
| Compiler.AssembleConsistent | src/compiler.rs:82-121 | Every entry on the stack was pushed by `if` or `else`, in increasing offset order without overlap, and its field still holds the zero placeholder. |
| Compiler.EndFailsOnlyWhenEmpty | src/compiler.rs:104-121 | The catch-all `todo!()` arm of `end` is unreachable: in every reachable state, `end` fails only on an empty stack. |
| Compiler.UnmatchedOperandStaysZero | src/compiler.rs:82-86 | An `if` or `else` still open when the text ends keeps target 0 in the finished program. |
| Compiler.Assemble | src/compiler.rs:62-132 | The program is the eight-byte header reading 8, the operations' bytes, then `Exit`, and it is exactly that long. |
| Compiler.BuiltinTablesAgree | src/compiler.rs:35-68 | The lexer's set of built-in names is the key set of the compiler's id table, so a lexed call always finds its id. |
| Compiler.CompileClosed | src/compiler.rs:128-130 | The corrected compiler also checks that the cross-reference stack is empty at the end. It accepts exactly the texts `compile` accepts that leave nothing open, writes the same program for them, and reports how many constructs are left open otherwise. |
| Layout.PlanStepResolved | src/compiler.rs:82-121 | Each step keeps every branch either pending with its zero placeholder or landing on the start of a later instruction or the `Exit`. |
| Layout.PlanStepKnown | src/compiler.rs:122-125 | Each step only adds calls whose id is in the compiler's table. |
| Layout.StepMirrors | src/compiler.rs:73-127 | Compiling one operation on bytes is the instruction-level step laid out after the header. Each stack entry names the branch whose operand it will patch. |
| Layout.CompilableIff | src/compiler.rs:87-120 | An operation compiles on bytes exactly when the instruction-level step allows it. |
| Layout.AssemblePlanned | src/compiler.rs:72-128 | The byte loop succeeds exactly when the instruction-level loop does, and the buffer it leaves is that loop's stream laid out after the header, each stack entry naming the branch it will patch. |
| Layout.AssembleByPlan | src/compiler.rs:59-132 | `compile` of a lexed text succeeds exactly when the instruction-level loop succeeds and the result fits. The program is then the header, the stream and `Exit`. |
| Layout.CompileLaysOut | src/compiler.rs:59-132 | For every text, `compile` fails with the lexer's error when lexing fails. Otherwise it succeeds exactly when the instruction-level loop over the lexed operations succeeds and its stream fits with the header and `Exit`, and it then writes the header, that stream and `Exit`. |
| Layout.CompiledStream | src/compiler.rs:59-132 | Every compiled program is the header, a stream of instructions and `Exit`. Every branch either lands or holds the zero placeholder of a construct left open, and every call names a known routine. |
| Layout.BalancedBranchesLand | src/compiler.rs:82-121 | For a text that closes every construct, every `If` and `Jump` the compiler writes lands on a later instruction or on `Exit`. |
| Layout.LandingDecodes | src/runtime/mod.rs:33-42 | A landing branch points forward, past its own bytes and inside the program, and the interpreter can read an instruction where it lands. |
| Runtime.LowByte | src/runtime/mod.rs:60 | `value as u8` is the low eight bits of the two's-complement value. |
| Runtime.Exec | src/runtime/mod.rs:20-63 | An instruction never shrinks the printed output and adds at most one event. It only appends to the heap, except `!`, which keeps the heap's length. It never lets the heap outgrow a `Vec`. |
| Runtime.Step | src/runtime/mod.rs:17-19 | An iteration fails as a bad instruction exactly when reading at the cursor fails, and never reports a missing header. It keeps the heap within a `Vec`'s bound and only appends output. When it ends the run, the byte just before the new cursor is `Exit`. |
| Runtime.Loop | src/runtime/mod.rs:17-66 | A loop that panics stops at the machine whose iteration failed, with that iteration's fault. A loop that runs out of steps either had none or took a successful first step. |
| Runtime.LoopHalts | src/runtime/mod.rs:17-66 | When every iteration that ends the loop leaves a machine with some property, a loop that halts halts in a machine with that property. |
| Runtime.Execute | src/runtime/mod.rs:17-66 | A run of the interpreter loop that panics does so on the step at the machine it reports. A run that halts stops just past an `Exit` byte of the program. |
| Runtime.Run | src/runtime/mod.rs:13-66 | The run panics with a missing header exactly when the program is shorter than eight bytes, and then before any instruction. Any other panic is the failing step at the machine it reports. A run that halts stops just past an `Exit` byte. |
| Runtime.ExecStack | src/runtime/mod.rs:20-62 | An instruction underflows exactly when the stack holds fewer values than it takes. On success it changes the height by its fixed amount and leaves the values below its operands alone. `Push n` always goes on with `n` pushed. `dup` pushes a copy of the top and `over` a copy of the second value, and nothing else changes. |
| Runtime.ExecDataFaults | src/runtime/mod.rs:46-61 | With its operands on the stack, `alloc` succeeds exactly when the size is non-negative and the heap stays within a `Vec`'s bound, and otherwise fails as a bad allocation of that size. `!` succeeds exactly when the address is inside the heap, and otherwise fails as a bad address. `write` succeeds exactly when the slice lies in the heap, and otherwise fails as a bad range. |
| Runtime.ExecControl | src/runtime/mod.rs:33-63 | Only `Exit` ends the run, and it leaves the machine as it was. `Jump` goes to its target, and `If` goes there exactly when the popped value is 0. Every other instruction goes on at the next one. |
| Runtime.ExecHeap | src/runtime/mod.rs:46-61 | Only `alloc` and `!` touch the heap. `alloc` appends `size` zero bytes and pushes the old length. `!` needs an address inside the heap, stores the value's low byte there, and keeps every other byte. |
| Runtime.ExecOutput | src/runtime/mod.rs:45-54 | Only `putd` and `write` print. `putd` prints the popped value. `write` needs the slice from the popped address, of the popped size, to lie in the heap, and prints exactly it. |
| Runtime.ExecUnknown | src/runtime/mod.rs:43-56 | A call panics as unknown exactly when its operand is none of 0, 1, 2, whatever the stack holds. |
| Runtime.ExecArithmetic | src/runtime/mod.rs:23-32 | `+` succeeds exactly when the sum fits in `i64`, and pushes the sum. `=` always succeeds and pushes 1 when the two values are equal and 0 otherwise. |
| Runtime.ExecuteKeeps | src/runtime/mod.rs:17-66 | However long it runs, the interpreter never takes back printed output and never lets the heap outgrow a `Vec`. |
| Runtime.FuelMonotone | src/runtime/mod.rs:17-66 | A run that has halted or panicked ends the same way with more steps allowed. |
| Runtime.ExecuteSplit | src/runtime/mod.rs:17-66 | Running `a + b` steps is running `a`, then `b` more from where it stopped if it has not ended. |
| Safety.RoutineNumbersAgree | src/compiler.rs:65-68 | The compiler's ids for `putd`, `alloc` and `write` are the operands the interpreter dispatches on, and no others. |
| Safety.StepAt | src/runtime/mod.rs:17-64 | At an instruction boundary of a compiled stream whose branches land, a step fails only on data: underflow, overflow, a bad allocation, range or address. When it goes on, it is at a boundary again. |
| Safety.RunStream | src/runtime/mod.rs:14-15 | A compiled program starts at its first instruction. |
| Safety.RunsFromBoundary | src/runtime/mod.rs:17-66 | From an instruction boundary, a run of any length can only panic on data. |
| Safety.CompiledProgramsDecode | src/runtime/mod.rs:13-66 | A program compiled from operations that close every construct starts at offset 8. However long it runs, it never reads a bad instruction and never calls an unknown routine. |
| Safety.CompiledTextRuns | src/compiler.rs:59-132 | The same for source text: whatever `compile` writes for a text that closes every `if` only panics on the values it computes. |
| Safety.ClosedTextRuns | src/compiler.rs:128-130 | Every program the corrected compiler accepts only panics on the values it computes, with no side condition on the text. |
| Scenarios.PlainPlan | src/compiler.rs:74-81 | A text of operations without `if`/`else`/`end` compiles to their instructions in order, with nothing left open. |
| Scenarios.SumRuns | src/runtime/mod.rs:23-27 | `a b +` compiles, and in four steps halts with `a + b` alone on the stack. |
| Choice.TextRuns | src/compiler.rs:82-121 | `n if 7 putd else 9 putd end` compiles, prints 7 when `n` is not zero and 9 when it is, and halts with an empty stack. |
| HeapBlock.TextRuns | src/runtime/mod.rs:46-61 | `2 alloc v over ! 2 over write` compiles. It allocates a two-byte block at address 0, stores the low byte of `v` into its first byte, writes the block, and halts with the address on the stack. |
| Unclosed.TextRunsIntoHeader | src/compiler.rs:82-86 | `0 if` compiles with its `if` left open. Its false branch jumps to offset 0, where the header reads as a call of routine 2^56. The run panics there, on a fault that no data causes. |
| Unclosed.TextRejected | src/compiler.rs:128-130 | The corrected compiler rejects `0 if`, reporting one construct left open. |

## Left out

- `src/main.rs` (argument parsing, reading and writing files, choosing between compile and run) is not part of this model.
- Standard output: `putd` and `write` append an event (`Printed(n)` or `Wrote(bytes)`) to a trace. The decimal formatting, the newline and a failing `write_all` are not modelled.
- Termination: `run` loops until `Exit` or a panic. The model runs for a given number of steps and reports `Unfinished` when they run out.
- Panics: every panic of the original is a `Fault` or `CompileError` value. Message text is not modelled. A crashed run keeps the machine as it was before the failing instruction, with everything printed so far.
- Integer width: `+` follows a debug build, where overflow panics. Release-build wrap-around is not modelled.
- The `as usize` casts in `alloc`, `write` and `!` assume a 64-bit target. A negative value cast this way becomes a size or address no heap can hold. For `!` and `write` the original panics on it in every build, since a wrapped `address+size` falls below `address`; the model reports the matching fault directly. For `alloc`, see the `Runtime.Exec` line below.
- Memory: buffers and the heap are bounded only by `isize::MAX` (`Vec` capacity overflow). Running out of memory below that bound is not modelled. The interpreter's stack `Vec` is unbounded in the model: its own capacity limit is not modelled.
- Runtime.Exec: `alloc` of a negative size is a bad allocation. In a release build, `heap.len() + size` in `src/runtime/stdlib.rs:9` wraps for a negative `size as usize`, and `resize` then truncates the heap instead. A debug build panics on that overflow, as the model's fault does.
- Lexer.Lex: carries no contract of its own. It is `LexWords` applied to `Words`, and `Lexer.LexUnwords` states its behaviour on tokens joined by spaces. The `todo!("unknown word")` panic is the `UnknownWord` error, and the `parse::<i64>().unwrap()` panic is `NumberTooLarge`.
- Runtime.Run: its own contract does not say where the run starts. The path from the header to the first instruction is stated by `Safety.RunStream` for compiled programs.
- Runtime.Loop: its contract says nothing about a halted loop. `Runtime.LoopHalts` states that for a given property, and `Runtime.Execute` applies it.
- PushScript's compiler has no `swap`, `-`, `>`, `while`/`do`, string literals or `puts` routine, so neither does the model. The model has ten opcodes, 0x01–0x09 and 0xFF, a one-field header holding 8, routine ids 0–2, and `write` popping the address first and the size second.

## Findings

| source | as written | input that shows it | evidently intended | confidence | as-written member | corrected member |
|---|---|---|---|---|---|---|
| src/compiler.rs:128-130 | After the last operation, `compile` writes `Exit` without looking at the cross-reference stack. An `if` or `else` left open keeps its zero placeholder as its target. | `0 if`: it compiles. At run time the false branch jumps to offset 0, and the header `08 00 … 00` followed by the `Push` opcode reads as `Call` of routine 2^56, which hits `todo!()` in the call dispatch. | A text that leaves a construct open is rejected at compile time, as malformed nesting already is. | high; not executed | Unclosed.TextRunsIntoHeader | Compiler.CompileClosed |

`Safety.ClosedTextRuns` proves the intended property of the corrected compiler: its programs only fail on the values they compute. `Unclosed.TextRejected` shows that it rejects `0 if`.
