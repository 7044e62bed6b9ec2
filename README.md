# NAND tape interpreters, modelled in Dafny

The repository holds three interpreters for a small esoteric language. Its
only logical primitive is NAND. A program is a string of one-character
instructions. These act on a growable tape of bits through a cursor:

- move the cursor (`+`, `-`);
- replace two cells by their NAND (`N`);
- copy (`C`), swap (`S`) or delete (`D`) cells;
- insert a literal (`I0`, `I1`, `IR` for a clock-derived bit, `IU` for a bit typed by the user);
- skip the next instruction on a true cell (`B`);
- jump back from `]` to the matching `[`.

Each interpreter has a parser (`parse`) and an evaluator (`evaluate`). The three variants differ:

- `nand.rs` is the generalised one. Its tape starts as `[false]`, and a direction flag, toggled by `F`, reinterprets the directional instructions. A trailing `I` is dropped, and the result is the tape as a string of `0`/`1`.
- `PRON.rs` starts from an empty tape, has no direction, and returns the tape and the cursor.
- `NANDPROP.rs` is like `PRON.rs` without `IR`. It adds `E`, which prints the cell under the cursor, and computes `N` in place.

How the model is laid out:

- **Shared modules.** `Base` holds the errors, results, bounded-run outcomes, the injected literal sources and the remainder table of `IR`. `Vec` holds Rust's `Vec` operations with their bounds behaviour. `Brackets` holds the backward bracket scan of `]`, written once for the three instruction sets.
- **One module per interpreter.** `NandLang` models `nand.rs`, `Pron` models `PRON.rs` and `NandProp` models `NANDPROP.rs`.
- **Parse and evaluate.** Each module has a `Parse` method and an `Evaluate` method. They are loops over the input or the program and are proved equal to the specification functions `Parsed` and `Run`. Every property is then proved about those functions.
- **Errors.** Every panic the model represents becomes an `Err`/`Failed` value of kind `SyntaxError`, `BoundsError`, `UnmatchedBracket` or `InputError`. A failed read of standard input has no counterpart, because `Env` only gives an answer or the end of the input.
- **Termination.** Evaluation takes a budget of instructions (`fuel`), and `Exhausted` means the budget ran out.
- **Literal sources.** The clock and standard input are a parameter `Env`, indexed by the number of instructions already executed: `micros(k)` is the elapsed time in microseconds, and `answer(k)` is the user's answer, or none at end of input.
- **Cross-variant module.** `Variants` relates `NANDPROP.rs` to `PRON.rs`.
- **Prompt module.** `Prompt` models the `IU` prompt loop of `nand.rs`, where the loop has a defect (see Findings).

## Model

| member | source | states |
|---|---|---|
| `Base.CheckedDec` | nand.rs:148-152 | `checked_sub(1)` succeeds exactly on a positive cursor, giving the predecessor; at 0 it is a bounds error |
| `Base.RandomBit` | nand.rs:22-33 | the remainder table maps exactly {1,3,4,7,9} to true and {0,2,5,6,8} to false |
| `Base.RandomBitParity` | PRON.rs:23-34 | the table agrees with "odd is true" everywhere except at 4 and 5 |
| `Base.RandomBitBalanced` | PRON.rs:23-34 | exactly five of the ten remainders give true |
| `Vec.Get` | PRON.rs:170 | `v[i]` succeeds exactly when `i < len` and gives cell `i` |
| `Vec.Insert` | PRON.rs:153 | `insert(i, x)` succeeds exactly when `i <= len`; `x` lands at `i`, the prefix stays, the rest moves up by one |
| `Vec.Remove` | PRON.rs:174 | `remove(i)` succeeds exactly when `i < len`, returns cell `i` and the rest moves down by one |
| `Vec.Swap` | PRON.rs:182-184 | `swap(i, j)` succeeds exactly when both are `< len`; it exchanges the two cells and keeps all others |
| `Vec.NandCells` | PRON.rs:177-181 | remove, remove, insert: fails exactly when `ptr + 1 >= len`; otherwise the tape is one shorter, cell `ptr` is the NAND of the old cells `ptr` and `ptr + 1`, and everything before and after them is kept |
| `Vec.RemoveInserted` | PRON.rs:169-174 | removing a just-inserted cell gives back the cell and the old tape |
| `Vec.InsertRemoved` | PRON.rs:174 | re-inserting a removed cell where it was gives back the old tape |
| `Vec.SwapTwice` | PRON.rs:182-184 | swapping the same two cells twice is the identity |
| `Brackets.MatchOpenSpec` | PRON.rs:155-165 | the depth scan from a `]` finds an index exactly when a match exists; the index holds a `[`, brings the depth back to 0 and is the nearest one to do so; no match means the depth stays positive down to index 0 |
| `Brackets.MatchUnique` | PRON.rs:155-165 | at most one `[` matches a given `]` |
| `Brackets.MatchOpenSameKinds` | NANDPROP.rs:156-166 | the scan depends only on which instructions are brackets |
| `Brackets.ScanBack` | nand.rs:202-212 | the `while depth != 0` loop returns the scan's result, with the same characterisation |
| `Pron.GetLiteral` | PRON.rs:16-39 | `I0` gives false, `I1` true, `IR` the table applied to the elapsed microseconds mod 10; no value exactly when `IU` meets the end of the input |
| `Pron.Parse` | PRON.rs:90-121 | the loop that pushes opcodes returns exactly the specification `Parsed` |
| `Pron.ParseSource` | PRON.rs:94-119 | every program is parsed back from its own text: symbols map one-to-one, in order |
| `Pron.ParsedConcat` | PRON.rs:94-119 | the parse of a concatenation is the two parses concatenated |
| `Pron.CommentTransparent` | PRON.rs:116 | any character other than a symbol or `I` (so also `F` and `E`) adds no opcode |
| `Pron.LiteralNeedsTag` | PRON.rs:102-110 | `I` followed by anything but `0`, `1`, `R`, `U`, or by the end of input, is a syntax error |
| `Pron.ParsedLength` | PRON.rs:94-119 | a program is never longer than its text |
| `Pron.Evaluate` | PRON.rs:134-189 | the evaluation loop, from an empty tape, cursor 0 and pc 0, returns exactly `Run`: halted with `(tape, cursor)` once pc passes the end, or the first error |
| `Pron.MoveStep` | PRON.rs:150-151 | `+` adds one to the cursor; `-` subtracts one and fails exactly at 0 |
| `Pron.CopyStep` | PRON.rs:169-172 | `C` fails exactly when `ptr >= len`; otherwise the tape grows by one with old `ptr` at `ptr` and `ptr + 1` |
| `Pron.DeleteStep` | PRON.rs:174 | `D` fails exactly when `ptr >= len`; otherwise exactly cell `ptr` is removed |
| `Pron.SwapStep` | PRON.rs:182-184 | `S` exchanges `ptr` and `ptr + 1`, keeps length and all other cells, and fails when either is missing |
| `Pron.NandStep` | PRON.rs:177-181 | `N` replaces cells `ptr` and `ptr + 1` by their NAND and fails exactly when `ptr + 1 >= len` |
| `Pron.LiteralStep` | PRON.rs:152-154 | a literal with a value from its source succeeds exactly when `ptr <= len` and inserts that value (`I0` false, `I1` true, `IR` the remainder table, `IU` the answer) at the cursor; `IU` at end of input fails with `InputError`, an insertion past the end with `BoundsError` |
| `Pron.BranchStep` | PRON.rs:173 | `B` on a true cell skips exactly the next instruction and otherwise steps on; it never changes tape or cursor |
| `Pron.BracketStep` | PRON.rs:155-166 | `]` resumes right after its matching `[`, fails exactly when none exists, and `[` does nothing |
| `Pron.ExecMoreFuel` | PRON.rs:141 | a larger budget does not change a run that has already ended |
| `Pron.ExecDeterministic` | PRON.rs:16-19 | a program with only `I0`/`I1` literals runs the same whatever the clock and the input |
| `Pron.EmptyLoopRunsForever` | PRON.rs:155-166 | `[]` never halts |
| `Pron.LiteralAlone` | PRON.rs:135-141 | a run starts from an empty tape and cursor 0: one literal leaves exactly that bit |
| `Pron.NandTruthTable` | PRON.rs:177-181 | two literals and `N` leave exactly their NAND |
| `Pron.LoneInstructionsFail` | PRON.rs:150-166 | a lone `]` is an unmatched bracket, a lone `-` a bounds error |
| `Pron.BranchSkipsOne` | PRON.rs:173 | `I1 B I0 I1` skips the `I0` |
| `NandProp.GetLiteral` | NANDPROP.rs:15-35 | `I0` gives false, `I1` true; no value exactly when `IU` meets the end of the input |
| `NandProp.ChangesArrSound` | NANDPROP.rs:54-68 | the instructions `changes_arr` calls unchanging (`E`, `B`, `]`, `[`) indeed keep tape and cursor |
| `NandProp.Parse` | NANDPROP.rs:89-120 | the parsing loop returns exactly `Parsed` |
| `NandProp.ParseSource` | NANDPROP.rs:93-118 | every program, `E` included, is parsed back from its own text |
| `NandProp.ParsedConcat` | NANDPROP.rs:93-118 | the parse of a concatenation is the two parses concatenated |
| `NandProp.CommentTransparent` | NANDPROP.rs:115 | unrecognised characters yield no opcode |
| `NandProp.LiteralNeedsTag` | NANDPROP.rs:101-107 | `I` must be followed by `0`, `1` or `U`; anything else, or the end of input, is a syntax error |
| `NandProp.ParsedLength` | NANDPROP.rs:93-118 | a program is never longer than its text |
| `NandProp.NandInPlace` | NANDPROP.rs:183-187 | remove then overwrite: fails exactly when `ptr + 1 >= len`; the new cell at the cursor is the NAND of the old `ptr` and `ptr + 1`; cells before are kept and later ones move down by one |
| `NandProp.Execute` | NANDPROP.rs:145-195 | one pass of the loop body, editing the tape in place, computes exactly the step function, errors included |
| `NandProp.Evaluate` | NANDPROP.rs:133-198 | the evaluation loop, from an empty tape, cursor 0, pc 0 and no output, returns exactly `Run`, and the bits it printed are exactly `Output`, however the run ends |
| `NandProp.EmitStep` | NANDPROP.rs:178-180 | `E` needs a cell under the cursor and appends exactly that cell to the output; no other instruction prints |
| `NandProp.NandStep` | NANDPROP.rs:183-187 | `N` shrinks the tape by one, writes `!(old[ptr] && old[ptr+1])` at the cursor, and fails exactly when `ptr + 1` is out of range |
| `NandProp.SwapStep` | NANDPROP.rs:188-190 | `S` exchanges `ptr` and `ptr + 1`, keeps length and every other cell, and fails when either is out of range |
| `NandProp.CopyDeleteStep` | NANDPROP.rs:170-177 | `C` duplicates and `D` removes the cell under the cursor, both failing exactly when `ptr >= len` |
| `NandProp.LiteralStep` | NANDPROP.rs:150-155 | a literal with a value from its source succeeds exactly when `ptr <= len`, inserts that value (`I0` false, `I1` true, `IU` the answer) at the cursor and advances pc by one; `IU` at end of input fails with `InputError`; `-` fails exactly at cursor 0 and otherwise steps the cursor back |
| `NandProp.ControlStep` | NANDPROP.rs:156-174 | `B` advances pc by 2 on a true cell and by 1 otherwise; `]` lands after its matching `[` and fails exactly when there is none |
| `NandProp.ExecMoreFuel` | NANDPROP.rs:139 | a larger budget does not change a run that has already ended |
| `NandProp.ExecDeterministic` | NANDPROP.rs:15-18 | a program with only `I0`/`I1` literals runs the same whatever the input |
| `NandProp.Printed` | NANDPROP.rs:178-180 | what a run has printed when it stops, halted, failed or out of budget, extends what it had printed at the start |
| `NandProp.HaltedPrinted` | NANDPROP.rs:178-180 | a halted run reports exactly the bits it printed |
| `NandProp.PrintedBeforeFailure` | NANDPROP.rs:178-180 | `I1 E -` fails on the `-` after printing `1` |
| `NandProp.BeaconPrints` | NANDPROP.rs:156-180 | each pass of the loop `[E]` prints one more bit and the run never halts |
| `NandProp.EndlessEmitter` | NANDPROP.rs:156-180 | `I1[E]` prints `n` bits within a budget of `2 + 2n` instructions and is still running, for every `n` |
| `NandProp.OutputOnlyGrows` | NANDPROP.rs:178-180 | the output of a halted run extends the output it started with |
| `NandProp.EmitLiteral` | NANDPROP.rs:153-155 | `I1 E` or `I0 E` prints the literal and leaves it alone on the tape |
| `NandProp.NandTruthTable` | NANDPROP.rs:183-187 | two literals and `N` leave exactly their NAND |
| `NandLang.GetLiteral` | nand.rs:15-38 | `I0` false, `I1` true, `IR` the remainder table of the elapsed microseconds; no value exactly for `IU` at end of input |
| `NandLang.Parse` | nand.rs:92-135 | the parsing loop, which stops as soon as the characters run out, returns exactly `Parsed` |
| `NandLang.ParseSource` | nand.rs:109-121 | every program, `F` included, is parsed back from its own text |
| `NandLang.ParsedConcat` | nand.rs:105-133 | after a part that ends with no pending `I`, the parse of a concatenation is the two parses concatenated |
| `NandLang.CommentTransparent` | nand.rs:109-121 | a character that is not a symbol and does not follow an `I` adds no opcode |
| `NandLang.LiteralTag` | nand.rs:124-132 | `I` followed by a character other than `0`, `1`, `R`, `U` is a syntax error; `I` as the last character is dropped without error |
| `NandLang.ParsedLength` | nand.rs:105-133 | a program is never longer than its text |
| `NandLang.Render` | nand.rs:217-219 | the result string has the tape's length, `'1'` exactly for true cells and `'0'` for the others |
| `NandLang.RenderInjective` | nand.rs:217-219 | the result string determines the final tape |
| `NandLang.EditPair` | nand.rs:178-191 | the in-place edits of `N` and `S`, with their bounds failures, compute exactly the step function |
| `NandLang.EditTape` | nand.rs:184-199 | the in-place edits of `C`, literals and `D`, with their bounds failures, compute exactly the step function |
| `NandLang.Execute` | nand.rs:169-214 | one pass of the loop body (cursor check, then the instruction) computes exactly `Step` |
| `NandLang.Evaluate` | nand.rs:155-220 | the evaluation loop, from tape `[false]`, cursor 0, pc 0, direction forward, returns exactly `Run` |
| `NandLang.CursorCheck` | nand.rs:171-173 | every instruction fails when the cursor is more than one past the end |
| `NandLang.MoveStep` | nand.rs:176-177 | `+`/`-` move one cell in the direction composed with the flag; a move toward index −1 fails (`-` forward, `+` backward) |
| `NandLang.FlipStep` | nand.rs:201 | `F` toggles the direction and changes neither tape nor cursor |
| `NandLang.NandStep` | nand.rs:178-183 | `N` shrinks the tape by one, writing the NAND of cells `ptr`,`ptr+1` forward and `ptr-1`,`ptr` backward; backward at cursor 0 fails |
| `NandLang.CopyStep` | nand.rs:184-188 | `C` grows the tape by one and the cursor stays on a cell with the copied value, in both directions |
| `NandLang.SwapStep` | nand.rs:189-191 | `S` exchanges the cell under the cursor with its neighbour in the direction of travel, keeps all others, the cursor and the direction |
| `NandLang.LiteralStep` | nand.rs:192-195 | a literal grows the tape by one, inserting the value from its source at the cursor forward and after it backward, keeping the direction; `I0` false, `I1` true; `IU` at end of input makes no progress |
| `NandLang.DeleteStep` | nand.rs:196-199 | `D` removes exactly the cell under the cursor; backward the cursor steps back, which fails at 0; the direction is kept |
| `NandLang.BranchStep` | nand.rs:200 | `B` on a true cell skips exactly the next instruction |
| `NandLang.BracketStep` | nand.rs:202-213 | `]` resumes right after the nearest `[` where the depth returns to 0 and fails exactly when the scan passes index 0; `[` does nothing |
| `NandLang.ExecMoreFuel` | nand.rs:168 | a larger budget does not change a run that has already ended |
| `NandLang.ExecDeterministic` | nand.rs:15-18 | a program with only `I0`/`I1` literals runs the same whatever the clock and the input |
| `NandLang.StalledNeverHalts` | nand.rs:39-53 | an `IU` met after the input has ended never lets the run finish |
| `NandLang.EmptyProgram` | nand.rs:156 | the run starts from the tape `[false]`: the empty program returns `"0"` |
| `NandLang.LiteralSides` | nand.rs:192-195 | a literal goes before the initial cell, and after it once `F` has flipped the direction |
| `NandLang.NandWithInitialCell` | nand.rs:178-183 | a literal and `N` NAND it with the initial `0`, leaving `"1"` |
| `NandLang.BackwardAtZero` | nand.rs:176-198 | backward at cell 0, `N`, `D` and `+` fail while `-` succeeds |
| `NandLang.MirrorStep` | nand.rs:176-213 | the direction flag is a reflection: every step between states with the cursor on a cell maps the mirrored state (tape reversed, direction flipped) to the mirrored result |
| `NandLang.MirrorNandState` | nand.rs:178-183 | the state `N` leaves, mirrored, is the state `N` leaves in the mirrored machine: the same two cells, read in the other order |
| `NandLang.MirrorNand` | nand.rs:178-183 | `N` backward is `N` forward read from the other end |
| `NandLang.MirrorCopyState` | nand.rs:184-188 | the state `C` leaves, mirrored, is the state `C` leaves in the mirrored machine |
| `NandLang.MirrorCopy` | nand.rs:184-188 | `C` backward is `C` forward read from the other end |
| `NandLang.MirrorSwapState` | nand.rs:189-191 | the state `S` leaves, mirrored, is the state `S` leaves in the mirrored machine: the same two cells exchanged |
| `NandLang.MirrorSwap` | nand.rs:189-191 | `S` backward is `S` forward read from the other end |
| `NandLang.MirrorLiteralState` | nand.rs:192-195 | the state a literal leaves, mirrored, is the state it leaves in the mirrored machine |
| `NandLang.MirrorLiteral` | nand.rs:192-195 | a literal backward is a literal forward read from the other end |
| `NandLang.MirrorDeleteState` | nand.rs:196-199 | the state `D` leaves, mirrored, is the state `D` leaves in the mirrored machine |
| `NandLang.MirrorDelete` | nand.rs:196-199 | `D` backward is `D` forward read from the other end |
| `Variants.NandEditsAgree` | NANDPROP.rs:183-187 | the in-place NAND of NANDPROP.rs and the remove/remove/insert NAND of PRON.rs (PRON.rs:177-181) fail on the same tapes and otherwise give the same tape |
| `Variants.StepsAgree` | NANDPROP.rs:145-191 | in a program without `E`, every instruction does in NANDPROP.rs what it does in PRON.rs and prints nothing |
| `Variants.RunsAgree` | NANDPROP.rs:133-198 | a NANDPROP.rs program without `E` ends, for any budget, exactly as the PRON.rs program with the same symbols |
| `Variants.RunAgrees` | NANDPROP.rs:134-137 | the same, from the initial state |
| `Prompt.TrimStart` | nand.rs:47 | leading whitespace is removed and nothing else |
| `Prompt.TrimEnd` | nand.rs:47 | trailing whitespace is removed and nothing else |
| `Prompt.Answer` | nand.rs:47-50 | only `0` (false) and `1` (true) are accepted |
| `Prompt.StuckAfterRejection` | nand.rs:43-52 | as written, once a non-blank line has been rejected, no later line is ever accepted |
| `Prompt.RejectedThenZero` | nand.rs:43-52 | the input `x`, `0` gets no answer as written and the answer false as intended |
| `Prompt.IntendedFirstAnswer` | nand.rs:43-52 | the intended loop answers with the first line that trims to `0` or `1` |
| `Prompt.AgreeOnFirstLine` | nand.rs:43-52 | the two loops agree when the first line is accepted |

## Left out

- `main` in each file is left out. It covers argument parsing, file reading, printing of the result and the timer.
- `display_state`, the `fmt::Display` impls and the `show` trace flag are left out. They print only; `changes_arr` is modelled through what it claims about the step.
- Printing by `E` is modelled as appending to an output sequence. `NANDPROP.rs` writes each bit to standard output as it goes; `NandProp.Printed` and `NandProp.Output` give what has been printed when a run stops, including runs that fail or run out of budget.
- The clock and standard input are the parameter `Env`, not modelled I/O.
  - `IR` reads `micros(k)`, the elapsed microseconds when the `k`-th instruction runs.
  - `IU` reads `answer(k)`, which stands for the intended reading of the prompt.
  - The prompt loops of `PRON.rs` and `NANDPROP.rs` are not modelled; at end of input they panic, which is `InputError`.
- `NandLang.GetLiteral`: at the end of the input the `nand.rs` prompt loops forever. The step reports this as `Stalled` and the run as `Exhausted`, so no budget makes it halt.
- `Prompt.TrimStart`, `Prompt.TrimEnd`: only ASCII whitespace is trimmed. Rust's `trim` also removes the other Unicode white-space characters.
- `Evaluate` (all three) takes a budget of instructions. A run that does not end within the budget is `Exhausted`, and non-termination is shown only as "`Exhausted` for every budget".
- The bracket depth counter is a `nat`. In the source it is a `u8`, which overflows after 255 nested `]` in a debug build.
- `usize` overflow of `arr_ptr + 1` is not modelled.
- Panic message texts are replaced by four error kinds. `SyntaxError` carries no position because the source reports none.

Notes on the code as modelled:

- The `IR` table is not a parity rule: remainder 4 gives true and 5 gives false (`Base.RandomBitParity`).
- The clock is read at every `IR`, relative to one start instant per run.
- In `nand.rs`, forward `N` takes cells `ptr` and `ptr + 1`; backward `N` takes cells `ptr - 1` and `ptr`.

## Findings

| source | as written | input that shows it | evidently intended | confidence | as-written member | corrected member |
|---|---|---|---|---|---|---|
| nand.rs:43-52 | `read_line` appends every line to `tmp_str`, which is never cleared, and the whole buffer is trimmed and compared with `0`/`1` | the lines `x`, then `0`: the buffer `x\n0\n` trims to `x\n0`, so the `0` is rejected, as is every later line | each line is judged on its own, and the message "Input must be either 0 or 1!" invites a retry | high (not executed) | `Prompt.StuckAfterRejection` | `Prompt.IntendedFirstAnswer` |
