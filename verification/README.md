# i3status-wrapper, modelled in Dafny

i3status-wrapper sits between i3status and i3bar. It reads i3status's endless JSON array of
status lines. Every cycle it runs the custom commands given as program arguments, each
under a shared timeout, and turns each command's output into one i3bar block. It then
writes the line back out: the command blocks first, in argument order, followed by the
blocks i3status produced.

The model covers the sequential core of `main.go`, in five modules:

- `Wrappers`: the `Option` and `Result` types. `Result.Failure` stands for the places where
  the program prints a message and calls `os.Exit(1)`.
- `Text`: the white-space trimming applied to command output (`bytes.TrimSpace`) and the
  split of a command string on the blank character (`strings.Split(cmd, " ")`). Both are
  pure functions, with `Join` as the inverse of `Split`.
- `Blocks`: the 13-field i3bar record (`Block`) and what the JSON codec does with it.
  Encoding omits every zero-valued field (`omitempty`). Decoding into an existing record
  overwrites only the fields the text names (`Overlay`).
- `Commands`: the `CustomCommand` class. Its `result` record is allocated once and reused
  every cycle. The module also holds the construction loop (`BuildCommands`), the outcome
  mapping of `execute` (`Execute`) and the parse-or-fallback update of `runJob`
  (`CustomCommand.RunJob`, specified by the function `Absorb`).
- `Cycle`: one iteration of the main loop. `RunJobs` runs the N jobs in completion order,
  collecting the orders they report, or stops with the diagnostic of the first command
  that cannot be run. `MergeCycle` allocates the slot array: N slots followed by room for the M
  upstream blocks, where `None` marks a slot no signal has filled yet.
  `FillSlots` fills the N result slots from the completion signals, which may arrive in
  any order. `AppendBlocks` then appends the M upstream blocks in the room reserved for
  them. `RunCycle` is the two steps together.

Go strings and byte slices are both modelled as Dafny `string`, one character per byte.
The timeout is a plain integer count of nanoseconds, as `time.Duration` counts. The command
list is a sequence of references to `CustomCommand` objects. It is filled in index order and
never changed afterwards.

Running a process is replaced by a `RunOutcome` value. It records whether the context
deadline had passed, the error `Output` returned, and the captured standard output.

Decoding a command's output as JSON into its record is replaced by an oracle `parse: string
-> Decoding`, which the caller supplies. A `Decoding` holds the fields `json.Unmarshal`
wrote (a `PartialBlock`, which lists the fields the JSON object names) and whether it
returned without error. Both can happen at once: a field of the wrong JSON type makes
`Unmarshal` return an error, but the fields around it are still written. The one thing
assumed about the oracle is `ParsesOnlyJson`. It succeeds only on text whose trimmed form
starts with `{` or is `null`, and it writes no field unless the text opens a JSON object.

The concurrent completion channel is replaced by `arrivals`: the sequence of order values
received on it, in the order they arrive. Because each job sends its own order exactly
once, `arrivals` is required to be a permutation of 0..N-1 (`IsPermutation`).

Four behaviours of the code that are easy to misread:

- Splitting a command string: the code splits on the single blank character, not on
  white space in general, so repeated blanks produce empty arguments.
- A timed-out command gets no dedicated timeout block. `"Timed out"` is not JSON, so it takes the
  fallback path. The block therefore gets name
  `customCmd`, instance set to the executable, and full text `Timed out`. Its other fields
  keep whatever the previous cycle left in the reused record (`TimedOutBlock`).
- A command that prints a block: the block is decoded into the reused record, so a field
  that an earlier cycle set and this block omits survives (`PrintedBlockVerbatim`,
  `OmitEmptyRoundTrip`). Output that decodes with a type error is merged too: the fields
  decoded before and after the bad one stay, and the fallback then sets name, instance and
  full text (`FallbackBlock`).
- The diagnostic for a command that cannot be run goes to standard output, with
  `fmt.Println` spacing: `Cannot run command: <command> : <error>` (`Diagnostic`).

## Model

| member | source | states |
|---|---|---|
| `Text.TrimSpace` | main.go:62 | The trimmed output has no white space at either end. It occurs in the original output with nothing but white space before and after it. |
| `Text.TrimSpaceUnique` | main.go:62 | Any text that has no outer white space, and is padded only by white space in `s`, is exactly `TrimSpace(s)`. So the two properties of `TrimSpace` fully determine its result. |
| `Text.TrimSpaceOfTrimmed` | main.go:62 | Trimming text that has no outer white space returns it unchanged. |
| `Text.TrimSpaceIdempotent` | main.go:62 | Trimming twice gives the same result as trimming once. |
| `Text.Split` | main.go:105 | Splitting a command string on `" "` always yields at least one piece, so `cmdSplit[0]` is always defined. No piece contains a blank. |
| `Text.JoinSplit` | main.go:105-109 | Joining the pieces with `" "` gives back the original string, so the executable followed by its arguments is exactly the argument string. |
| `Text.SplitJoin` | main.go:105 | In the other direction: splitting blank-joined pieces that contain no blank gives back those pieces, empty ones included. |
| `Text.SplitBlankFreePrefix` | main.go:105 | Splitting a text whose blank-free prefix is `p` glues `p` onto the first piece of the rest. |
| `Blocks.Overlay` | main.go:76 | Decoding into the `i3bar` record (main.go:17-31) overwrites the fields the text names and keeps the rest; text that names no field leaves the record as it was. |
| `Blocks.OverlayIdempotent` | main.go:76 | Decoding the same text into the record twice gives the same record as decoding it once. |
| `Blocks.OmitEmpty` | main.go:17-31 | Encoding a block (zero fields omitted) and decoding it into a fresh zero-valued record gives back the block. |
| `Blocks.OmitEmptyRoundTrip` | main.go:17-31 | Decoding an encoded block into a record that already holds `prev` gives back the block exactly when `prev` is zero in every field the block omits. |
| `Blocks.ReEncodeDropsZeros` | main.go:150-152 | An upstream block decoded into a fresh record and encoded again (main.go:184) keeps exactly the fields it named if and only if it named none with its zero value; `"separator": false` in particular is dropped. |
| `Commands.Execute` | main.go:44-64 | Once the deadline has passed, the result is `"Timed out"` with no error, whatever error the process returned. Otherwise a process error is returned unchanged, with no output. Otherwise the output is the trimmed standard output. Every successful result has no outer white space. |
| `Commands.Diagnostic` | main.go:70 | The exit message starts with `Cannot run command: `, then names the command, then ` : `, and ends with the error text. |
| `Commands.Absorb` | main.go:76-83 | Decoding without error leaves the decoded fields laid over the previous record. Decoding with an error sets name to `customCmd`, instance to the executable and full text to the output, over whatever the decoder had written. |
| `Commands.FallbackBlock` | main.go:76-83 | When the output does not decode, name (`customCmd`), instance (the executable) and full text (the output) are set. The ten other fields hold what the decoder wrote (it writes the well-typed fields even when another field has the wrong type), and keep their previous values when it wrote nothing. |
| `Commands.TimedOutBlock` | main.go:54-83 | A timed-out command does not abort the program. Its text is not JSON, so its block gets name `customCmd`, instance the executable and full text `Timed out`. All other fields keep their previous values. |
| `Commands.PrintedBlockVerbatim` | main.go:76-83 | Output that decodes as a printed block reproduces that block exactly when the reused record is zero where the block omits fields. With a fresh record it always does. |
| `Commands.CustomCommand.constructor` | main.go:107-113 | A new command has the given executable, arguments, timeout and order, and a zero-valued result record. |
| `Commands.CustomCommand.RunJob` | main.go:66-88 | On a process error, the job reports the diagnostic and leaves the record alone. Otherwise it reports its own order, and the record becomes the decoded fields laid over the old record, or the fallback (`Absorb`). |
| `Commands.BuildCommands` | main.go:98-114 | The program builds exactly one fresh, distinct command per argument, in argument order. Command k has order k, the shared timeout and a zero-valued result. Its executable followed by its arguments is the split of argument k, and they join back to that argument. |
| `Cycle.PermutationCovers` | main.go:172-177 | N distinct orders, each in 0..N-1, include every slot, so every slot receives a completion signal. |
| `Cycle.AllFilled` | main.go:172-177 | If each of the N signals has written its own slot, then every one of the N slots has been written. |
| `Cycle.FillSlots` | main.go:172-177 | For every arrival order of the N signals, the receive loop writes each slot exactly once, and slot i ends up holding command i's result. The room reserved after the slots is untouched. |
| `Cycle.AppendBlocks` | main.go:181 | Appending puts upstream block k at position N+k, in order, and leaves the N slots as they were. |
| `Cycle.MergeCycle` | main.go:160-181 | For every arrival order of the N completion signals: the output has length N+M, slot i holds command i's result, each slot is written exactly once, and positions N..N+M-1 are the upstream blocks, as decoded, in their original order. With N = 0 the output is just the upstream blocks. |
| `Cycle.RunJobs` | main.go:164-178 | The jobs all complete exactly when no command has a process error; a failure carries the diagnostic of a failing command. When they all complete, the orders received are the arrival order, and every command's record has been updated by its own output. |
| `Cycle.RunCycle` | main.go:164-181 | The cycle produces output exactly when every command runs without a process error. On failure it produces the diagnostic of a failing command and no blocks. On success every command's record is updated by its own output, and the output holds the N updated records in slot order, followed by the upstream blocks. |

## Left out

- Running processes and enforcing the deadline (`context.WithTimeout`, `exec.CommandContext`, main.go:47-51): these are operating-system calls. Their effect is the `RunOutcome` parameter. Killing the child process on expiry is not modelled.
- Goroutines and the `done` channel (main.go:164-178): concurrency is replaced by the `arrivals` sequence, required to be a permutation. Jobs run one after another in arrival order. The slots are filled after all jobs have finished, not while they are still arriving. Each record is final before its job sends its signal, so every slot gets the same content either way.
- Aliasing between a slot and its command's record: `customBlocks[d]` holds the same `*i3bar` pointer as `cmdList[d].result`. The model copies the record's value into the slot instead. Nothing writes the record between the copy and the encoding, so the encoded output is the same.
- JSON decoding and encoding: the decoder is the `parse` oracle. The encoder's output format is not modelled beyond which fields it omits (`OmitEmpty`).
- `Commands.FallbackBlock`, `Commands.CustomCommand.RunJob`: which fields `json.Unmarshal` writes before it reports a type error is decided by the oracle. The model does not derive it from the text; `ParsesOnlyJson` only pins that nothing is written for text that does not open a JSON object.
- `Cycle.MergeCycle`: the upstream blocks are the blocks as decoded into 13-field records. The program re-encodes them with `omitempty`, so keys outside the 13 fields are dropped, and so are fields upstream set to their zero value, which i3bar then replaces by its own defaults (`ReEncodeDropsZeros`). The output encoding itself is not modelled.
- Stream framing (main.go:116-157 and 183-191): reading and echoing the header object, the `[` token, the `stdInDec.More()` loop over successive cycles, decoding each upstream array, and the trailing `,` after each output line. These are library I/O. A decode or encode failure there ends the program.
- Flag parsing (main.go:94-95): the timeout and the argument list are parameters of `BuildCommands`. `DefaultTimeout` records the flag's default.
- `os.Exit(1)`: it is modelled as a `Failure` result carrying the diagnostic line, without the trailing newline `fmt.Println` adds.
- `Text.TrimSpace`: it treats only ASCII white space (tab, line feed, vertical tab, form feed, carriage return, space) as white space. `bytes.TrimSpace` also trims the Unicode white-space characters U+0085 and U+00A0 and other multi-byte spaces.
- Block integer fields (`MinWidth`, `SeparatorBlockWidth`): these are unbounded integers. The 64-bit range of Go's `int` only matters to the decoder, which is the oracle.
