/**
 * The command runner: one custom command given on the command line, how it is built from
 * its argument string, how the outcome of running it is normalised, and how that output
 * is folded into the command's result block, which is kept from one cycle to the next.
 */
module Commands {
  import opened Wrappers
  import opened Text
  import opened Blocks

  /** The block name given to output that is not an i3bar block. */
  const CustomName := "customCmd"

  /** What a command that overran its deadline reports instead of its output. */
  const TimedOutText := "Timed out"

  /** Default of the -timeout flag (5 seconds), in nanoseconds as time.Duration counts. */
  const DefaultTimeout := 5_000_000_000

  /**
   * What running the process left behind: whether the context deadline had passed when
   * Output returned, the error Output returned if any, and what it captured on stdout.
   */
  datatype RunOutcome = RunOutcome(deadlineExceeded: bool, err: Option<string>, stdout: string)

  /**
   * The output of one run: "Timed out" once the deadline has passed, whatever the process
   * did; otherwise the process error, or the trimmed standard output.
   */
  function Execute(o: RunOutcome): (r: Result<string, string>)
    ensures o.deadlineExceeded ==> r == Success(TimedOutText)
    ensures !o.deadlineExceeded && o.err.Some? ==> r == Failure(o.err.value)
    ensures !o.deadlineExceeded && o.err.None? ==> r.Success? && exists i :: PaddedBy(o.stdout, r.value, i)
    ensures r.Success? ==> NoOuterSpace(r.value)
  {
    if o.deadlineExceeded then Success(TimedOutText)
    else if o.err.Some? then Failure(o.err.value)
    else Success(TrimSpace(o.stdout))
  }

  /** Opening of the line printed before the program exits because a command could not be run. */
  const DiagnosticPrefix := "Cannot run command: "

  /**
   * The line printed before the program exits because a command could not be run, spaced
   * as fmt.Println spaces its operands: it names the command, then the error.
   */
  function Diagnostic(command: string, err: string): (r: string)
    ensures |r| == |DiagnosticPrefix| + |command| + 3 + |err|
    ensures r[..|DiagnosticPrefix|] == DiagnosticPrefix
    ensures r[|DiagnosticPrefix|..|DiagnosticPrefix| + |command|] == command
    ensures r[|DiagnosticPrefix| + |command|..|DiagnosticPrefix| + |command| + 3] == " : "
    ensures r[|r| - |err|..] == err
  {
    DiagnosticPrefix + command + " : " + err
  }

  /** The trimmed text opens a JSON object. */
  predicate OpensObject(s: string) {
    var t := TrimSpace(s);
    |t| > 0 && t[0] == '{'
  }

  /**
   * Text json.Unmarshal could decode into a block without error: a JSON object or `null`
   * (possibly surrounded by white space).
   */
  predicate MayDecodeAsBlock(s: string) {
    TrimSpace(s) == "null" || OpensObject(s)
  }

  /**
   * What json.Unmarshal does with a text and a record: the fields it wrote into the record,
   * and whether it returned no error. A field whose value has the wrong JSON type is
   * skipped, the fields before and after it are still written, and the error is returned
   * at the end, so `ok` can be false with fields written.
   */
  datatype Decoding = Decoding(written: PartialBlock, ok: bool)

  /**
   * The decoding oracle succeeds only on text that can be a JSON object or null, and writes
   * no field unless the text opens a JSON object (malformed JSON is rejected before any
   * field is written; a JSON value of another type writes nothing).
   */
  ghost predicate ParsesOnlyJson(parse: string -> Decoding) {
    forall s :: (parse(s).ok ==> MayDecodeAsBlock(s)) && (!OpensObject(s) ==> parse(s).written == NoFields)
  }

  /**
   * The result record after one run whose output is `output`: the decoded fields laid over
   * the previous record and, when decoding reported an error, the name, instance and full
   * text then replaced.
   */
  function Absorb(prev: Block, command: string, output: string, d: Decoding): (r: Block)
    ensures d.ok ==> r == Overlay(d.written, prev)
    ensures !d.ok ==> r.name == CustomName && r.instance == command && r.fullText == output
    ensures !d.ok ==> SameButText(Overlay(d.written, prev), r)
  {
    var decoded := Overlay(d.written, prev);
    if d.ok then decoded
    else decoded.(name := CustomName, instance := command, fullText := output)
  }

  /** A run with `outcome` succeeded and turned the record `before` into `after`. */
  predicate Absorbed(before: Block, after: Block, command: string, outcome: RunOutcome,
                     parse: string -> Decoding) {
    Execute(outcome).Success? &&
    after == Absorb(before, command, Execute(outcome).value, parse(Execute(outcome).value))
  }

  /** `a` and `b` agree on every field except name, instance and full text. */
  predicate SameButText(a: Block, b: Block) {
    a.(name := b.name, instance := b.instance, fullText := b.fullText) == b
  }

  /**
   * Output that is not a block sets the name to "customCmd", the instance to the executable
   * and the full text to the output. Every other field keeps last cycle's value, unless the
   * decoder wrote it: it writes the well-typed fields even when another field has the
   * wrong type.
   */
  lemma {:induction false} FallbackBlock(prev: Block, command: string, output: string, written: PartialBlock)
    ensures var b := Absorb(prev, command, output, Decoding(written, false));
      b.name == CustomName && b.instance == command && b.fullText == output &&
      SameButText(Overlay(written, prev), b) &&
      (written == NoFields ==> SameButText(prev, b))
  {
  }

  /**
   * A command that overran its deadline does not abort the program and, since "Timed out"
   * is not JSON, takes the fallback with nothing decoded: name "customCmd", instance the
   * executable, full text "Timed out", and the other fields as the previous cycle left them.
   */
  lemma {:induction false} TimedOutBlock(prev: Block, command: string, o: RunOutcome, parse: string -> Decoding)
    requires o.deadlineExceeded && ParsesOnlyJson(parse)
    ensures Execute(o) == Success(TimedOutText) && parse(TimedOutText) == Decoding(NoFields, false)
    ensures var b := Absorb(prev, command, TimedOutText, parse(TimedOutText));
      b.name == CustomName && b.instance == command && b.fullText == TimedOutText && SameButText(prev, b)
  {
    TrimSpaceOfTrimmed(TimedOutText);
  }

  /**
   * A block printed by the command (encoded with omitempty) comes out verbatim exactly when
   * the reused record holds nothing in the fields the block leaves out; with a fresh record
   * it always does.
   */
  lemma {:induction false} PrintedBlockVerbatim(prev: Block, command: string, output: string, b: Block)
    ensures Absorb(prev, command, output, Decoding(OmitEmpty(b), true)) == b <==> ZeroWhereAbsent(b, prev)
    ensures Absorb(EmptyBlock, command, output, Decoding(OmitEmpty(b), true)) == b
  {
    OmitEmptyRoundTrip(b, prev);
  }

  /** One custom command; its result record is allocated once and reused every cycle. */
  class CustomCommand {
    const command: string
    const args: seq<string>
    const timeout: int
    var result: Block
    const order: int

    constructor (command: string, args: seq<string>, timeout: int, order: int)
      ensures this.command == command && this.args == args && this.timeout == timeout
      ensures this.order == order && result == EmptyBlock
    {
      this.command := command;
      this.args := args;
      this.timeout := timeout;
      this.order := order;
      result := EmptyBlock;
    }

    /**
     * Runs the command once (its outcome given) and updates the result record; on success
     * reports the command's order, as the completion signal does, and on a process error
     * reports the diagnostic the program exits with.
     */
    method RunJob(outcome: RunOutcome, parse: string -> Decoding) returns (done: Result<int, string>)
      modifies this
      ensures match Execute(outcome)
        case Failure(e) => done == Failure(Diagnostic(command, e)) && result == old(result)
        case Success(out) => done == Success(order) && result == Absorb(old(result), command, out, parse(out))
    {
      var output := Execute(outcome);
      if output.Failure? {
        return Failure(Diagnostic(command, output.error));
      }
      var out := output.value;
      var decoding := parse(out);
      result := Overlay(decoding.written, result);
      if !decoding.ok {
        result := result.(name := CustomName, instance := command, fullText := out);
      }
      done := Success(order);
    }
  }

  /** The list is what the program keeps between cycles: command k sits at index k, once. */
  ghost predicate ValidList(cmdList: seq<CustomCommand>) {
    (forall k :: 0 <= k < |cmdList| ==> cmdList[k].order == k) &&
    (forall j, k :: 0 <= j < k < |cmdList| ==> cmdList[j] != cmdList[k])
  }

  /**
   * Builds one command per argument string, in argument order: the string is split on
   * single blanks into the executable and its arguments, and every command gets the shared
   * timeout, its position as order and a zero-valued result record.
   */
  method BuildCommands(argv: seq<string>, timeout: int) returns (cmdList: seq<CustomCommand>)
    ensures |cmdList| == |argv| && ValidList(cmdList)
    ensures forall k :: 0 <= k < |argv| ==> fresh(cmdList[k])
    ensures forall k :: 0 <= k < |argv| ==>
      Split(argv[k]) == [cmdList[k].command] + cmdList[k].args &&
      Join([cmdList[k].command] + cmdList[k].args) == argv[k] &&
      cmdList[k].timeout == timeout && cmdList[k].order == k && cmdList[k].result == EmptyBlock
  {
    cmdList := [];
    for k := 0 to |argv|
      invariant |cmdList| == k && ValidList(cmdList)
      invariant forall j :: 0 <= j < k ==> fresh(cmdList[j])
      invariant forall j :: 0 <= j < k ==>
        Split(argv[j]) == [cmdList[j].command] + cmdList[j].args &&
        Join([cmdList[j].command] + cmdList[j].args) == argv[j] &&
        cmdList[j].timeout == timeout && cmdList[j].order == j && cmdList[j].result == EmptyBlock
    {
      var cmdSplit := Split(argv[k]);
      JoinSplit(argv[k]);
      var c := new CustomCommand(cmdSplit[0], cmdSplit[1..], timeout, k);
      assert [c.command] + c.args == cmdSplit;
      cmdList := cmdList + [c];
    }
  }
}
