/**
 The report model shared by every part of report-alchemy: positions, problems,
 the sink input protocol, the error kinds, and the Option/Result wrappers
 used for the source's `undefined`/`null` returns and thrown errors.
 */
module Types {

  datatype Option<+T> = None | Some(value: T)

  /** What an operation either returns or throws. */
  datatype Result<+T> = Success(value: T) | Failure(error: Exception) {
    predicate IsFailure() { Failure? }

    function PropagateFailure<U>(): Result<U>
      requires Failure?
    {
      Failure(error)
    }

    function Extract(): T
      requires Success?
    {
      value
    }
  }

  /**
   The errors the core raises. `ConfigurationError` and
   `InvalidSourceDataError` are the two exception classes of the repository;
   `FileSystemError` stands for the rejection of a file read or open.
   */
  datatype Exception =
    | ConfigurationError(message: string)
    | InvalidSourceDataError
    | FileSystemError(path: string)

  /** A location in a file; both numbers are meant to start at 1. */
  datatype Position = Position(line: nat, column: nat)

  predicate ValidPosition(p: Position) {
    p.line >= 1 && p.column >= 1
  }

  datatype Severity = Error | Warning | Info

  /**
   One reported problem. Every field is immutable, which is what the
   source's `readonly` fields and `Object.freeze` calls ensure at run time.
   */
  datatype Problem = Problem(
    filename: string,
    severity: Severity,
    code: Option<string>,
    start: Position,
    end: Position,
    message: string)

  /** A value of a handler option. */
  datatype OptionValue = Text(text: string) | Number(number: int)

  /** Options passed to every handler; the pipeline always passes none. */
  type HandlerOptions = map<string, OptionValue>

  const NoOptions: HandlerOptions := map[]

  /**
   One call of a sink writer: the next problem, or the end-of-stream marker
   that the source spells as `null`.
   */
  datatype SinkInput = Next(problem: Problem) | End

  /** The inputs a sink writer receives when the whole stream is delivered. */
  function Deliveries(problems: seq<Problem>): (t: seq<SinkInput>)
    ensures |t| == |problems|
    ensures forall i :: 0 <= i < |t| ==> t[i] == Next(problems[i])
  {
    if |problems| == 0 then [] else Deliveries(problems[..|problems| - 1]) + [Next(problems[|problems| - 1])]
  }

  /**
   The protocol a sink writer expects: problems one at a time, then exactly
   one terminating end-of-stream marker and nothing after it.
   */
  predicate CompleteSinkTrace(t: seq<SinkInput>) {
    |t| >= 1 && t[|t| - 1] == End && forall i :: 0 <= i < |t| - 1 ==> t[i].Next?
  }

  /** The delivered stream of `problems`, closed by the end marker, obeys the protocol. */
  lemma DeliveriesComplete(problems: seq<Problem>)
    ensures CompleteSinkTrace(Deliveries(problems) + [End])
    ensures |Deliveries(problems) + [End]| == |problems| + 1
  {
    var t := Deliveries(problems) + [End];
    assert t[|t| - 1] == End;
    forall i | 0 <= i < |t| - 1
      ensures t[i].Next?
    {
      assert t[i] == Deliveries(problems)[i];
    }
  }

  /** Problems recovered from a complete trace: the trace determines the stream uniquely. */
  function Delivered(t: seq<SinkInput>): (ps: seq<Problem>)
    requires CompleteSinkTrace(t)
    ensures Deliveries(ps) + [End] == t
  {
    var ps := seq(|t| - 1, i requires 0 <= i < |t| - 1 => t[i].problem);
    assert Deliveries(ps) + [End] == t;
    ps
  }
}
