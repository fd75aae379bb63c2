/** The double confirmation `confirm_action`: two lines read from standard
    input, each stripped and compared case-sensitively with a fixed token. */
module Confirmation {
  import opened Text

  const FirstToken := "CONFIRMO"
  const SecondToken := "SIM"

  /** unconfirmed -> first-confirmed -> confirmed, or aborted from either
      pending state. */
  datatype GateState = Unconfirmed | FirstConfirmed | Confirmed | Aborted

  /** How the gate ends: the operation may proceed, it was cancelled, or
      standard input ended while a line was awaited (`input()` raises
      `EOFError`). */
  datatype Answer = Proceed | Cancelled | InputClosed

  /** The transition on one line read in a pending state. */
  function Step(s: GateState, line: string): GateState {
    match s
    case Unconfirmed => if Strip(line) == FirstToken then FirstConfirmed else Aborted
    case FirstConfirmed => if Strip(line) == SecondToken then Confirmed else Aborted
    case _ => s
  }

  /** Runs the gate from state `s` on the remaining input, reading a line
      only while the gate is pending; the second component counts the lines
      read. */
  function RunGate(s: GateState, input: seq<string>): (r: (Answer, nat))
    ensures r.1 <= |input|
    decreases |input|
  {
    match s
    case Confirmed => (Proceed, 0)
    case Aborted => (Cancelled, 0)
    case _ =>
      if input == [] then (InputClosed, 0)
      else
        var (a, n) := RunGate(Step(s, input[0]), input[1..]);
        (a, n + 1)
  }

  /** `confirm_action(...)` on the lines standard input will deliver. */
  function ConfirmAction(input: seq<string>): (Answer, nat) {
    RunGate(Unconfirmed, input)
  }

  /** What the gate decides and how many lines it reads, stated directly on
      the input: it proceeds exactly when the first two lines strip to the
      two tokens, a first mismatch cancels after one line, a second mismatch
      after two, and a missing line ends it with the input error. */
  lemma ConfirmActionOutcome(input: seq<string>)
    ensures var (a, n) := ConfirmAction(input);
      (a == Proceed <==> |input| >= 2 && Strip(input[0]) == FirstToken && Strip(input[1]) == SecondToken) &&
      (|input| >= 1 && Strip(input[0]) != FirstToken ==> a == Cancelled && n == 1) &&
      (|input| >= 2 && Strip(input[0]) == FirstToken && Strip(input[1]) != SecondToken ==> a == Cancelled && n == 2) &&
      (a == InputClosed <==> |input| == 0 || (|input| == 1 && Strip(input[0]) == FirstToken)) &&
      (a == Proceed ==> n == 2)
  {
    if |input| >= 1 {
      var s1 := Step(Unconfirmed, input[0]);
      assert ConfirmAction(input).0 == RunGate(s1, input[1..]).0;
      if s1 == FirstConfirmed && |input| >= 2 {
        var s2 := Step(s1, input[1]);
        assert input[1..][0] == input[1] && input[1..][1..] == input[2..];
        assert RunGate(s1, input[1..]) == (RunGate(s2, input[2..]).0, RunGate(s2, input[2..]).1 + 1);
        assert RunGate(s2, input[2..]) == if s2 == Confirmed then (Proceed, 0) else (Cancelled, 0);
      }
    }
  }

  /** One line read in a pending state. */
  lemma RunGateStep(s: GateState, input: seq<string>)
    requires (s == Unconfirmed || s == FirstConfirmed) && input != []
    ensures RunGate(s, input) == (RunGate(Step(s, input[0]), input[1..]).0, RunGate(Step(s, input[0]), input[1..]).1 + 1)
  {
  }

  /** The gate reads at most the two answers, and runs out of input only
      after reading all there was. */
  lemma ConfirmActionReadsAtMostTwo(input: seq<string>)
    ensures ConfirmAction(input).1 <= 2
    ensures ConfirmAction(input).0 == InputClosed ==> ConfirmAction(input).1 == |input|
  {
    if |input| >= 1 {
      RunGateStep(Unconfirmed, input);
      var s1 := Step(Unconfirmed, input[0]);
      if s1 == FirstConfirmed && |input| >= 2 {
        RunGateStep(s1, input[1..]);
        assert input[1..][0] == input[1] && input[1..][1..] == input[2..];
      }
    }
  }

  /** Only the lines the gate reads matter: whatever follows them, the
      decision is the same. When the first line is wrong the second is never
      looked at. */
  lemma ConfirmActionReadsOnlyWhatItUses(input: seq<string>, rest: seq<string>)
    requires ConfirmAction(input).0 != InputClosed
    ensures var n := ConfirmAction(input).1;
      n <= |input| && ConfirmAction(input[..n] + rest) == ConfirmAction(input)
  {
    assert input != [];
    if Step(Unconfirmed, input[0]) == Aborted {
      FirstAnswerRefused(input, rest);
    } else {
      SecondAnswerDecides(input, rest);
    }
  }

  lemma FirstAnswerRefused(input: seq<string>, rest: seq<string>)
    requires input != [] && Step(Unconfirmed, input[0]) == Aborted
    ensures ConfirmAction(input) == (Cancelled, 1) == ConfirmAction(input[..1] + rest)
  {
    RunGateStep(Unconfirmed, input);
    RunGateSettled(Aborted, input[1..]);
    assert input[..1] + rest == [input[0]] + rest;
    RunGateCons(Unconfirmed, input[0], rest);
    RunGateSettled(Aborted, rest);
  }

  lemma SecondAnswerDecides(input: seq<string>, rest: seq<string>)
    requires input != [] && Step(Unconfirmed, input[0]) == FirstConfirmed
    requires ConfirmAction(input).0 != InputClosed
    ensures |input| >= 2 && ConfirmAction(input).1 == 2 && ConfirmAction(input[..2] + rest) == ConfirmAction(input)
  {
    assert |input| >= 2 by {
      RunGateStep(Unconfirmed, input);
    }
    var s2 := Step(FirstConfirmed, input[1]);
    var decided := (if s2 == Confirmed then Proceed else Cancelled, 2);
    assert ConfirmAction(input) == decided by {
      RunGateStep(Unconfirmed, input);
      RunGateStep(FirstConfirmed, input[1..]);
      RunGateSettled(s2, input[2..]);
    }
    assert input[..2] + rest == [input[0]] + ([input[1]] + rest);
    TwoAnswersThen(input[0], input[1], rest);
  }

  /** Two answers, the first accepted, decide the gate whatever follows. */
  lemma TwoAnswersThen(first: string, second: string, rest: seq<string>)
    requires Step(Unconfirmed, first) == FirstConfirmed
    ensures ConfirmAction([first] + ([second] + rest)) ==
      (if Step(FirstConfirmed, second) == Confirmed then Proceed else Cancelled, 2)
  {
    RunGateCons(Unconfirmed, first, [second] + rest);
    RunGateCons(FirstConfirmed, second, rest);
    RunGateSettled(Step(FirstConfirmed, second), rest);
  }

  /** Once decided, the gate reads nothing more. */
  lemma RunGateSettled(s: GateState, a: seq<string>)
    requires s == Confirmed || s == Aborted
    ensures RunGate(s, a) == (if s == Confirmed then Proceed else Cancelled, 0)
  {
  }

  /** One line read in a pending state, with the line and the remaining
      input given apart. */
  lemma RunGateCons(s: GateState, line: string, tail: seq<string>)
    requires s == Unconfirmed || s == FirstConfirmed
    ensures RunGate(s, [line] + tail) == (RunGate(Step(s, line), tail).0, RunGate(Step(s, line), tail).1 + 1)
  {
    assert ([line] + tail)[0] == line && ([line] + tail)[1..] == tail;
  }

  /** The comparison is case-sensitive: a lower-case first answer cancels. */
  lemma LowerCaseFirstAnswerCancels()
    ensures ConfirmAction(["confirmo", "SIM"]) == (Cancelled, 1)
  {
    assert Unpadded("confirmo");
    StripSpec("confirmo");
    ConfirmActionOutcome(["confirmo", "SIM"]);
  }

  /** Surrounding whitespace on either answer is ignored. */
  lemma PaddedAnswersProceed(lead1: string, trail1: string, lead2: string, trail2: string)
    requires AllSpace(lead1) && AllSpace(trail1) && AllSpace(lead2) && AllSpace(trail2)
    ensures ConfirmAction([lead1 + FirstToken + trail1, lead2 + SecondToken + trail2]) == (Proceed, 2)
  {
    StripRemovesPadding(lead1, FirstToken, trail1);
    StripRemovesPadding(lead2, SecondToken, trail2);
    ConfirmActionOutcome([lead1 + FirstToken + trail1, lead2 + SecondToken + trail2]);
  }
}
