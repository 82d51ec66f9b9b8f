/**
 * The `CodePlayground` component of
 * `apps/docs/src/components/mdx/code-playground.tsx`: an editor holding a
 * snippet, a run button that captures `console.log` while the snippet
 * runs and shows the captured lines and the returned value, a reset
 * button, and an output panel.
 *
 * Running the snippet is not modelled: its effect is given as an
 * `Outcome` — the `console.log` calls it made, then either the value it
 * returned or what it threw. `JSON.stringify` is not modelled either: an
 * object value carries its JSON text. A logged argument that cannot be
 * printed throws inside the snippet, so it is part of a `Threw` outcome.
 *
 * `console.log` is one global for the whole page: every playground on it
 * shares one `Console`.
 */
module CodePlayground {
  import opened Options
  import opened Text

  /** A JavaScript value as the playground prints it. */
  datatype JsValue =
    | Undefined
    | Obj(json: string)        // `typeof v === 'object'` (with `null`): printed as its JSON
    | Prim(text: string)       // any other value: printed as `String(v)`

  /** What a thrown value prints as: an `Error`'s message, or `String(err)`. */
  datatype Thrown = ErrorObj(message: string) | OtherThrown(text: string)

  /**
   * The effect of running the snippet: it returned a value; it threw; or
   * it returned a value whose result line cannot be built (a Symbol in the
   * template literal, an object `JSON.stringify` rejects), which throws `err`.
   */
  datatype Outcome =
    | Returned(calls: seq<seq<JsValue>>, result: JsValue)
    | Threw(calls: seq<seq<JsValue>>, err: Thrown)
    | Unprintable(calls: seq<seq<JsValue>>, err: Thrown)

  /** Where `console.log` writes: the page's own logger, or the capturing function of run `n`. */
  datatype LogTarget = Original | Capture(n: nat)

  // ---------------------------------------------------------------------
  // Formatting
  // ---------------------------------------------------------------------

  /** `typeof v === 'object' ? JSON.stringify(v, null, 2) : String(v)`. */
  function FormatArg(v: JsValue): string
  {
    match v
    case Undefined => "undefined"
    case Obj(json) => json
    case Prim(text) => text
  }

  /** One `console.log(...args)` call: the printed arguments joined with one space. */
  function FormatLine(args: seq<JsValue>): (r: string)
    ensures |args| == 1 ==> r == FormatArg(args[0])
    ensures args == [] ==> r == ""
  {
    Join(seq(|args|, i requires 0 <= i < |args| => FormatArg(args[i])), " ")
  }

  /** The returned value's line. */
  function ResultLine(v: JsValue): string
  {
    "→ " + FormatArg(v)
  }

  /** The output lines: the logged lines in call order, then the result's line unless it is `undefined`. */
  function OutputLines(logs: seq<string>, result: JsValue): (r: seq<string>)
    ensures |r| == |logs| + (if result.Undefined? then 0 else 1)
    ensures r[..|logs|] == logs
    ensures !result.Undefined? ==> r[|logs|] == ResultLine(result)
  {
    logs + (if result.Undefined? then [] else [ResultLine(result)])
  }

  /** `outputLines.join('\n') || '(no output)'`. */
  function OutputText(logs: seq<string>, result: JsValue): (r: string)
    ensures r != ""
  {
    var t := Join(OutputLines(logs, result), "\n");
    if t == "" then "(no output)" else t
  }

  /** `'\n'.join` with one more part: the new part follows a line break. */
  lemma {:induction false} JoinSnoc(xs: seq<string>, y: string)
    ensures Join(xs + [y], "\n") == if xs == [] then y else Join(xs, "\n") + "\n" + y
    decreases |xs|
  {
    if |xs| > 1 {
      assert (xs + [y])[1..] == xs[1..] + [y];
      JoinSnoc(xs[1..], y);
    } else if |xs| == 1 {
      assert (xs + [y])[1..] == [y];
    }
  }

  /** A returned value other than `undefined` is the last line of the output. */
  lemma ResultShown(logs: seq<string>, result: JsValue)
    requires !result.Undefined?
    ensures exists prefix :: OutputText(logs, result) == prefix + ResultLine(result)
  {
    JoinSnoc(logs, ResultLine(result));
    if logs == [] {
      assert OutputText(logs, result) == [] + ResultLine(result);
    } else {
      assert OutputText(logs, result) == (Join(logs, "\n") + "\n") + ResultLine(result);
    }
  }

  /** The lines join to nothing only when there are none or just one empty line. */
  lemma {:induction false} JoinEmpty(xs: seq<string>)
    ensures Join(xs, "\n") == "" <==> xs == [] || xs == [""]
  {
    if |xs| > 1 {
      assert |Join(xs, "\n")| >= 1;
    }
  }

  /** With no result and no log line, or one empty one, the panel says `(no output)`. */
  lemma NoOutput(logs: seq<string>, result: JsValue)
    requires result.Undefined? && (logs == [] || logs == [""])
    ensures OutputText(logs, result) == "(no output)"
  {
    JoinEmpty(OutputLines(logs, result));
  }

  /** Splitting at `c` after a part free of `c` and a `c` gives that part first. */
  lemma {:induction false} SplitAfter(x: string, c: char, t: string)
    requires c !in x
    ensures Split(x + [c] + t, c) == [x] + Split(t, c)
    decreases |x|
  {
    if x == [] {
      assert [] + [c] + t == [c] + t;
      assert ([c] + t)[1..] == t;
    } else {
      SplitAfter(x[1..], c, t);
      assert (x + [c] + t)[1..] == x[1..] + [c] + t;
      assert [x[0]] + x[1..] == x;
    }
  }

  /** A part free of `c` splits into itself. */
  lemma {:induction false} SplitWhole(x: string, c: char)
    requires c !in x
    ensures Split(x, c) == [x]
    decreases |x|
  {
    if x != [] {
      SplitWhole(x[1..], c);
      assert [x[0]] + x[1..] == x;
    }
  }

  /** Joining lines that hold no line break and splitting the result at line breaks gives the lines back. */
  lemma {:induction false} SplitJoin(lines: seq<string>)
    requires |lines| >= 1 && forall i :: 0 <= i < |lines| ==> '\n' !in lines[i]
    ensures Split(Join(lines, "\n"), '\n') == lines
    decreases |lines|
  {
    if |lines| == 1 {
      SplitWhole(lines[0], '\n');
    } else {
      SplitJoin(lines[1..]);
      SplitAfter(lines[0], '\n', Join(lines[1..], "\n"));
      assert lines[0] + "\n" + Join(lines[1..], "\n") == lines[0] + ['\n'] + Join(lines[1..], "\n");
      assert [lines[0]] + lines[1..] == lines;
    }
  }

  /**
   * Each log call is one line of the output, in call order, followed by
   * the result's line: when no printed value spans several lines, the
   * panel's text splits back into exactly those lines.
   */
  lemma OutputSplits(logs: seq<string>, result: JsValue)
    requires forall i :: 0 <= i < |logs| ==> '\n' !in logs[i]
    requires !result.Undefined? && '\n' !in FormatArg(result)
    ensures Split(OutputText(logs, result), '\n') == OutputLines(logs, result)
  {
    var lines := OutputLines(logs, result);
    assert '\n' !in ResultLine(result) by {
      assert ResultLine(result) == "→ " + FormatArg(result);
    }
    assert forall i :: 0 <= i < |lines| ==> '\n' !in lines[i] by {
      forall i | 0 <= i < |lines| ensures '\n' !in lines[i] {
        if i < |logs| {
          assert lines[i] == lines[..|logs|][i];
        }
      }
    }
    ResultShown(logs, result);
    SplitJoin(lines);
  }

  /** `err instanceof Error ? err.message : String(err)`. */
  function ErrorText(err: Thrown): string
  {
    match err
    case ErrorObj(message) => message
    case OtherThrown(text) => text
  }

  // ---------------------------------------------------------------------
  // The editor and the panel
  // ---------------------------------------------------------------------

  /** The editor's height: the snippet's line count, at least 5 and at most 15. */
  function EditorRows(code: string): (r: nat)
    ensures 5 <= r <= 15
    ensures 5 <= |Split(code, '\n')| <= 15 ==> r == |Split(code, '\n')|
    ensures |Split(code, '\n')| < 5 ==> r == 5
    ensures |Split(code, '\n')| > 15 ==> r == 15
  {
    var lines := |Split(code, '\n')|;
    var atLeast := if lines > 5 then lines else 5;
    if atLeast < 15 then atLeast else 15
  }

  /** JavaScript's truthiness of a `string | null`. */
  predicate Truthy(s: Option<string>)
  {
    s.Some? && s.value != ""
  }

  /** The output panel is rendered when there is output or an error. */
  predicate PanelShown(output: string, error: Option<string>)
  {
    output != "" || Truthy(error)
  }

  /** `error || output`: the panel shows the error when there is one, the output otherwise. */
  function PanelText(output: string, error: Option<string>): (r: string)
    ensures PanelShown(output, error) <==> r != ""
    ensures Truthy(error) ==> r == error.value
    ensures !Truthy(error) ==> r == output
  {
    if Truthy(error) then error.value else output
  }

  // ---------------------------------------------------------------------
  // The console across runs
  // ---------------------------------------------------------------------

  /**
   * `console.log` after run `n` as written: it is restored to what it was
   * before the run only when the snippet returns, so after a throw the
   * capturing function of run `n` stays installed.
   */
  function ConsoleAfterAsWritten(before: LogTarget, outcome: Outcome, n: nat): LogTarget
  {
    if outcome.Threw? then Capture(n) else before
  }

  /** The console after a sequence of runs numbered `first`, `first + 1`, …, as written. */
  function ConsoleAcrossAsWritten(before: LogTarget, outcomes: seq<Outcome>, first: nat): LogTarget
    decreases |outcomes|
  {
    if outcomes == [] then before
    else ConsoleAcrossAsWritten(ConsoleAfterAsWritten(before, outcomes[0], first), outcomes[1..], first + 1)
  }

  /**
   * Once a snippet has thrown, the page's own `console.log` is never
   * installed again, whatever runs follow: each later run saves the stale
   * capturing function and puts it back.
   */
  lemma {:induction false} ThrowLeavesCapture(before: LogTarget, outcomes: seq<Outcome>, first: nat)
    requires outcomes != [] && outcomes[0].Threw?
    ensures ConsoleAcrossAsWritten(before, outcomes, first) != Original
  {
    StaysCaptured(Capture(first), outcomes[1..], first + 1);
  }

  lemma {:induction false} StaysCaptured(before: LogTarget, outcomes: seq<Outcome>, first: nat)
    requires before != Original
    ensures ConsoleAcrossAsWritten(before, outcomes, first) != Original
    decreases |outcomes|
  {
    if outcomes != [] {
      StaysCaptured(ConsoleAfterAsWritten(before, outcomes[0], first), outcomes[1..], first + 1);
    }
  }

  /** A snippet that throws right away. */
  lemma ThrowExample()
    ensures ConsoleAcrossAsWritten(Original, [Threw([], ErrorObj("boom")), Returned([], Undefined)], 0) == Capture(0)
  {
  }

  /** `console.log` after a run with the restore in a `finally`: always what it was before. */
  function ConsoleAfter(before: LogTarget, outcome: Outcome, n: nat): LogTarget
  {
    before
  }

  function ConsoleAcross(before: LogTarget, outcomes: seq<Outcome>, first: nat): LogTarget
    decreases |outcomes|
  {
    if outcomes == [] then before
    else ConsoleAcross(ConsoleAfter(before, outcomes[0], first), outcomes[1..], first + 1)
  }

  /** With the restore in a `finally`, the page's console is in place after any sequence of runs. */
  lemma {:induction false} ConsoleRestored(before: LogTarget, outcomes: seq<Outcome>, first: nat)
    ensures ConsoleAcross(before, outcomes, first) == before
    decreases |outcomes|
  {
    if outcomes != [] {
      ConsoleRestored(before, outcomes[1..], first + 1);
    }
  }

  // ---------------------------------------------------------------------
  // The component's state
  // ---------------------------------------------------------------------

  /** The page's `console.log`, shared by every playground on the page. */
  class Console {
    var log: LogTarget
    /** How many capturing functions have been installed: numbers each run's own. */
    var runs: nat

    constructor()
      ensures log == Original && runs == 0
    {
      log := Original;
      runs := 0;
    }
  }

  /** The component's state cells and the page's console it borrows. */
  class Playground {
    const initialCode: string
    const editable: bool
    const console: Console
    var code: string
    var output: string
    var isRunning: bool
    var error: Option<string>

    /** The initial render: the snippet trimmed, nothing shown. */
    constructor(initialCode: string, editable: bool, console: Console)
      ensures this.initialCode == initialCode && this.editable == editable && this.console == console
      ensures code == Strip(initialCode) && output == "" && !isRunning && error == None
    {
      this.initialCode := initialCode;
      this.editable := editable;
      this.console := console;
      code := Strip(initialCode);
      output := "";
      isRunning := false;
      error := None;
    }

    /** The textarea's `onChange`: edits are taken only when the snippet is editable. */
    method Edit(text: string)
      modifies this
      ensures code == (if editable then text else old(code))
      ensures output == old(output) && isRunning == old(isRunning) && error == old(error)
    {
      if editable {
        code := text;
      }
    }

    /** `resetCode`: the snippet goes back to the trimmed original and the panel is cleared. */
    method Reset()
      modifies this
      ensures code == Strip(initialCode) && output == "" && error == None
      ensures isRunning == old(isRunning)
    {
      code := Strip(initialCode);
      output := "";
      error := None;
    }

    /** The start of `runCode`, shown during the delay: running, nothing in the panel. */
    method BeginRun()
      modifies this
      ensures isRunning && error == None && output == ""
      ensures code == old(code)
    {
      isRunning := true;
      error := None;
      output := "";
    }

    /**
     * The start of the `try`: the current `console.log` is saved and this
     * run's capturing function is installed in its place.
     */
    method InstallCapture() returns (saved: LogTarget, n: nat)
      modifies console
      ensures saved == old(console.log) && n == old(console.runs)
      ensures console.log == Capture(n) && console.runs == n + 1
    {
      saved := console.log;
      n := console.runs;
      console.log := Capture(n);
      console.runs := n + 1;
    }

    /** The capturing `console.log`: each call pushes one formatted line. */
    method CaptureLogs(calls: seq<seq<JsValue>>) returns (logs: seq<string>)
      ensures |logs| == |calls| && forall i :: 0 <= i < |calls| ==> logs[i] == FormatLine(calls[i])
    {
      logs := [];
      for i := 0 to |calls|
        invariant |logs| == i && forall k :: 0 <= k < i ==> logs[k] == FormatLine(calls[k])
      {
        logs := logs + [FormatLine(calls[i])];
      }
    }

    /**
     * The rest of `runCode` as written: the saved `console.log` is put
     * back only once the snippet has returned, before its result is
     * printed.
     */
    method FinishRunAsWritten(saved: LogTarget, outcome: Outcome)
      modifies this, console
      ensures console.log == (if outcome.Threw? then old(console.log) else saved) && console.runs == old(console.runs)
      ensures outcome.Returned? ==> output == OutputText(Lines(outcome.calls), outcome.result) && error == old(error)
      ensures !outcome.Returned? ==> error == Some(ErrorText(outcome.err)) && output == old(output)
      ensures !isRunning && code == old(code)
    {
      var logs := CaptureLogs(outcome.calls);
      LinesAre(outcome.calls, logs);
      match outcome {
        case Returned(_, result) =>
          console.log := saved;
          output := OutputText(logs, result);
        case Unprintable(_, err) =>
          console.log := saved;
          error := Some(ErrorText(err));
        case Threw(_, err) =>
          error := Some(ErrorText(err));
      }
      isRunning := false;
    }

    /** The rest of `runCode` with the restore in a `finally`. */
    method FinishRun(saved: LogTarget, outcome: Outcome)
      modifies this, console
      ensures console.log == saved && console.runs == old(console.runs)
      ensures outcome.Returned? ==> output == OutputText(Lines(outcome.calls), outcome.result) && error == old(error)
      ensures !outcome.Returned? ==> error == Some(ErrorText(outcome.err)) && output == old(output)
      ensures !isRunning && code == old(code)
    {
      var logs := CaptureLogs(outcome.calls);
      LinesAre(outcome.calls, logs);
      match outcome {
        case Returned(_, result) =>
          output := OutputText(logs, result);
        case Unprintable(_, err) =>
          error := Some(ErrorText(err));
        case Threw(_, err) =>
          error := Some(ErrorText(err));
      }
      console.log := saved;
      isRunning := false;
    }

    /**
     * `runCode` as written, with no other run in between: after a return
     * the panel shows the output and the console is restored; after a
     * throw it shows the error (when its text is not empty) and no output,
     * and the run's capturing function stays installed as `console.log`;
     * a result that cannot be printed shows its error with the console
     * already restored.
     */
    method RunCode(outcome: Outcome)
      modifies this, console
      ensures !isRunning && code == old(code) && console.runs == old(console.runs) + 1
      ensures console.log == ConsoleAfterAsWritten(old(console.log), outcome, old(console.runs))
      ensures !outcome.Threw? ==> console.log == old(console.log)
      ensures outcome.Threw? ==> console.log == Capture(old(console.runs))
      ensures outcome.Returned? ==> (error == None && output == OutputText(Lines(outcome.calls), outcome.result) &&
                                     PanelShown(output, error) && PanelText(output, error) == output)
      ensures !outcome.Returned? ==> (output == "" && error == Some(ErrorText(outcome.err)) &&
                                      (PanelShown(output, error) <==> ErrorText(outcome.err) != "") &&
                                      PanelText(output, error) == ErrorText(outcome.err))
    {
      BeginRun();
      var saved, n := InstallCapture();
      FinishRunAsWritten(saved, outcome);
    }

    /** `runCode` corrected: the same panel, and the console restored whatever the snippet does. */
    method RunCodeChecked(outcome: Outcome)
      modifies this, console
      ensures !isRunning && code == old(code) && console.log == old(console.log) && console.runs == old(console.runs) + 1
      ensures outcome.Returned? ==> (error == None && output == OutputText(Lines(outcome.calls), outcome.result) &&
                                     PanelShown(output, error) && PanelText(output, error) == output)
      ensures !outcome.Returned? ==> (output == "" && error == Some(ErrorText(outcome.err)) &&
                                      (PanelShown(output, error) <==> ErrorText(outcome.err) != "") &&
                                      PanelText(output, error) == ErrorText(outcome.err))
    {
      BeginRun();
      var saved, n := InstallCapture();
      FinishRun(saved, outcome);
    }
  }

  /**
   * Two playgrounds on one page whose runs overlap (`a`'s snippet is still
   * awaited when `b` is started) and finish in the order they started: `b`
   * saved `a`'s capturing function and, unless its snippet throws, puts it
   * back last, so the page's own `console.log` is gone even when both
   * snippets return.
   */
  method OverlappingRuns(a: Playground, b: Playground, oa: Outcome, ob: Outcome)
    requires a != b && a.console == b.console
    modifies a, b, a.console
    ensures !ob.Threw? ==> a.console.log == Capture(old(a.console.runs))
    ensures ob.Threw? ==> a.console.log == (if oa.Threw? then Capture(old(a.console.runs) + 1) else old(a.console.log))
  {
    a.BeginRun();
    var savedA, nA := a.InstallCapture();
    b.BeginRun();
    var savedB, nB := b.InstallCapture();
    a.FinishRunAsWritten(savedA, oa);
    b.FinishRunAsWritten(savedB, ob);
  }

  /** The same overlap with the restore in a `finally`: the stale capture stays. */
  method OverlappingRunsChecked(a: Playground, b: Playground, oa: Outcome, ob: Outcome)
    requires a != b && a.console == b.console
    modifies a, b, a.console
    ensures a.console.log == Capture(old(a.console.runs))
  {
    a.BeginRun();
    var savedA, nA := a.InstallCapture();
    b.BeginRun();
    var savedB, nB := b.InstallCapture();
    a.FinishRun(savedA, oa);
    b.FinishRun(savedB, ob);
  }

  /** The logged lines of some calls, in call order. */
  function Lines(calls: seq<seq<JsValue>>): (r: seq<string>)
    ensures |r| == |calls| && forall i :: 0 <= i < |calls| ==> r[i] == FormatLine(calls[i])
  {
    seq(|calls|, i requires 0 <= i < |calls| => FormatLine(calls[i]))
  }

  lemma LinesAre(calls: seq<seq<JsValue>>, logs: seq<string>)
    requires |logs| == |calls| && forall i :: 0 <= i < |calls| ==> logs[i] == FormatLine(calls[i])
    ensures logs == Lines(calls)
  {
  }
}
