/** The conversion client of src/index.ts: the option-defaulting merge,
    the argument vectors handed to the `pandoc` binary, and the promise that
    `convert` settles from the child process's events. */
module Client {
  import opened JsRuntime
  import Paths

  // ---------------------------------------------------------------------
  // Plain objects and `defaults`
  // ---------------------------------------------------------------------

  /** A plain JavaScript object: its own string-keyed properties in
      insertion order. */
  type Object = seq<(string, Value)>

  /** `Object.keys(o)`. */
  function Keys(o: Object): seq<string> {
    if o == [] then [] else [o[0].0] + Keys(o[1..])
  }

  predicate Distinct(ks: seq<string>) {
    forall i, j :: 0 <= i < j < |ks| ==> ks[i] != ks[j]
  }

  /** An object never has the same key twice. */
  predicate WellFormed(o: Object) {
    Distinct(Keys(o))
  }

  /** `o[k]`: the property's value, `undefined` when `o` has no such key. */
  function Get(o: Object, k: string): Value {
    if o == [] then Undefined else if o[0].0 == k then o[0].1 else Get(o[1..], k)
  }

  lemma {:induction false} GetAbsent(o: Object, k: string)
    requires k !in Keys(o)
    ensures Get(o, k) == Undefined
  {
    if o != [] {
      GetAbsent(o[1..], k);
    }
  }

  /** `{...o, [k]: v}`: an existing key keeps its place and takes the new
      value, a new key is appended. */
  function Put(o: Object, k: string, v: Value): (r: Object)
    ensures Keys(r) == if k in Keys(o) then Keys(o) else Keys(o) + [k]
    ensures Get(r, k) == v
    ensures forall k' :: k' != k ==> Get(r, k') == Get(o, k')
  {
    if o == [] then [(k, v)]
    else if o[0].0 == k then [(k, v)] + o[1..]
    else
      var rest := Put(o[1..], k, v);
      assert Keys([o[0]] + rest) == [o[0].0] + Keys(rest) by {
        assert ([o[0]] + rest)[1..] == rest;
      }
      [o[0]] + rest
  }

  /** The accumulator of `Object.keys(defaultOption).reduce(...)` after
      the keys `ks` have been processed. */
  function Reduce(options: Object, defaultOption: Object, ks: seq<string>): Object
    decreases |ks|
  {
    if ks == [] then []
    else
      var k := ks[|ks| - 1];
      Put(Reduce(options, defaultOption, ks[..|ks| - 1]), k, Or(Get(options, k), Get(defaultOption, k)))
  }

  /** `defaults(options, defaultOption)`. */
  function Defaults(options: Object, defaultOption: Object): Object {
    Reduce(options, defaultOption, Keys(defaultOption))
  }

  lemma {:induction false} ReduceKeys(options: Object, defaultOption: Object, ks: seq<string>)
    requires Distinct(ks)
    ensures Keys(Reduce(options, defaultOption, ks)) == ks
    decreases |ks|
  {
    if ks != [] {
      var init := ks[..|ks| - 1];
      var k := ks[|ks| - 1];
      assert Distinct(init) by {
        assert forall i :: 0 <= i < |init| ==> init[i] == ks[i];
      }
      ReduceKeys(options, defaultOption, init);
      var prev := Reduce(options, defaultOption, init);
      assert Keys(prev) == init;
      assert k !in Keys(prev) by {
        assert forall i :: 0 <= i < |init| ==> init[i] == ks[i] && i < |ks| - 1;
      }
      assert Reduce(options, defaultOption, ks) == Put(prev, k, Or(Get(options, k), Get(defaultOption, k)));
      assert ks == init + [k];
    }
  }

  lemma {:induction false} ReduceGet(options: Object, defaultOption: Object, ks: seq<string>, k: string)
    ensures Get(Reduce(options, defaultOption, ks), k)
            == if k in ks then Or(Get(options, k), Get(defaultOption, k)) else Undefined
    decreases |ks|
  {
    if ks != [] {
      var init := ks[..|ks| - 1];
      ReduceGet(options, defaultOption, init, k);
      assert ks == init + [ks[|ks| - 1]];
    }
  }

  /** The merged object has exactly the keys of `defaultOption`, in order;
      keys present only in `options` are dropped. */
  lemma DefaultsKeys(options: Object, defaultOption: Object)
    requires WellFormed(defaultOption)
    ensures Keys(Defaults(options, defaultOption)) == Keys(defaultOption)
    ensures WellFormed(Defaults(options, defaultOption))
  {
    ReduceKeys(options, defaultOption, Keys(defaultOption));
  }

  /** Each key takes the override when it is truthy and the default
      otherwise; any other key reads as `undefined`. */
  lemma DefaultsGet(options: Object, defaultOption: Object, k: string)
    requires WellFormed(defaultOption)
    ensures k in Keys(defaultOption) && Truthy(Get(options, k)) ==>
              Get(Defaults(options, defaultOption), k) == Get(options, k)
    ensures k in Keys(defaultOption) && !Truthy(Get(options, k)) ==>
              Get(Defaults(options, defaultOption), k) == Get(defaultOption, k)
    ensures k !in Keys(defaultOption) ==> Get(Defaults(options, defaultOption), k) == Undefined
  {
    ReduceGet(options, defaultOption, Keys(defaultOption), k);
  }

  // ---------------------------------------------------------------------
  // The Pandoc client object and its argument vectors
  // ---------------------------------------------------------------------

  /** `defaultPandocOption`, with the cache root passed in. */
  function DefaultPandocOption(binaryRoot: string): Object {
    [("pandocBin", Str(Paths.Join(binaryRoot, "pandoc"))),
     ("pandocCiteProcBin", Str(Paths.Join(binaryRoot, "pandoc-citeproc")))]
  }

  /** `new Pandoc(options)`: both binary paths default to the cache root,
      each overridden independently by a truthy value in `options`. */
  function NewPandoc(options: Object, binaryRoot: string): (p: Pandoc)
    ensures Keys(p.defaultOptions) == ["pandocBin", "pandocCiteProcBin"]
    ensures p.Bin() == if Truthy(Get(options, "pandocBin")) then Get(options, "pandocBin")
                       else Str(Paths.Join(binaryRoot, "pandoc"))
    ensures Get(p.defaultOptions, "pandocCiteProcBin")
            == if Truthy(Get(options, "pandocCiteProcBin")) then Get(options, "pandocCiteProcBin")
               else Str(Paths.Join(binaryRoot, "pandoc-citeproc"))
  {
    var d := DefaultPandocOption(binaryRoot);
    assert Keys(d) == ["pandocBin", "pandocCiteProcBin"] by {
      assert d[1..][1..] == [];
      assert Keys(d[1..]) == [d[1].0] + Keys(d[1..][1..]);
    }
    DefaultsKeys(options, d);
    DefaultsGet(options, d, "pandocBin");
    DefaultsGet(options, d, "pandocCiteProcBin");
    Pandoc(Defaults(options, d))
  }

  /** The arguments of one `spawn(command, args, options)` call. */
  datatype SpawnCall = SpawnCall(command: Value, args: seq<string>, options: Option<Object>)

  /** `-f from -t to` followed by `args` when it is present and non-empty. */
  function Argv(from: string, to: string, args: Option<seq<string>>): (argv: seq<string>)
    ensures argv == ["-f", from, "-t", to] + args.GetOr([])
    ensures argv[..4] == ["-f", from, "-t", to]
  {
    var defaultArgs := ["-f", from, "-t", to];
    if args.Some? && |args.value| > 0 then defaultArgs + args.value else defaultArgs
  }

  /** The argument list `convertToFile` hands to `convert`. */
  function FileArgs(output: string, args: Option<seq<string>>): seq<string> {
    ["-o", output] + args.GetOr([])
  }

  /** The full vector of `convertToFile`: `-o output` comes right after the formats. */
  lemma ConvertToFileArgv(from: string, to: string, output: string, args: Option<seq<string>>)
    ensures Argv(from, to, Some(FileArgs(output, args)))
            == ["-f", from, "-t", to, "-o", output] + args.GetOr([])
  {
  }

  datatype Pandoc = Pandoc(defaultOptions: Object) {

    /** `this.defaultOptions.pandocBin`. */
    function Bin(): Value {
      Get(defaultOptions, "pandocBin")
    }

    /** `stream` as written: the options branch is inverted, so a defined
        `options` is dropped and an undefined one is passed on. */
    function StreamAsWritten(from: string, to: string, args: Option<seq<string>>,
                             options: Option<Object>): (call: SpawnCall)
      ensures call.command == Bin() && call.args == Argv(from, to, args)
      ensures call.options == None
    {
      var arg := Argv(from, to, args);
      if options.Some? then SpawnCall(Bin(), arg, None) else SpawnCall(Bin(), arg, options)
    }

    /** `stream` as the comment beside it intends: the spawn options, when
        given, reach `spawn`. */
    function Stream(from: string, to: string, args: Option<seq<string>>,
                    options: Option<Object>): (call: SpawnCall)
      ensures call.command == Bin() && call.args == Argv(from, to, args)
      ensures call.options == options
    {
      var arg := Argv(from, to, args);
      if options.Some? then SpawnCall(Bin(), arg, options) else SpawnCall(Bin(), arg, None)
    }

    /** `convert`: spawns the binary, arranges to collect its output and
        writes `src` to its standard input. The returned object is the
        pending promise; the event methods of Conversion settle it. */
    method Convert(src: string, from: string, to: string, args: Option<seq<string>>,
                   options: Option<Object>) returns (c: Conversion)
      ensures fresh(c)
      ensures c.spawned == Stream(from, to, args, options) && c.stdin == src
      ensures c.State() == Initial()
    {
      c := new Conversion(Stream(from, to, args, options), src);
    }

    /** `convertToFile`: `convert` with `-o output` put in front of `args`. */
    method ConvertToFile(str: string, from: string, to: string, output: string,
                         args: Option<seq<string>>, options: Option<Object>) returns (c: Conversion)
      ensures fresh(c)
      ensures c.spawned.command == Bin() && c.spawned.options == options
      ensures c.spawned.args == ["-f", from, "-t", to, "-o", output] + args.GetOr([])
      ensures c.stdin == str && c.State() == Initial()
    {
      c := Convert(str, from, to, Some(FileArgs(output, args)), options);
    }
  }

  /** The inverted branch loses any options the caller gives; the
      corrected `stream` hands them on. */
  lemma StreamAsWrittenDropsOptions(p: Pandoc, from: string, to: string,
                                    args: Option<seq<string>>, o: Object)
    ensures p.StreamAsWritten(from, to, args, Some(o)).options != Some(o)
    ensures p.Stream(from, to, args, Some(o)).options == Some(o)
    ensures p.StreamAsWritten(from, to, args, Some(o)).args == p.Stream(from, to, args, Some(o)).args
  {
  }

  // ---------------------------------------------------------------------
  // Settling the promise of `convert`
  // ---------------------------------------------------------------------

  /** Why the promise was rejected: an `Error` built from the close
      handler's message, or the error the child process emitted. */
  datatype Reason = ExitError(message: string) | SpawnError(err: string)

  datatype Outcome = Pending | Resolved(text: string) | Rejected(reason: Reason)

  /** What the child process can deliver. `Closed(None)` is a `close` with
      a null code (the process was killed by a signal). */
  datatype Event = SpawnFailed(err: string) | Stdout(chunk: string) | Stderr(chunk: string)
                 | Closed(code: Option<int>)

  /** The closure state of one `convert` call. */
  datatype ConvState = ConvState(result: string, error: string, outcome: Outcome)

  function Initial(): ConvState {
    ConvState("", "", Pending)
  }

  /** `'' + code` for the code the `close` event carries. */
  function CodeText(code: Option<int>): string {
    match code
    case None => "null"
    case Some(n) => NumberToString(n)
  }

  /** What the `close` handler asks for, given the accumulated texts. */
  function CloseOutcome(code: Option<int>, error: string, result: string): (o: Outcome)
    ensures code != Some(0) && error != "" ==>
              o == Rejected(ExitError("pandoc exited with code " + CodeText(code) + ": " + error))
    ensures code != Some(0) && error == "" ==>
              o == Rejected(ExitError("pandoc exited with code " + CodeText(code) + "."))
    ensures code == Some(0) && error != "" ==> o == Rejected(ExitError(error))
    ensures code == Some(0) && error == "" ==> o == Resolved(result)
  {
    var head := if code != Some(0) then
                  "pandoc exited with code " + CodeText(code) + (if error != "" then ": " else ".")
                else "";
    var msg := head + (if error != "" then error else "");
    assert code != Some(0) && error == "" ==> msg == head && |msg| > 0;
    assert code == Some(0) ==> msg == (if error != "" then error else "");
    if msg != "" then Rejected(ExitError(msg)) else Resolved(result)
  }

  /** Equal texts around the same prefix and suffix have equal middles. */
  lemma SameMiddle(pre: string, t1: string, t2: string, post: string)
    requires pre + t1 + post == pre + t2 + post
    ensures t1 == t2
  {
    var m := pre + t1 + post;
    assert |t1| == |t2|;
    assert t1 == m[|pre|..|pre| + |t1|];
    assert t2 == (pre + t2 + post)[|pre|..|pre| + |t2|];
  }

  /** The rejection for a non-zero code, with the separator and the
      diagnostics joined into one tail. */
  lemma ExitMessage(c: int, error: string, result: string)
    requires c != 0
    ensures CloseOutcome(Some(c), error, result)
            == Rejected(ExitError("pandoc exited with code " + NumberToString(c)
                                  + (if error != "" then ": " + error else ".")))
  {
    var pre := "pandoc exited with code " + NumberToString(c);
    if error != "" {
      assert pre + ": " + error == pre + (": " + error);
    }
  }

  /** A rejection message names the exit code it came from. */
  lemma ExitMessageDeterminesCode(c1: int, c2: int, error: string, result: string)
    requires c1 != 0 && c2 != 0
    requires CloseOutcome(Some(c1), error, result) == CloseOutcome(Some(c2), error, result)
    ensures c1 == c2
  {
    ExitMessage(c1, error, result);
    ExitMessage(c2, error, result);
    SameMiddle("pandoc exited with code ", NumberToString(c1), NumberToString(c2),
               if error != "" then ": " + error else ".");
    NumberToStringInjective(c1, c2);
  }

  /** `resolve`/`reject` on a settled promise change nothing. */
  function Settle(current: Outcome, next: Outcome): Outcome {
    if current.Pending? then next else current
  }

  /** The settlement a terminating event asks for. */
  function EventOutcome(e: Event, error: string, result: string): Outcome
    requires Settles(e)
  {
    match e
    case SpawnFailed(err) => Rejected(SpawnError(err))
    case Closed(code) => CloseOutcome(code, error, result)
  }

  predicate Settles(e: Event) {
    e.SpawnFailed? || e.Closed?
  }

  /** One handler run. */
  function Step(s: ConvState, e: Event): ConvState {
    match e
    case SpawnFailed(_) => s.(outcome := Settle(s.outcome, EventOutcome(e, s.error, s.result)))
    case Stdout(chunk) => s.(result := s.result + chunk)
    case Stderr(chunk) => s.(error := s.error + chunk)
    case Closed(_) => s.(outcome := Settle(s.outcome, EventOutcome(e, s.error, s.result)))
  }

  /** The state after the events `evs`, in delivery order. */
  function Replay(evs: seq<Event>): ConvState
    decreases |evs|
  {
    if evs == [] then Initial() else Step(Replay(evs[..|evs| - 1]), evs[|evs| - 1])
  }

  /** The stdout chunks of `evs`, concatenated in order. */
  function StdoutText(evs: seq<Event>): string
    decreases |evs|
  {
    if evs == [] then ""
    else (if evs[0].Stdout? then evs[0].chunk else "") + StdoutText(evs[1..])
  }

  /** The stderr chunks of `evs`, concatenated in order. */
  function StderrText(evs: seq<Event>): string
    decreases |evs|
  {
    if evs == [] then ""
    else (if evs[0].Stderr? then evs[0].chunk else "") + StderrText(evs[1..])
  }

  lemma {:induction false} StdoutTextSnoc(evs: seq<Event>, e: Event)
    ensures StdoutText(evs + [e]) == StdoutText(evs) + (if e.Stdout? then e.chunk else "")
    decreases |evs|
  {
    if evs == [] {
      assert [e][1..] == [];
    } else {
      assert (evs + [e])[0] == evs[0];
      assert (evs + [e])[1..] == evs[1..] + [e];
      StdoutTextSnoc(evs[1..], e);
    }
  }

  lemma {:induction false} StderrTextSnoc(evs: seq<Event>, e: Event)
    ensures StderrText(evs + [e]) == StderrText(evs) + (if e.Stderr? then e.chunk else "")
    decreases |evs|
  {
    if evs == [] {
      assert [e][1..] == [];
    } else {
      assert (evs + [e])[0] == evs[0];
      assert (evs + [e])[1..] == evs[1..] + [e];
      StderrTextSnoc(evs[1..], e);
    }
  }

  /** `result` and `error` are the in-order concatenations of the stdout
      and stderr chunks, whenever the promise settled. */
  lemma {:induction false} ReplayAccumulates(evs: seq<Event>)
    ensures Replay(evs).result == StdoutText(evs)
    ensures Replay(evs).error == StderrText(evs)
    decreases |evs|
  {
    if evs != [] {
      var init := evs[..|evs| - 1];
      ReplayAccumulates(init);
      assert evs == init + [evs[|evs| - 1]];
      StdoutTextSnoc(init, evs[|evs| - 1]);
      StderrTextSnoc(init, evs[|evs| - 1]);
    }
  }

  /** The first settlement wins: once settled, later events keep the outcome. */
  lemma {:induction false} FirstSettlementWins(a: seq<Event>, b: seq<Event>)
    requires !Replay(a).outcome.Pending?
    ensures Replay(a + b).outcome == Replay(a).outcome
    decreases |b|
  {
    if b != [] {
      var init := b[..|b| - 1];
      FirstSettlementWins(a, init);
      assert (a + b)[..|a + b| - 1] == a + init;
      assert (a + b)[|a + b| - 1] == b[|b| - 1];
      assert Replay(a + b) == Step(Replay(a + init), b[|b| - 1]);
    } else {
      assert a + b == a;
    }
  }

  /** The promise is pending exactly while no `error` or `close` event has come. */
  lemma {:induction false} PendingUntilSettled(evs: seq<Event>)
    ensures Replay(evs).outcome.Pending? <==> forall i :: 0 <= i < |evs| ==> !Settles(evs[i])
    decreases |evs|
  {
    if evs != [] {
      var init := evs[..|evs| - 1];
      PendingUntilSettled(init);
      var last := evs[|evs| - 1];
      if Settles(last) {
        assert !Replay(evs).outcome.Pending? by {
          var o := EventOutcome(last, Replay(init).error, Replay(init).result);
          assert !o.Pending?;
        }
      }
      assert forall i :: 0 <= i < |init| ==> init[i] == evs[i];
    }
  }

  /** A terminating event on a pending promise settles it as that event asks. */
  lemma SettlingStep(before: seq<Event>, e: Event)
    requires Replay(before).outcome.Pending? && Settles(e)
    ensures Replay(before + [e]).outcome == EventOutcome(e, Replay(before).error, Replay(before).result)
  {
    assert (before + [e])[..|before|] == before;
  }

  /** Before the first terminating event the promise is still pending. */
  lemma PendingBefore(evs: seq<Event>, i: nat)
    requires i <= |evs|
    requires forall j :: 0 <= j < i ==> !Settles(evs[j])
    ensures Replay(evs[..i]).outcome.Pending?
  {
    var before := evs[..i];
    assert forall j :: 0 <= j < |before| ==> before[j] == evs[j];
    PendingUntilSettled(before);
  }

  lemma SplitAt(evs: seq<Event>, i: nat)
    requires i < |evs|
    ensures evs == (evs[..i] + [evs[i]]) + evs[i + 1..]
  {
  }

  /** The outcome is the one the first `error` or `close` event asks for,
      computed from the chunks delivered before it. */
  lemma SettledByFirstTerminalEvent(evs: seq<Event>, i: nat)
    requires i < |evs| && Settles(evs[i])
    requires forall j :: 0 <= j < i ==> !Settles(evs[j])
    ensures Replay(evs).outcome == EventOutcome(evs[i], StderrText(evs[..i]), StdoutText(evs[..i]))
  {
    var before := evs[..i];
    PendingBefore(evs, i);
    ReplayAccumulates(before);
    SettlingStep(before, evs[i]);
    SplitAt(evs, i);
    FirstSettlementWins(before + [evs[i]], evs[i + 1..]);
  }

  /** The promise of one `convert` call together with the closure
      variables its event handlers update. */
  class Conversion {
    const spawned: SpawnCall
    const stdin: string
    var result: string
    var error: string
    var outcome: Outcome

    function State(): ConvState
      reads this
    {
      ConvState(result, error, outcome)
    }

    constructor (spawned: SpawnCall, stdin: string)
      ensures this.spawned == spawned && this.stdin == stdin
      ensures State() == Initial()
    {
      this.spawned := spawned;
      this.stdin := stdin;
      result := "";
      error := "";
      outcome := Pending;
    }

    /** `pandoc.on('error', err => reject(err))`. */
    method OnError(err: string)
      modifies this
      ensures result == old(result) && error == old(error)
      ensures outcome == if old(outcome).Pending? then Rejected(SpawnError(err)) else old(outcome)
      ensures State() == Step(old(State()), SpawnFailed(err))
    {
      if outcome.Pending? {
        outcome := Rejected(SpawnError(err));
      }
    }

    /** `pandoc.stdout.on('data', data => result += data)`. */
    method OnStdout(chunk: string)
      modifies this
      ensures result == old(result) + chunk
      ensures error == old(error) && outcome == old(outcome)
      ensures State() == Step(old(State()), Stdout(chunk))
    {
      result := result + chunk;
    }

    /** `pandoc.stderr.on('data', data => error += data)`. */
    method OnStderr(chunk: string)
      modifies this
      ensures error == old(error) + chunk
      ensures result == old(result) && outcome == old(outcome)
      ensures State() == Step(old(State()), Stderr(chunk))
    {
      error := error + chunk;
    }

    /** `pandoc.on('close', code => ...)`: rejects with the message of
        CloseOutcome, or resolves with the collected output. */
    method OnClose(code: Option<int>)
      modifies this
      ensures result == old(result) && error == old(error)
      ensures outcome == Settle(old(outcome), CloseOutcome(code, old(error), old(result)))
      ensures State() == Step(old(State()), Closed(code))
    {
      outcome := Settle(outcome, CloseOutcome(code, error, result));
    }
  }
}
