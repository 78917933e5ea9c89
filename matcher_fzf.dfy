/**
 The denite filter `matcher_fzf`: a lazily initialised adapter that locates
 the fzf binary once, disables itself for good when it cannot, and otherwise
 keeps the candidates whose word occurs in what `fzf +s -f <input>` prints.

 The calls into the outside world are supplied by the caller as a `Host`
 value: `shutil.which`, denite's `globruntime`, the fzf process
 (`Popen.communicate`) and the codec named by the context's `encoding`.
 Everything the filter says to the editor through `error(...)`, and every
 lookup and process it starts, is recorded as an `Effect`.
 */
module MatcherFzf {
  import opened Selection

  datatype Option<T> = None | Some(value: T)

  /** Python's `if fzf_bin:`: neither `None` nor the empty path. */
  predicate Truthy(bin: Option<string>)
  {
    bin.Some? && bin.value != ""
  }

  /** What `communicate` hands back: the raw bytes of standard output and of
      standard error. */
  datatype ProcessOutput = ProcessOutput(stdout: seq<bv8>, stderr: seq<bv8>)

  /** The outside world as seen by one call of the filter. */
  datatype Host = Host(
    which: string -> Option<string>,                      // shutil.which(name)
    globruntime: (string, string) -> seq<string>,         // globruntime(runtimepath, path)
    communicate: (seq<string>, seq<bv8>) -> ProcessOutput, // run argv with the given stdin
    encode: (string, string) -> seq<bv8>,                 // text.encode(encoding)
    decode: (seq<bv8>, string) -> string)                 // bytes.decode(encoding)

  /** The entries of denite's context dictionary that the filter reads. */
  datatype Context = Context(
    candidates: seq<Candidate>,
    input: string,
    isWindows: bool,
    runtimepath: string,
    encoding: string)

  /** Observable actions of one call, in the order they happen. */
  datatype Effect =
    | Which(program: string)
    | GlobRuntime(runtimepath: string, path: string)
    | Error(message: string)
    | Spawn(args: seq<string>, stdin: seq<bv8>)

  /** The three private fields `__initialized`, `__fzf_bin`, `__disabled`. */
  datatype FilterState = FilterState(initialized: bool, fzfBin: Option<string>, disabled: bool)

  /** The result of one call: the new fields, the returned list and what
      happened on the way. */
  datatype Outcome = Outcome(state: FilterState, result: seq<Candidate>, effects: seq<Effect>)

  const Initial := FilterState(false, None, false)
  const NotFound := "matcher_fzf: fzf binary not found."
  const MustInstall := "matcher_fzf: You must install/build fzf."

  /** The fields never hold both flags, and a binary is remembered exactly
      when the filter is initialised. */
  predicate Consistent(st: FilterState)
  {
    && !(st.initialized && st.disabled)
    && (st.initialized <==> st.fzfBin.Some?)
    && (st.initialized ==> Truthy(st.fzfBin))
  }

  /** The guard that returns the candidates untouched. */
  predicate PassesThrough(st: FilterState, ctx: Context)
  {
    ctx.candidates == [] || ctx.input == [] || st.disabled
  }

  /** The messages sent to the editor's error sink. */
  function Errors(effects: seq<Effect>): seq<string>
  {
    if effects == [] then []
    else (if effects[0].Error? then [effects[0].message] else []) + Errors(effects[1..])
  }

  // ---------------------------------------------------------------------
  // Discovery of the binary
  // ---------------------------------------------------------------------

  /** The runtime-path location of the binary, with `.exe` on Windows. */
  function RuntimeBinPath(isWindows: bool): string
  {
    "bin/fzf" + if isWindows then ".exe" else ""
  }

  /** `next(iter(matches), None)`. */
  function FirstMatch(matches: seq<string>): Option<string>
  {
    if matches == [] then None else Some(matches[0])
  }

  datatype Discovery = Discovery(bin: Option<string>, effects: seq<Effect>)

  /** The search path is asked first; the runtime path only when that fails,
      and then its first match is taken. */
  function Discover(ctx: Context, host: Host): (d: Discovery)
    ensures d.effects != [] && d.effects[0] == Which("fzf")
    ensures |d.effects| == if Truthy(host.which("fzf")) then 1 else 2
    ensures forall e :: e in d.effects ==> e.Which? || e.GlobRuntime?
    ensures GlobRuntime(ctx.runtimepath, RuntimeBinPath(ctx.isWindows)) in d.effects
            <==> !Truthy(host.which("fzf"))
    ensures Truthy(host.which("fzf")) ==> d.bin == host.which("fzf")
    ensures !Truthy(host.which("fzf")) ==>
              var matches := host.globruntime(ctx.runtimepath, RuntimeBinPath(ctx.isWindows));
              (d.bin.Some? <==> matches != []) && (d.bin.Some? ==> d.bin.value == matches[0])
  {
    var found := host.which("fzf");
    if Truthy(found) then
      Discovery(found, [Which("fzf")])
    else
      var path := RuntimeBinPath(ctx.isWindows);
      Discovery(FirstMatch(host.globruntime(ctx.runtimepath, path)),
                [Which("fzf"), GlobRuntime(ctx.runtimepath, path)])
  }

  /** Discovery itself reports nothing, whether or not it finds a binary. */
  lemma DiscoverReportsNothing(ctx: Context, host: Host)
    ensures Errors(Discover(ctx, host).effects) == []
  {
    var looked := Discover(ctx, host).effects;
    assert Errors(looked[1..]) == [] by {
      if |looked| == 2 {
        assert looked[1..][1..] == [];
      }
    }
  }

  // ---------------------------------------------------------------------
  // Running fzf (`_get_fzf_result`)
  // ---------------------------------------------------------------------

  /** The words of the candidates, in order. */
  function Words(cands: seq<Candidate>): seq<string>
  {
    seq(|cands|, k requires 0 <= k < |cands| => cands[k].word)
  }

  /** The command line: fzf in filter mode (`-f`) without sorting (`+s`). */
  function FzfArgs(bin: string, pattern: string): seq<string>
  {
    [bin, "+s", "-f", pattern]
  }

  datatype Delegation = Delegation(output: string, effects: seq<Effect>)

  /** One fzf run: the candidates' words, newline-joined and encoded, go to
      standard input; the decoded standard output comes back; a non-empty
      standard error is reported and the run still counts. */
  function Delegate(bin: string, ctx: Context, host: Host): (d: Delegation)
    ensures var stdin := host.encode(JoinLines(Words(ctx.candidates)), ctx.encoding);
            var out := host.communicate(FzfArgs(bin, ctx.input), stdin);
            && d.output == host.decode(out.stdout, ctx.encoding)
            && d.effects != [] && d.effects[0] == Spawn(FzfArgs(bin, ctx.input), stdin)
            && (forall k :: 0 < k < |d.effects| ==> d.effects[k].Error?)
    ensures Which("fzf") !in d.effects
  {
    var stdin := host.encode(JoinLines(Words(ctx.candidates)), ctx.encoding);
    var args := FzfArgs(bin, ctx.input);
    var out := host.communicate(args, stdin);
    var report := StderrReport(out.stderr, host.decode(out.stderr, ctx.encoding));
    if report.Reported? then
      Delegation(host.decode(out.stdout, ctx.encoding), [Spawn(args, stdin), Error(report.message)])
    else
      Delegation(host.decode(out.stdout, ctx.encoding), [Spawn(args, stdin)])
  }

  /** The only message a run sends is `stderr: ` plus the decoded standard
      error, and it is sent exactly when standard error is non-empty. */
  lemma DelegateErrors(bin: string, ctx: Context, host: Host)
    ensures var stdin := host.encode(JoinLines(Words(ctx.candidates)), ctx.encoding);
            var out := host.communicate(FzfArgs(bin, ctx.input), stdin);
            Errors(Delegate(bin, ctx, host).effects)
              == if out.stderr == [] then [] else ["stderr: " + host.decode(out.stderr, ctx.encoding)]
  {
    var stdin := host.encode(JoinLines(Words(ctx.candidates)), ctx.encoding);
    var out := host.communicate(FzfArgs(bin, ctx.input), stdin);
    var effects := Delegate(bin, ctx, host).effects;
    if out.stderr == [] {
      assert effects == [Spawn(FzfArgs(bin, ctx.input), stdin)] && effects[1..] == [];
    } else {
      var message := "stderr: " + host.decode(out.stderr, ctx.encoding);
      assert effects == [Spawn(FzfArgs(bin, ctx.input), stdin), Error(message)];
      assert effects[1..] == [Error(message)] && effects[1..][1..] == [];
      assert Errors(effects[1..]) == [message];
    }
  }

  lemma {:induction false} ErrorsAppend(a: seq<Effect>, b: seq<Effect>)
    ensures Errors(a + b) == Errors(a) + Errors(b)
  {
    if a == [] {
      assert a + b == b;
    } else {
      assert (a + b)[0] == a[0] && (a + b)[1..] == a[1..] + b;
      ErrorsAppend(a[1..], b);
    }
  }

  // ---------------------------------------------------------------------
  // Reporting standard error
  // ---------------------------------------------------------------------

  /** A Python value as far as `str.join` cares. */
  datatype PyValue = PyStr(text: string) | PyInt(n: int)

  datatype JoinResult = Joined(text: string) | JoinTypeError(item: nat)

  /** `sep.join(items)`: every item must be a `str`; otherwise a `TypeError`
      names the first offending item. */
  function PyJoin(sep: string, items: seq<PyValue>): (r: JoinResult)
    ensures r.Joined? <==> forall k :: 0 <= k < |items| ==> items[k].PyStr?
    ensures r.JoinTypeError? ==>
              r.item < |items| && items[r.item].PyInt? && forall k :: 0 <= k < r.item ==> items[k].PyStr?
  {
    if items == [] then Joined("")
    else if items[0].PyInt? then JoinTypeError(0)
    else if |items| == 1 then Joined(items[0].text)
    else match PyJoin(sep, items[1..])
         case Joined(t) => Joined(items[0].text + sep + t)
         case JoinTypeError(k) => JoinTypeError(k + 1)
  }

  /** Iterating over a `bytes` object yields `int`s. */
  function IterBytes(b: seq<bv8>): seq<PyValue>
  {
    seq(|b|, k requires 0 <= k < |b| => PyInt(b[k] as int))
  }

  /** What reporting standard error does: say nothing, send a message, or
      raise a `TypeError` out of the filter. */
  datatype Report = Silent | Reported(message: string) | Raised(item: nat)

  /** `if stderr: error(vim, 'stderr: ' + '\n'.join(stderr))` with `stderr`
      the raw bytes that `communicate` returns. */
  function StderrReportAsWritten(stderr: seq<bv8>): Report
  {
    if stderr == [] then Silent
    else match PyJoin("\n", IterBytes(stderr))
         case Joined(t) => Reported("stderr: " + t)
         case JoinTypeError(k) => Raised(k)
  }

  /** As written, any non-empty standard error makes the filter raise a
      `TypeError` on its first byte instead of reporting it. */
  lemma StderrAsWrittenRaises(stderr: seq<bv8>)
    requires stderr != []
    ensures StderrReportAsWritten(stderr) == Raised(0)
  {
  }

  /** The evident intent: report the decoded text of a non-empty standard
      error, never raise, stay silent otherwise. */
  function StderrReport(stderr: seq<bv8>, decoded: string): (r: Report)
    ensures !r.Raised?
    ensures r.Silent? <==> stderr == []
    ensures r.Reported? ==> r.message == "stderr: " + decoded
  {
    if stderr == [] then Silent else Reported("stderr: " + decoded)
  }

  // ---------------------------------------------------------------------
  // One call of `filter`
  // ---------------------------------------------------------------------

  /** One call of `filter` on the fields `st`. */
  function Step(st: FilterState, ctx: Context, host: Host): (o: Outcome)
    requires Consistent(st)
    ensures Consistent(o.state)
    ensures !PassesThrough(st, ctx) && !st.initialized ==>
              var d := Discover(ctx, host);
              o.state == if Truthy(d.bin) then FilterState(true, d.bin, false) else FilterState(false, None, true)
    ensures !PassesThrough(st, ctx) && o.state.initialized ==>
              && o.result == Select(ctx.candidates, Delegate(o.state.fzfBin.value, ctx, host).output)
              && o.effects == (if st.initialized then [] else Discover(ctx, host).effects)
                              + Delegate(o.state.fzfBin.value, ctx, host).effects
  {
    if PassesThrough(st, ctx) then
      Outcome(st, ctx.candidates, [])
    else if !st.initialized then
      var d := Discover(ctx, host);
      if Truthy(d.bin) then
        var g := Delegate(d.bin.value, ctx, host);
        Outcome(FilterState(true, d.bin, false), Select(ctx.candidates, g.output), d.effects + g.effects)
      else
        Outcome(FilterState(false, None, true), [], d.effects + [Error(NotFound), Error(MustInstall)])
    else
      var g := Delegate(st.fzfBin.value, ctx, host);
      Outcome(st, Select(ctx.candidates, g.output), g.effects)
  }

  /** The guard and the lifecycle of one call: the result is always a
      subsequence of the candidates; an empty list, an empty input or a
      disabled filter returns the candidates and changes nothing; settled
      fields stay as they are; discovery runs exactly on the first call with
      work to do. */
  lemma StepGuards(st: FilterState, ctx: Context, host: Host)
    requires Consistent(st)
    ensures var o := Step(st, ctx, host);
            && IsSubsequence(o.result, ctx.candidates)
            && (PassesThrough(st, ctx) ==> o == Outcome(st, ctx.candidates, []))
            && (st.initialized || st.disabled ==> o.state == st)
            && (Which("fzf") in o.effects <==> !PassesThrough(st, ctx) && !st.initialized)
  {
    var o := Step(st, ctx, host);
    if PassesThrough(st, ctx) {
      SelfSubsequence(ctx.candidates);
    } else if !st.initialized {
      var d := Discover(ctx, host);
      if Truthy(d.bin) {
        SelectIsSubsequence(ctx.candidates, Delegate(d.bin.value, ctx, host).output);
      }
      assert o.effects[0] == Which("fzf");
    } else {
      SelectIsSubsequence(ctx.candidates, Delegate(st.fzfBin.value, ctx, host).output);
    }
  }

  /** The call that disables returns `[]`, spawns nothing, and its effects
      are exactly the two lookups followed by the two messages. */
  lemma StepDisabling(st: FilterState, ctx: Context, host: Host)
    requires Consistent(st)
    ensures var o := Step(st, ctx, host);
            !st.disabled && o.state.disabled ==>
              && o.result == []
              && Errors(o.effects) == [NotFound, MustInstall]
              && (forall e :: e in o.effects ==> !e.Spawn?)
              && o.effects == Discover(ctx, host).effects + [Error(NotFound), Error(MustInstall)]
  {
    var o := Step(st, ctx, host);
    if !st.disabled && o.state.disabled {
      var d := Discover(ctx, host);
      var failed := [Error(NotFound), Error(MustInstall)];
      assert o.effects == d.effects + failed;
      assert o.result == [];
      forall e | e in o.effects ensures !e.Spawn? {
        assert e in d.effects || e in failed;
      }
      assert Errors(failed) == [NotFound, MustInstall] by {
        assert failed[1..] == [Error(MustInstall)] && failed[1..][1..] == [];
        assert Errors(failed[1..]) == [MustInstall];
      }
      DiscoverReportsNothing(ctx, host);
      ErrorsAppend(d.effects, failed);
    }
  }

  lemma {:induction false} SelfSubsequence<T>(s: seq<T>)
    ensures IsSubsequence(s, s)
  {
    if s != [] {
      SelfSubsequence(s[1..]);
    }
  }

  /** A call on which discovery runs disables the filter exactly when both
      lookups come back empty. */
  lemma DiscoveryFailureDisables(st: FilterState, ctx: Context, host: Host)
    requires Consistent(st) && !PassesThrough(st, ctx) && !st.initialized
    ensures var o := Step(st, ctx, host);
            o.state.disabled <==>
              !Truthy(host.which("fzf")) &&
              !Truthy(FirstMatch(host.globruntime(ctx.runtimepath, RuntimeBinPath(ctx.isWindows))))
  {
  }

  // ---------------------------------------------------------------------
  // A session: a sequence of calls on one filter
  // ---------------------------------------------------------------------

  datatype Call = Call(ctx: Context, host: Host)

  /** The outcomes of successive calls, each starting from the fields the
      previous one left. */
  function Replay(st: FilterState, calls: seq<Call>): (os: seq<Outcome>)
    requires Consistent(st)
    ensures |os| == |calls|
    ensures forall k :: 0 <= k < |os| ==> Consistent(os[k].state)
    ensures forall k :: 0 <= k < |os| ==> IsSubsequence(os[k].result, calls[k].ctx.candidates)
    decreases |calls|
  {
    if calls == [] then []
    else
      var o := Step(st, calls[0].ctx, calls[0].host);
      StepGuards(st, calls[0].ctx, calls[0].host);
      [o] + Replay(o.state, calls[1..])
  }

  /** Once initialised or disabled, the fields never change again: the binary
      found first is the one used from then on. */
  lemma {:induction false} SettledStateIsFinal(st: FilterState, calls: seq<Call>)
    requires Consistent(st) && (st.initialized || st.disabled)
    ensures forall k :: 0 <= k < |calls| ==> Replay(st, calls)[k].state == st
    decreases |calls|
  {
    if calls != [] {
      StepGuards(st, calls[0].ctx, calls[0].host);
      SettledStateIsFinal(st, calls[1..]);
      assert Replay(st, calls) == [Step(st, calls[0].ctx, calls[0].host)] + Replay(st, calls[1..]);
    }
  }

  /** A disabled filter hands every later call its candidates back, does
      nothing else and never looks for the binary again. */
  lemma {:induction false} DisabledPassesThrough(st: FilterState, calls: seq<Call>)
    requires Consistent(st) && st.disabled
    ensures forall k :: 0 <= k < |calls| ==>
              Replay(st, calls)[k] == Outcome(st, calls[k].ctx.candidates, [])
    decreases |calls|
  {
    if calls != [] {
      StepGuards(st, calls[0].ctx, calls[0].host);
      DisabledPassesThrough(st, calls[1..]);
      assert Replay(st, calls) == [Step(st, calls[0].ctx, calls[0].host)] + Replay(st, calls[1..]);
    }
  }

  /** How many of the outcomes ran discovery. */
  function Discoveries(os: seq<Outcome>): nat
  {
    if os == [] then 0
    else (if Which("fzf") in os[0].effects then 1 else 0) + Discoveries(os[1..])
  }

  /** Discovery runs at most once in a filter's life, and never after the
      filter is initialised or disabled. */
  lemma {:induction false} DiscoveryAtMostOnce(st: FilterState, calls: seq<Call>)
    requires Consistent(st)
    ensures Discoveries(Replay(st, calls)) <= if st.initialized || st.disabled then 0 else 1
    decreases |calls|
  {
    if calls != [] {
      var o := Step(st, calls[0].ctx, calls[0].host);
      var os := Replay(st, calls);
      assert os == [o] + Replay(o.state, calls[1..]);
      assert os[1..] == Replay(o.state, calls[1..]);
      StepGuards(st, calls[0].ctx, calls[0].host);
      DiscoveryAtMostOnce(o.state, calls[1..]);
      if Which("fzf") in o.effects {
        assert !PassesThrough(st, calls[0].ctx);
        assert o.state.initialized || o.state.disabled;
      }
    }
  }

  // ---------------------------------------------------------------------
  // The filter object
  // ---------------------------------------------------------------------

  class Filter {
    const name: string
    const description: string
    var initialized: bool
    var fzfBin: Option<string>
    var disabled: bool
    /** Everything the filter has done to the outside world so far. */
    ghost var effects: seq<Effect>

    function Snapshot(): FilterState
      reads this
    {
      FilterState(initialized, fzfBin, disabled)
    }

    ghost predicate Valid()
      reads this
    {
      Consistent(Snapshot())
    }

    constructor ()
      ensures Valid() && Snapshot() == Initial && effects == []
      ensures name == "matcher_fzf" && description == "fzf matcher"
    {
      name := "matcher_fzf";
      description := "fzf matcher";
      initialized := false;
      fzfBin := None;
      disabled := false;
      effects := [];
    }

    /** `filter(context)`. */
    method Filter(ctx: Context, host: Host) returns (r: seq<Candidate>)
      requires Valid()
      modifies this
      ensures Valid()
      ensures var o := Step(old(Snapshot()), ctx, host);
              Snapshot() == o.state && r == o.result && effects == old(effects) + o.effects
    {
      ghost var st := Snapshot();
      if ctx.candidates == [] || ctx.input == [] || disabled {
        return ctx.candidates;
      }
      ghost var found: seq<Effect> := [];
      if !initialized {
        ghost var d := Discover(ctx, host);
        var bin := host.which("fzf");
        effects := effects + [Which("fzf")];
        if !Truthy(bin) {
          var ext := if ctx.isWindows then ".exe" else "";
          var rtpMatches := host.globruntime(ctx.runtimepath, "bin/fzf" + ext);
          effects := effects + [GlobRuntime(ctx.runtimepath, "bin/fzf" + ext)];
          bin := if rtpMatches == [] then None else Some(rtpMatches[0]);
        }
        assert bin == d.bin && effects == old(effects) + d.effects;
        if Truthy(bin) {
          initialized := true;
          fzfBin := bin;
          found := d.effects;
        } else {
          effects := effects + [Error(NotFound)];
          effects := effects + [Error(MustInstall)];
          disabled := true;
          assert effects == old(effects) + (d.effects + [Error(NotFound), Error(MustInstall)]);
          return [];
        }
      }
      ghost var g := Delegate(fzfBin.value, ctx, host);
      assert Step(st, ctx, host) == Outcome(Snapshot(), Select(ctx.candidates, g.output), found + g.effects);
      var fzfResult := GetFzfResult(ctx, host);
      r := Select(ctx.candidates, fzfResult);
      assert effects == old(effects) + (found + g.effects);
    }

    /** `_get_fzf_result(candidates, pattern, encoding)`, reporting standard
        error as text. */
    method GetFzfResult(ctx: Context, host: Host) returns (output: string)
      requires Valid() && initialized
      modifies this`effects
      ensures var d := Delegate(fzfBin.value, ctx, host);
              output == d.output && effects == old(effects) + d.effects
    {
      var words := Words(ctx.candidates);
      var stdin := host.encode(JoinLines(words), ctx.encoding);
      var args := [fzfBin.value, "+s", "-f", ctx.input];
      var out := host.communicate(args, stdin);
      effects := effects + [Spawn(args, stdin)];
      if out.stderr != [] {
        effects := effects + [Error("stderr: " + host.decode(out.stderr, ctx.encoding))];
      }
      output := host.decode(out.stdout, ctx.encoding);
    }
  }

  // ---------------------------------------------------------------------
  // Sessions worked through
  // ---------------------------------------------------------------------

  /** No fzf anywhere: the first call reports two errors and returns nothing;
      the next call returns its candidates unfiltered. */
  lemma MissingBinarySession(cands: seq<Candidate>, input: string, rtp: string)
    requires cands != [] && input != []
    ensures var host := Host(n => None, (p, f) => [], (a, i) => ProcessOutput([], []), (t, e) => [], (b, e) => "");
            var call := Call(Context(cands, input, false, rtp, "utf-8"), host);
            var disabled := FilterState(false, None, true);
            Replay(Initial, [call, call]) == [
              Outcome(disabled, [], [Which("fzf"), GlobRuntime(rtp, "bin/fzf"), Error(NotFound), Error(MustInstall)]),
              Outcome(disabled, cands, [])]
  {
    var host := Host(n => None, (p, f) => [], (a, i) => ProcessOutput([], []), (t, e) => [], (b, e) => "");
    var call := Call(Context(cands, input, false, rtp, "utf-8"), host);
    var disabled := FilterState(false, None, true);
    var first := Step(Initial, call.ctx, call.host);
    assert RuntimeBinPath(false) == "bin/fzf";
    assert Discover(call.ctx, host) == Discovery(None, [Which("fzf"), GlobRuntime(rtp, "bin/fzf")]);
    assert first == Outcome(disabled, [], [Which("fzf"), GlobRuntime(rtp, "bin/fzf"), Error(NotFound), Error(MustInstall)]);
    assert Replay(disabled, [call]) == [Outcome(disabled, cands, [])];
    assert [call, call][1..] == [call];
  }

  /** fzf on the search path printing `apple\ngrape` for apple, banana, grape:
      apple and grape come back in order and the filter is initialised. */
  lemma FruitSession()
    ensures var apple, banana, grape := Candidate("apple", map[]), Candidate("banana", map[]), Candidate("grape", map[]);
            var host := Host(n => Some("/usr/bin/fzf"), (p, f) => [], (a, i) => ProcessOutput([], []),
                             (t, e) => [], (b, e) => "apple\ngrape");
            var o := Step(Initial, Context([apple, banana, grape], "ap", false, "", "utf-8"), host);
            o.result == [apple, grape] && o.state == FilterState(true, Some("/usr/bin/fzf"), false)
  {
    FruitExample();
  }
}
