/** The check -> parse -> generate state machine of the Controller, as a pure
    specification. Each stage of each pipeline is a table of guards tested in
    order; the first failing guard is the error reported. The Controller class
    (module WorkflowController) is proved to follow this specification. */
module Workflow {
  import opened Wrappers
  import opened Elements

  /** One variant per exception the Controller throws. */
  datatype Error =
    | SdfAlreadyChecked
    | InputSdfFileNotSet
    | FileMustBeSdf
    | FileDoesNotExist(path: string)
    | InitializingSdf(cerrOutput: string)
    | ReadingSdfFile(cerrOutput: string)
    | SdfAlreadyParsed
    | CheckSdfFirst
    | ParseDataStructure
    | NddlModelAlreadyGenerated
    | ParseSdfFirst
    | FileAlreadyExists(path: string)
    | GeneratingModels
    | IsdAlreadyChecked
    | InputIsdFileNotSet
    | FileMustBeIsd
    | IsdAlreadyParsed
    | CheckIsdFirst
    | NddlInitialStateAlreadyGenerated
    | ParseIsdFirst
    | GeneratingInitialState

  /** What the Controller reads from its ControllerConfig. File extensions are
      given as the config reports them. */
  datatype Config = Config(
    inputSdfFile: string,
    inputSdfFileExt: string,
    inputIsdFile: string,
    inputIsdFileExt: string,
    outputModelFile: string,
    outputInitialStateFile: string,
    readOnly: bool)

  /** The three workflow indicators of one pipeline. */
  datatype Flags = Flags(checked: bool, parsed: bool, generated: bool)

  const Unset: Flags := Flags(false, false, false)

  /** generated ==> parsed ==> checked */
  predicate Ordered(f: Flags) {
    (f.generated ==> f.parsed) && (f.parsed ==> f.checked)
  }

  /** Every indicator set in `a` is still set in `b`. */
  predicate NoneCleared(a: Flags, b: Flags) {
    (a.checked ==> b.checked) && (a.parsed ==> b.parsed) && (a.generated ==> b.generated)
  }

  /** What sdf::init and sdf::readFile do on one call: whether each succeeds,
      what each writes to the diagnostic stream, and the tree read. */
  datatype SdfLibrary = SdfLibrary(initOk: bool, initOutput: string, readOk: bool, readOutput: string, root: SdfRoot)

  /** One call on the Controller, with the answers of the collaborators it
      consults: the set of existing files, the sdformat library, the SdfParser
      and the NddlGenerator. */
  datatype Call =
    | SdfCheck(files: set<string>, lib: SdfLibrary)
    | SdfParse(parserOk: bool)
    | ModelGeneration(force: bool, files: set<string>, generatorOk: bool)
    | IsdCheck(files: set<string>)
    | IsdParse
    | InitialStateGeneration(force: bool, files: set<string>, generatorOk: bool)
  {
    predicate OnSdf() {
      SdfCheck? || SdfParse? || ModelGeneration?
    }
  }

  /** Everything a call may change: both pipelines' indicators, the stored
      structural root and the buffer the diagnostic stream is captured in. */
  datatype State = State(sdf: Flags, isd: Flags, sdfRoot: Option<SdfRoot>, cerrBuffer: string)

  const Initial: State := State(Unset, Unset, None, "")

  /** A state every sequence of calls keeps. */
  predicate Consistent(s: State) {
    Ordered(s.sdf) && Ordered(s.isd) && (s.sdf.checked ==> s.sdfRoot.Some?)
  }

  /** Calls into collaborators and the two switches of the diagnostic stream. */
  datatype Effect =
    | CerrDisabled
    | CerrEnabled
    | SdfInit
    | SdfRead(path: string)
    | SdfParserRun
    | ModelsGenerated(path: string)
    | InitialStateGenerated(path: string)
    | SdfRootCleared(root: SdfRoot)

  datatype Guard = Guard(fails: bool, error: Error)

  /** The error of the first failing guard, if any. */
  function FirstFailure(gs: seq<Guard>): Outcome<Error>
    decreases |gs|
  {
    if |gs| == 0 then Pass
    else if gs[0].fails then Fail(gs[0].error)
    else FirstFailure(gs[1..])
  }

  /** FirstFailure passes exactly when no guard fails, and otherwise reports the
      error of the earliest failing guard. */
  lemma {:induction false} FirstFailureIsFirst(gs: seq<Guard>)
    ensures FirstFailure(gs).Pass? <==> forall k :: 0 <= k < |gs| ==> !gs[k].fails
    ensures FirstFailure(gs).Fail? ==>
              exists i :: 0 <= i < |gs| && gs[i].fails && gs[i].error == FirstFailure(gs).error &&
                          forall k :: 0 <= k < i ==> !gs[k].fails
    decreases |gs|
  {
    if |gs| > 0 && !gs[0].fails {
      FirstFailureIsFirst(gs[1..]);
      assert forall k :: 1 <= k < |gs| ==> gs[k] == gs[1..][k - 1];
      if FirstFailure(gs[1..]).Fail? {
        var i :| 0 <= i < |gs[1..]| && gs[1..][i].fails && gs[1..][i].error == FirstFailure(gs[1..]).error &&
                 forall k :: 0 <= k < i ==> !gs[1..][k].fails;
        assert gs[i + 1] == gs[1..][i];
      }
    }
  }

  /** One step of FirstFailure on a suffix of the table. */
  function StepAt(gs: seq<Guard>, i: nat): Outcome<Error>
    requires i < |gs|
  {
    if gs[i].fails then Fail(gs[i].error) else FirstFailure(gs[i + 1..])
  }

  /** FirstFailure unrolled over a table of up to six guards. */
  lemma Unroll(gs: seq<Guard>)
    requires |gs| <= 6
    ensures FirstFailure(gs) == FirstFailure(gs[0..])
    ensures FirstFailure(gs[|gs|..]) == Pass
    ensures 0 < |gs| ==> FirstFailure(gs[0..]) == StepAt(gs, 0)
    ensures 1 < |gs| ==> FirstFailure(gs[1..]) == StepAt(gs, 1)
    ensures 2 < |gs| ==> FirstFailure(gs[2..]) == StepAt(gs, 2)
    ensures 3 < |gs| ==> FirstFailure(gs[3..]) == StepAt(gs, 3)
    ensures 4 < |gs| ==> FirstFailure(gs[4..]) == StepAt(gs, 4)
    ensures 5 < |gs| ==> FirstFailure(gs[5..]) == StepAt(gs, 5)
  {
  }

  /** The guards of each call, in the order the Controller tests them. */
  function Guards(s: State, cfg: Config, c: Call): (r: seq<Guard>)
    ensures GuardsBeforeCollaborator(c) <= |r| <= 6
  {
    match c
    case SdfCheck(files, lib) =>
      [ Guard(s.sdf.checked, SdfAlreadyChecked),
        Guard(cfg.inputSdfFile == "", InputSdfFileNotSet),
        Guard(cfg.inputSdfFileExt != ".sdf", FileMustBeSdf),
        Guard(cfg.inputSdfFile !in files, FileDoesNotExist(cfg.inputSdfFile)),
        Guard(!lib.initOk, InitializingSdf(s.cerrBuffer + lib.initOutput)),
        Guard(!lib.readOk, ReadingSdfFile(s.cerrBuffer + lib.initOutput + lib.readOutput)) ]
    case SdfParse(parserOk) =>
      [ Guard(s.sdf.parsed, SdfAlreadyParsed),
        Guard(!s.sdf.checked, CheckSdfFirst),
        Guard(!parserOk, ParseDataStructure) ]
    case ModelGeneration(force, files, generatorOk) =>
      [ Guard(s.sdf.generated, NddlModelAlreadyGenerated),
        Guard(!s.sdf.checked, CheckSdfFirst),
        Guard(!s.sdf.parsed, ParseSdfFirst),
        Guard(!force && cfg.outputModelFile in files, FileAlreadyExists(cfg.outputModelFile)),
        Guard(!generatorOk, GeneratingModels) ]
    case IsdCheck(files) =>
      [ Guard(s.isd.checked, IsdAlreadyChecked),
        Guard(cfg.inputIsdFile == "", InputIsdFileNotSet),
        Guard(cfg.inputIsdFileExt != ".isd", FileMustBeIsd),
        Guard(cfg.inputIsdFile !in files, FileDoesNotExist(cfg.inputIsdFile)) ]
    case IsdParse =>
      [ Guard(s.isd.parsed, IsdAlreadyParsed),
        Guard(!s.isd.checked, CheckIsdFirst) ]
    case InitialStateGeneration(force, files, generatorOk) =>
      [ Guard(s.isd.generated, NddlInitialStateAlreadyGenerated),
        Guard(!s.isd.checked, CheckIsdFirst),
        Guard(!s.isd.parsed, ParseIsdFirst),
        Guard(!force && cfg.outputInitialStateFile in files, FileAlreadyExists(cfg.outputInitialStateFile)),
        Guard(!generatorOk, GeneratingInitialState) ]
  }

  /** How many guards are tested before a collaborator is called. */
  function GuardsBeforeCollaborator(c: Call): nat {
    match c
    case SdfCheck(_, _) => 4
    case SdfParse(_) => 2
    case ModelGeneration(_, _, _) => 4
    case IsdCheck(_) => 4
    case IsdParse => 2
    case InitialStateGeneration(_, _, _) => 4
  }

  /** The outcome of a call. */
  function Verdict(s: State, cfg: Config, c: Call): (r: Outcome<Error>)
    ensures r.Pass? <==> forall k :: 0 <= k < |Guards(s, cfg, c)| ==> !Guards(s, cfg, c)[k].fails
  {
    FirstFailureIsFirst(Guards(s, cfg, c));
    FirstFailure(Guards(s, cfg, c))
  }

  /** The call gets past the guards that precede its collaborators. */
  predicate ReachesCollaborator(s: State, cfg: Config, c: Call) {
    FirstFailure(Guards(s, cfg, c)[..GuardsBeforeCollaborator(c)]).Pass?
  }

  /** The collaborator calls a call makes, in order. */
  function Effects(s: State, cfg: Config, c: Call): (r: seq<Effect>)
    ensures !ReachesCollaborator(s, cfg, c) ==> r == []
    ensures c.IsdCheck? || c.IsdParse? ==> r == []
    ensures forall k :: 0 <= k < |r| ==> !r[k].SdfRootCleared?
  {
    if !ReachesCollaborator(s, cfg, c) then []
    else match c
      case SdfCheck(_, lib) =>
        [CerrDisabled] + LibraryCalls(cfg, lib) + [CerrEnabled]
      case SdfParse(_) => [SdfParserRun]
      case ModelGeneration(_, _, _) => [ModelsGenerated(cfg.outputModelFile)]
      case IsdCheck(_) => []
      case IsdParse => []
      case InitialStateGeneration(_, _, _) => [InitialStateGenerated(cfg.outputInitialStateFile)]
  }

  /** The sdformat calls of a check: the file is read only after init succeeded. */
  function LibraryCalls(cfg: Config, lib: SdfLibrary): (r: seq<Effect>)
    ensures |r| >= 1 && r[0] == SdfInit
    ensures lib.initOk <==> SdfRead(cfg.inputSdfFile) in r
    ensures forall k :: 0 <= k < |r| ==> r[k] != CerrDisabled && r[k] != CerrEnabled
  {
    [SdfInit] + (if lib.initOk then [SdfRead(cfg.inputSdfFile)] else [])
  }

  /** The state after a call: the stage's indicator is set only when every
      guard passes; a successful check also stores the tree that was read. */
  function Next(s: State, cfg: Config, c: Call): (r: State)
    ensures Verdict(s, cfg, c).Fail? ==> r.sdf == s.sdf && r.isd == s.isd && r.sdfRoot == s.sdfRoot
    ensures c.OnSdf() ==> r.isd == s.isd
    ensures !c.OnSdf() ==> r.sdf == s.sdf && r.sdfRoot == s.sdfRoot && r.cerrBuffer == s.cerrBuffer
    ensures s.cerrBuffer <= r.cerrBuffer
  {
    var ok := Verdict(s, cfg, c).Pass?;
    match c
    case SdfCheck(_, lib) =>
      s.(sdf := if ok then s.sdf.(checked := true) else s.sdf,
         sdfRoot := if ok then Some(lib.root) else s.sdfRoot,
         cerrBuffer := if !ReachesCollaborator(s, cfg, c) then s.cerrBuffer
                       else s.cerrBuffer + lib.initOutput + (if lib.initOk then lib.readOutput else ""))
    case SdfParse(_) => s.(sdf := if ok then s.sdf.(parsed := true) else s.sdf)
    case ModelGeneration(_, _, _) => s.(sdf := if ok then s.sdf.(generated := true) else s.sdf)
    case IsdCheck(_) => s.(isd := if ok then s.isd.(checked := true) else s.isd)
    case IsdParse => s.(isd := if ok then s.isd.(parsed := true) else s.isd)
    case InitialStateGeneration(_, _, _) => s.(isd := if ok then s.isd.(generated := true) else s.isd)
  }

  /** The state after a sequence of calls. */
  function Run(s: State, cfg: Config, calls: seq<Call>): State
    decreases |calls|
  {
    if |calls| == 0 then s else Run(Next(s, cfg, calls[0]), cfg, calls[1..])
  }

  /** The SDF check's guard table read as a chain of tests. */
  lemma SdfCheckInOrder(s: State, cfg: Config, files: set<string>, lib: SdfLibrary)
    ensures ReachesCollaborator(s, cfg, SdfCheck(files, lib)) <==>
              !s.sdf.checked && cfg.inputSdfFile != "" && cfg.inputSdfFileExt == ".sdf" && cfg.inputSdfFile in files
    ensures Verdict(s, cfg, SdfCheck(files, lib)) ==
              if s.sdf.checked then Fail(SdfAlreadyChecked)
              else if cfg.inputSdfFile == "" then Fail(InputSdfFileNotSet)
              else if cfg.inputSdfFileExt != ".sdf" then Fail(FileMustBeSdf)
              else if cfg.inputSdfFile !in files then Fail(FileDoesNotExist(cfg.inputSdfFile))
              else if !lib.initOk then Fail(InitializingSdf(s.cerrBuffer + lib.initOutput))
              else if !lib.readOk then Fail(ReadingSdfFile(s.cerrBuffer + lib.initOutput + lib.readOutput))
              else Pass
  {
    Unroll(Guards(s, cfg, SdfCheck(files, lib)));
    Unroll(Guards(s, cfg, SdfCheck(files, lib))[..4]);
  }

  /** The SDF check's new state and collaborator calls, case by case: nothing
      happens before the library is reached; after that the captured output
      grows, the file is read only after init succeeded, and the tree is
      stored only when both library calls succeed. */
  lemma SdfCheckSteps(s: State, cfg: Config, files: set<string>, lib: SdfLibrary)
    ensures !ReachesCollaborator(s, cfg, SdfCheck(files, lib)) ==>
              Next(s, cfg, SdfCheck(files, lib)) == s && Effects(s, cfg, SdfCheck(files, lib)) == []
    ensures ReachesCollaborator(s, cfg, SdfCheck(files, lib)) ==>
              Effects(s, cfg, SdfCheck(files, lib)) ==
                [CerrDisabled, SdfInit] + (if lib.initOk then [SdfRead(cfg.inputSdfFile)] else []) + [CerrEnabled]
    ensures ReachesCollaborator(s, cfg, SdfCheck(files, lib)) ==>
              Next(s, cfg, SdfCheck(files, lib)) ==
                s.(sdf := if lib.initOk && lib.readOk then s.sdf.(checked := true) else s.sdf,
                   sdfRoot := if lib.initOk && lib.readOk then Some(lib.root) else s.sdfRoot,
                   cerrBuffer := s.cerrBuffer + lib.initOutput + (if lib.initOk then lib.readOutput else ""))
  {
    SdfCheckInOrder(s, cfg, files, lib);
  }

  // ---------------------------------------------------------------------------
  // Properties of one call

  /** The guards a call passes set exactly their stage's indicator. */
  lemma {:induction false} StepKeepsConsistent(s: State, cfg: Config, c: Call)
    requires Consistent(s)
    ensures Consistent(Next(s, cfg, c))
    ensures NoneCleared(s.sdf, Next(s, cfg, c).sdf) && NoneCleared(s.isd, Next(s, cfg, c).isd)
  {
    Unroll(Guards(s, cfg, c));
  }

  /** A failing call sets no indicator and keeps the stored root. */
  lemma FailureChangesNoFlag(s: State, cfg: Config, c: Call)
    requires Verdict(s, cfg, c).Fail?
    ensures Next(s, cfg, c).sdf == s.sdf && Next(s, cfg, c).isd == s.isd && Next(s, cfg, c).sdfRoot == s.sdfRoot
  {
  }

  /** The two pipelines are independent: a call of one leaves the other's
      indicators alone, and its outcome does not depend on them. */
  lemma {:induction false} PipelinesIndependent(s: State, cfg: Config, c: Call, other: Flags)
    ensures c.OnSdf() ==> Next(s, cfg, c).isd == s.isd && Verdict(s.(isd := other), cfg, c) == Verdict(s, cfg, c)
    ensures !c.OnSdf() ==> Next(s, cfg, c).sdf == s.sdf && Verdict(s.(sdf := other), cfg, c) == Verdict(s, cfg, c)
  {
    if c.OnSdf() {
      assert Guards(s.(isd := other), cfg, c) == Guards(s, cfg, c);
    } else {
      assert Guards(s.(sdf := other), cfg, c) == Guards(s, cfg, c);
    }
  }

  /** A guard that fails after all earlier ones pass decides the outcome. */
  lemma {:induction false} FirstFailureAt(gs: seq<Guard>, i: nat)
    requires i < |gs| && gs[i].fails && forall k :: 0 <= k < i ==> !gs[k].fails
    ensures FirstFailure(gs) == Fail(gs[i].error)
    decreases i
  {
    if i > 0 {
      assert forall k :: 0 <= k < i - 1 ==> gs[1..][k] == gs[k + 1];
      FirstFailureAt(gs[1..], i - 1);
    }
  }

  /** A call stopped by a guard that precedes its collaborators calls none of
      them, changes nothing, and reports that guard's error. */
  lemma {:induction false} GuardsBeforeCollaborators(s: State, cfg: Config, c: Call)
    requires !ReachesCollaborator(s, cfg, c)
    ensures Effects(s, cfg, c) == [] && Next(s, cfg, c) == s
    ensures Verdict(s, cfg, c) == FirstFailure(Guards(s, cfg, c)[..GuardsBeforeCollaborator(c)])
  {
    var gs := Guards(s, cfg, c);
    var n := GuardsBeforeCollaborator(c);
    FirstFailureIsFirst(gs[..n]);
    var i :| 0 <= i < |gs[..n]| && gs[..n][i].fails && gs[..n][i].error == FirstFailure(gs[..n]).error &&
             forall k :: 0 <= k < i ==> !gs[..n][k].fails;
    assert gs[i] == gs[..n][i];
    FirstFailureAt(gs, i);
  }

  /** Whether the diagnostic stream is redirected after replaying `trace`. */
  function RedirectedAfter(redirected: bool, trace: seq<Effect>): bool
    decreases |trace|
  {
    if |trace| == 0 then redirected
    else RedirectedAfter(Switch(redirected, trace[0]), trace[1..])
  }

  function Switch(redirected: bool, e: Effect): bool {
    if e == CerrDisabled then true else if e == CerrEnabled then false else redirected
  }

  /** Every call into the sdformat library in `trace` happens while the stream
      is redirected. */
  predicate LibraryCallsRedirected(redirected: bool, trace: seq<Effect>)
    decreases |trace|
  {
    |trace| == 0 ||
    ((trace[0].SdfInit? || trace[0].SdfRead? ==> redirected) &&
     LibraryCallsRedirected(Switch(redirected, trace[0]), trace[1..]))
  }

  /** Calls that do not switch the stream, bracketed by disabling and
      re-enabling it, all run redirected, and the stream ends restored. */
  lemma {:induction false} Bracketed(mid: seq<Effect>)
    requires forall k :: 0 <= k < |mid| ==> mid[k] != CerrDisabled && mid[k] != CerrEnabled
    ensures LibraryCallsRedirected(true, mid + [CerrEnabled]) && !RedirectedAfter(true, mid + [CerrEnabled])
    decreases |mid|
  {
    if |mid| == 0 {
      assert mid + [CerrEnabled] == [CerrEnabled];
      assert [CerrEnabled][1..] == [];
    } else {
      assert (mid + [CerrEnabled])[1..] == mid[1..] + [CerrEnabled];
      Bracketed(mid[1..]);
    }
  }

  /** On every return path of every call, success or failure, the sdformat library
      runs with the diagnostic stream redirected, and the stream is restored
      before the call returns. */
  lemma {:induction false} CerrRestored(s: State, cfg: Config, c: Call)
    ensures LibraryCallsRedirected(false, Effects(s, cfg, c))
    ensures !RedirectedAfter(false, Effects(s, cfg, c))
  {
    var t := Effects(s, cfg, c);
    if |t| == 1 {
      assert t[1..] == [];
    } else if |t| > 1 {
      var mid := LibraryCalls(cfg, c.lib);
      Bracketed(mid);
      assert t[1..] == mid + [CerrEnabled];
    }
  }

  // ---------------------------------------------------------------------------
  // Properties of call sequences

  /** After any sequence of calls from a consistent state the indicators are
      still ordered (generated ==> parsed ==> checked) and none was cleared. */
  lemma {:induction false} RunKeepsConsistent(s: State, cfg: Config, calls: seq<Call>)
    requires Consistent(s)
    ensures Consistent(Run(s, cfg, calls))
    ensures NoneCleared(s.sdf, Run(s, cfg, calls).sdf) && NoneCleared(s.isd, Run(s, cfg, calls).isd)
    decreases |calls|
  {
    if |calls| > 0 {
      StepKeepsConsistent(s, cfg, calls[0]);
      RunKeepsConsistent(Next(s, cfg, calls[0]), cfg, calls[1..]);
    }
  }

  /** A stage runs at most once: once its indicator is set, every later call of
      that stage is refused with its "already" error. */
  lemma {:induction false} AlreadyDoneRefused(s: State, cfg: Config, c: Call)
    ensures c.SdfCheck? && s.sdf.checked ==> Verdict(s, cfg, c) == Fail(SdfAlreadyChecked)
    ensures c.SdfParse? && s.sdf.parsed ==> Verdict(s, cfg, c) == Fail(SdfAlreadyParsed)
    ensures c.ModelGeneration? && s.sdf.generated ==> Verdict(s, cfg, c) == Fail(NddlModelAlreadyGenerated)
    ensures c.IsdCheck? && s.isd.checked ==> Verdict(s, cfg, c) == Fail(IsdAlreadyChecked)
    ensures c.IsdParse? && s.isd.parsed ==> Verdict(s, cfg, c) == Fail(IsdAlreadyParsed)
    ensures c.InitialStateGeneration? && s.isd.generated ==> Verdict(s, cfg, c) == Fail(NddlInitialStateAlreadyGenerated)
  {
    Unroll(Guards(s, cfg, c));
  }

  /** Out-of-order calls are refused with the error naming the missing stage. */
  lemma {:induction false} OutOfOrderRefused(s: State, cfg: Config, c: Call)
    ensures c.SdfParse? && !s.sdf.parsed && !s.sdf.checked ==> Verdict(s, cfg, c) == Fail(CheckSdfFirst)
    ensures c.ModelGeneration? && !s.sdf.generated && !s.sdf.checked ==> Verdict(s, cfg, c) == Fail(CheckSdfFirst)
    ensures c.ModelGeneration? && !s.sdf.generated && s.sdf.checked && !s.sdf.parsed ==> Verdict(s, cfg, c) == Fail(ParseSdfFirst)
    ensures c.IsdParse? && !s.isd.parsed && !s.isd.checked ==> Verdict(s, cfg, c) == Fail(CheckIsdFirst)
    ensures c.InitialStateGeneration? && !s.isd.generated && !s.isd.checked ==> Verdict(s, cfg, c) == Fail(CheckIsdFirst)
    ensures c.InitialStateGeneration? && !s.isd.generated && s.isd.checked && !s.isd.parsed ==> Verdict(s, cfg, c) == Fail(ParseIsdFirst)
  {
    Unroll(Guards(s, cfg, c));
  }

  /** An existing output file stops model generation without `force`, before
      the generator is called; with `force` the generator runs and decides. */
  lemma {:induction false} ExistingOutput(s: State, cfg: Config, force: bool, files: set<string>, generatorOk: bool)
    requires s.sdf == Flags(true, true, false) && cfg.outputModelFile in files
    ensures !force ==> Verdict(s, cfg, ModelGeneration(force, files, generatorOk)) == Fail(FileAlreadyExists(cfg.outputModelFile)) &&
                       Effects(s, cfg, ModelGeneration(force, files, generatorOk)) == []
    ensures force ==> Effects(s, cfg, ModelGeneration(force, files, generatorOk)) == [ModelsGenerated(cfg.outputModelFile)] &&
                      (Verdict(s, cfg, ModelGeneration(force, files, generatorOk)).Pass? <==> generatorOk)
  {
    var gs := Guards(s, cfg, ModelGeneration(force, files, generatorOk));
    Unroll(gs);
    Unroll(gs[..4]);
    assert gs[..4][4..] == [];
  }

  /** Generating twice: the second call is refused because the model was
      already generated, before the output file is looked at. */
  lemma {:induction false} GenerateTwice(s: State, cfg: Config, files: set<string>, files': set<string>, force': bool, ok': bool)
    requires Verdict(s, cfg, ModelGeneration(false, files, true)).Pass?
    ensures var s' := Next(s, cfg, ModelGeneration(false, files, true));
            Verdict(s', cfg, ModelGeneration(force', files', ok')) == Fail(NddlModelAlreadyGenerated) &&
            Effects(s', cfg, ModelGeneration(force', files', ok')) == []
  {
    var s' := Next(s, cfg, ModelGeneration(false, files, true));
    assert s'.sdf.generated;
    Unroll(Guards(s', cfg, ModelGeneration(force', files', ok')));
    Unroll(Guards(s', cfg, ModelGeneration(force', files', ok'))[..4]);
  }

  /** The model pipeline run to completion: a fresh controller whose inputs are
      all in order checks, parses and generates, ending with the SDF tree
      stored, the library's diagnostics captured and the ISD pipeline untouched. */
  lemma {:induction false} ModelPipelineCompletes(cfg: Config, files: set<string>, lib: SdfLibrary)
    requires cfg.inputSdfFile != "" && cfg.inputSdfFileExt == ".sdf" && cfg.inputSdfFile in files
    requires lib.initOk && lib.readOk && cfg.outputModelFile !in files
    ensures var s := Run(Initial, cfg, [SdfCheck(files, lib), SdfParse(true), ModelGeneration(false, files, true)]);
            s == State(Flags(true, true, true), Unset, Some(lib.root), lib.initOutput + lib.readOutput)
  {
    var c0, c1, c2 := SdfCheck(files, lib), SdfParse(true), ModelGeneration(false, files, true);
    var s1 := Next(Initial, cfg, c0);
    Unroll(Guards(Initial, cfg, c0));
    Unroll(Guards(Initial, cfg, c0)[..4]);
    assert s1 == State(Flags(true, false, false), Unset, Some(lib.root), lib.initOutput + lib.readOutput);
    var s2 := Next(s1, cfg, c1);
    Unroll(Guards(s1, cfg, c1));
    var s3 := Next(s2, cfg, c2);
    Unroll(Guards(s2, cfg, c2));
    assert s3 == State(Flags(true, true, true), Unset, Some(lib.root), lib.initOutput + lib.readOutput);
    assert [c0, c1, c2][1..] == [c1, c2];
    assert [c1, c2][1..] == [c2];
    assert [c2][1..] == [];
    assert Run(s3, cfg, []) == s3;
    assert Run(s2, cfg, [c2]) == s3;
    assert Run(s1, cfg, [c1, c2]) == s3;
  }

  /** The initial-state mirror of ExistingOutput. */
  lemma {:induction false} ExistingInitialStateOutput(s: State, cfg: Config, force: bool, files: set<string>, generatorOk: bool)
    requires s.isd == Flags(true, true, false) && cfg.outputInitialStateFile in files
    ensures !force ==> Verdict(s, cfg, InitialStateGeneration(force, files, generatorOk)) == Fail(FileAlreadyExists(cfg.outputInitialStateFile)) &&
                       Effects(s, cfg, InitialStateGeneration(force, files, generatorOk)) == []
    ensures force ==> Effects(s, cfg, InitialStateGeneration(force, files, generatorOk)) == [InitialStateGenerated(cfg.outputInitialStateFile)] &&
                      (Verdict(s, cfg, InitialStateGeneration(force, files, generatorOk)).Pass? <==> generatorOk)
  {
    var gs := Guards(s, cfg, InitialStateGeneration(force, files, generatorOk));
    Unroll(gs);
    Unroll(gs[..4]);
    assert gs[..4][4..] == [];
  }

  /** The initial-state mirror of GenerateTwice. */
  lemma {:induction false} GenerateInitialStateTwice(s: State, cfg: Config, files: set<string>, files': set<string>, force': bool, ok': bool)
    requires Verdict(s, cfg, InitialStateGeneration(false, files, true)).Pass?
    ensures var s' := Next(s, cfg, InitialStateGeneration(false, files, true));
            Verdict(s', cfg, InitialStateGeneration(force', files', ok')) == Fail(NddlInitialStateAlreadyGenerated) &&
            Effects(s', cfg, InitialStateGeneration(force', files', ok')) == []
  {
    var s' := Next(s, cfg, InitialStateGeneration(false, files, true));
    assert s'.isd.generated;
    Unroll(Guards(s', cfg, InitialStateGeneration(force', files', ok')));
    Unroll(Guards(s', cfg, InitialStateGeneration(force', files', ok'))[..4]);
  }
}
