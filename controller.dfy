/** The Controller: the object a front end drives through
    checkSdfInput -> parseSdf -> generateNddlModel and
    checkIsdInput -> parseIsd -> generateNddlInitialState.
    Every stage method is proved to behave as the Workflow specification
    says: same outcome (the first failing guard), same new state, same calls
    into the collaborators. Exceptions are returned as `Fail` values. */
module WorkflowController {
  import opened Wrappers
  import opened Elements
  import opened Workflow

  class Controller {
    var config: Config
    var isSdfChecked: bool
    var isSdfParsed: bool
    var isNddlModelGenerated: bool
    var isIsdChecked: bool
    var isIsdParsed: bool
    var isNddlInitialStateGenerated: bool
    /** The structural root read by the last successful SDF check. */
    var sdfRoot: Option<SdfRoot>
    /** What has been written to the diagnostic stream while it was redirected. */
    var cerrBuffer: string
    /** Whether the diagnostic stream currently goes to `cerrBuffer`. */
    ghost var cerrRedirected: bool
    /** Every call into a collaborator and every switch of the stream, in order. */
    ghost var trace: seq<Effect>

    /** The state the Workflow specification speaks about. */
    function Current(): State
      reads this
    {
      State(Flags(isSdfChecked, isSdfParsed, isNddlModelGenerated),
            Flags(isIsdChecked, isIsdParsed, isNddlInitialStateGenerated),
            sdfRoot, cerrBuffer)
    }

    /** Between public calls: the indicators are ordered, a checked SDF has a
        root, the stream is not redirected and the configuration is read-only. */
    ghost predicate Valid()
      reads this
    {
      Consistent(Current()) && !cerrRedirected && config.readOnly
    }

    constructor (cfg: Config)
      ensures Valid() && config == cfg.(readOnly := true)
      ensures Current() == Initial && trace == []
    {
      config := cfg.(readOnly := true);
      isSdfChecked := false;
      isSdfParsed := false;
      isNddlModelGenerated := false;
      isIsdChecked := false;
      isIsdParsed := false;
      isNddlInitialStateGenerated := false;
      sdfRoot := None;
      cerrBuffer := "";
      cerrRedirected := false;
      trace := [];
    }

    /** The destructor: the SDF tree is cleared only if it was parsed. */
    method Dispose()
      requires Valid()
      modifies this`trace
      ensures trace == old(trace) + (if isSdfParsed then [SdfRootCleared(sdfRoot.value)] else [])
    {
      if isSdfParsed {
        trace := trace + [SdfRootCleared(sdfRoot.value)];
      }
    }

    method CheckSdfInput(files: set<string>, lib: SdfLibrary) returns (r: Outcome<Error>)
      requires Valid()
      modifies this
      ensures Valid() && config == old(config)
      ensures r == Verdict(old(Current()), config, SdfCheck(files, lib))
      ensures Current() == Next(old(Current()), config, SdfCheck(files, lib))
      ensures trace == old(trace) + Effects(old(Current()), config, SdfCheck(files, lib))
    {
      ghost var s0 := Current();
      SdfCheckInOrder(s0, config, files, lib);
      SdfCheckSteps(s0, config, files, lib);
      if isSdfChecked {
        return Fail(SdfAlreadyChecked);
      }
      if config.inputSdfFile == "" {
        return Fail(InputSdfFileNotSet);
      }
      if config.inputSdfFileExt != ".sdf" {
        return Fail(FileMustBeSdf);
      }
      if config.inputSdfFile !in files {
        return Fail(FileDoesNotExist(config.inputSdfFile));
      }
      r := ReadSdfFile(lib);
    }

    /** The sdformat part of the check: init, then read, with the diagnostic
        stream redirected in between; the tree is kept only when both succeed. */
    method ReadSdfFile(lib: SdfLibrary) returns (r: Outcome<Error>)
      requires Valid() && !isSdfChecked
      modifies this
      ensures Valid() && config == old(config)
      ensures r == if !lib.initOk then Fail(InitializingSdf(old(cerrBuffer) + lib.initOutput))
                   else if !lib.readOk then Fail(ReadingSdfFile(old(cerrBuffer) + lib.initOutput + lib.readOutput))
                   else Pass
      ensures Current() == old(Current()).(sdf := if lib.initOk && lib.readOk then old(Current()).sdf.(checked := true) else old(Current()).sdf,
                                           sdfRoot := if lib.initOk && lib.readOk then Some(lib.root) else old(sdfRoot),
                                           cerrBuffer := old(cerrBuffer) + lib.initOutput + (if lib.initOk then lib.readOutput else ""))
      ensures trace == old(trace) + [CerrDisabled, SdfInit] + (if lib.initOk then [SdfRead(config.inputSdfFile)] else []) + [CerrEnabled]
    {
      DisableCerr();
      trace := trace + [SdfInit];
      cerrBuffer := cerrBuffer + lib.initOutput;
      if !lib.initOk {
        EnableCerr();
        var output := GetBufferedCerrOutput();
        return Fail(InitializingSdf(output));
      }
      trace := trace + [SdfRead(config.inputSdfFile)];
      cerrBuffer := cerrBuffer + lib.readOutput;
      if !lib.readOk {
        EnableCerr();
        var output := GetBufferedCerrOutput();
        return Fail(ReadingSdfFile(output));
      }
      sdfRoot := Some(lib.root);
      EnableCerr();
      isSdfChecked := true;
      r := Pass;
    }

    method ParseSdf(parserOk: bool) returns (r: Outcome<Error>)
      requires Valid()
      modifies this
      ensures Valid() && config == old(config)
      ensures r == Verdict(old(Current()), config, SdfParse(parserOk))
      ensures Current() == Next(old(Current()), config, SdfParse(parserOk))
      ensures trace == old(trace) + Effects(old(Current()), config, SdfParse(parserOk))
    {
      ghost var s := Current();
      Unroll(Guards(s, config, SdfParse(parserOk)));
      Unroll(Guards(s, config, SdfParse(parserOk))[..2]);
      if isSdfParsed {
        return Fail(SdfAlreadyParsed);
      }
      r := IsSdfParsable();
      if r.Fail? {
        return;
      }
      trace := trace + [SdfParserRun];
      if !parserOk {
        return Fail(ParseDataStructure);
      }
      isSdfParsed := true;
    }

    /** The overload without an argument: never overwrite. */
    method GenerateNddlModelDefault(files: set<string>, generatorOk: bool) returns (r: Outcome<Error>)
      requires Valid()
      modifies this
      ensures Valid() && config == old(config)
      ensures r == Verdict(old(Current()), config, ModelGeneration(false, files, generatorOk))
      ensures Current() == Next(old(Current()), config, ModelGeneration(false, files, generatorOk))
      ensures trace == old(trace) + Effects(old(Current()), config, ModelGeneration(false, files, generatorOk))
    {
      r := GenerateNddlModel(false, files, generatorOk);
    }

    method GenerateNddlModel(forceOverwrite: bool, files: set<string>, generatorOk: bool) returns (r: Outcome<Error>)
      requires Valid()
      modifies this
      ensures Valid() && config == old(config)
      ensures r == Verdict(old(Current()), config, ModelGeneration(forceOverwrite, files, generatorOk))
      ensures Current() == Next(old(Current()), config, ModelGeneration(forceOverwrite, files, generatorOk))
      ensures trace == old(trace) + Effects(old(Current()), config, ModelGeneration(forceOverwrite, files, generatorOk))
    {
      ghost var s := Current();
      ghost var c := ModelGeneration(forceOverwrite, files, generatorOk);
      Unroll(Guards(s, config, c));
      Unroll(Guards(s, config, c)[..4]);
      if isNddlModelGenerated {
        return Fail(NddlModelAlreadyGenerated);
      }
      r := IsNddlModelGeneratable();
      if r.Fail? {
        return;
      }
      var outputModelFile := config.outputModelFile;
      if !forceOverwrite && outputModelFile in files {
        return Fail(FileAlreadyExists(outputModelFile));
      }
      trace := trace + [ModelsGenerated(outputModelFile)];
      if !generatorOk {
        return Fail(GeneratingModels);
      }
      isNddlModelGenerated := true;
    }

    method CheckIsdInput(files: set<string>) returns (r: Outcome<Error>)
      requires Valid()
      modifies this
      ensures Valid() && config == old(config)
      ensures r == Verdict(old(Current()), config, IsdCheck(files))
      ensures Current() == Next(old(Current()), config, IsdCheck(files))
      ensures trace == old(trace) + Effects(old(Current()), config, IsdCheck(files))
    {
      ghost var s := Current();
      Unroll(Guards(s, config, IsdCheck(files)));
      if isIsdChecked {
        return Fail(IsdAlreadyChecked);
      }
      if config.inputIsdFile == "" {
        return Fail(InputIsdFileNotSet);
      }
      if config.inputIsdFileExt != ".isd" {
        return Fail(FileMustBeIsd);
      }
      if config.inputIsdFile !in files {
        return Fail(FileDoesNotExist(config.inputIsdFile));
      }
      isIsdChecked := true;
      r := Pass;
    }

    method ParseIsd() returns (r: Outcome<Error>)
      requires Valid()
      modifies this
      ensures Valid() && config == old(config)
      ensures r == Verdict(old(Current()), config, IsdParse)
      ensures Current() == Next(old(Current()), config, IsdParse)
      ensures trace == old(trace) + Effects(old(Current()), config, IsdParse)
    {
      ghost var s := Current();
      Unroll(Guards(s, config, IsdParse));
      if isIsdParsed {
        return Fail(IsdAlreadyParsed);
      }
      r := IsIsdParsable();
      if r.Fail? {
        return;
      }
      isIsdParsed := true;
    }

    /** The overload without an argument: never overwrite. */
    method GenerateNddlInitialStateDefault(files: set<string>, generatorOk: bool) returns (r: Outcome<Error>)
      requires Valid()
      modifies this
      ensures Valid() && config == old(config)
      ensures r == Verdict(old(Current()), config, InitialStateGeneration(false, files, generatorOk))
      ensures Current() == Next(old(Current()), config, InitialStateGeneration(false, files, generatorOk))
      ensures trace == old(trace) + Effects(old(Current()), config, InitialStateGeneration(false, files, generatorOk))
    {
      r := GenerateNddlInitialState(false, files, generatorOk);
    }

    method GenerateNddlInitialState(forceOverwrite: bool, files: set<string>, generatorOk: bool) returns (r: Outcome<Error>)
      requires Valid()
      modifies this
      ensures Valid() && config == old(config)
      ensures r == Verdict(old(Current()), config, InitialStateGeneration(forceOverwrite, files, generatorOk))
      ensures Current() == Next(old(Current()), config, InitialStateGeneration(forceOverwrite, files, generatorOk))
      ensures trace == old(trace) + Effects(old(Current()), config, InitialStateGeneration(forceOverwrite, files, generatorOk))
    {
      ghost var s := Current();
      ghost var c := InitialStateGeneration(forceOverwrite, files, generatorOk);
      Unroll(Guards(s, config, c));
      Unroll(Guards(s, config, c)[..4]);
      if isNddlInitialStateGenerated {
        return Fail(NddlInitialStateAlreadyGenerated);
      }
      r := IsNddlInitialStateGeneratable();
      if r.Fail? {
        return;
      }
      var outputInitialStateFile := config.outputInitialStateFile;
      if !forceOverwrite && outputInitialStateFile in files {
        return Fail(FileAlreadyExists(outputInitialStateFile));
      }
      trace := trace + [InitialStateGenerated(outputInitialStateFile)];
      if !generatorOk {
        return Fail(GeneratingInitialState);
      }
      isNddlInitialStateGenerated := true;
    }

    /** Passes exactly when the SDF was checked. */
    method IsSdfParsable() returns (r: Outcome<Error>)
      ensures r.Pass? <==> isSdfChecked
      ensures r.Fail? ==> r.error == CheckSdfFirst
    {
      if !isSdfChecked {
        return Fail(CheckSdfFirst);
      }
      r := Pass;
    }

    /** Passes exactly when the SDF was checked and parsed, and otherwise names
        the first missing stage. */
    method IsNddlModelGeneratable() returns (r: Outcome<Error>)
      ensures r.Pass? <==> isSdfChecked && isSdfParsed
      ensures r.Fail? ==> r.error == if isSdfChecked then ParseSdfFirst else CheckSdfFirst
      ensures Valid() ==> (r.Pass? <==> isSdfParsed)
    {
      r := IsSdfParsable();
      if r.Fail? {
        return;
      }
      if !isSdfParsed {
        return Fail(ParseSdfFirst);
      }
    }

    /** Passes exactly when the ISD was checked. */
    method IsIsdParsable() returns (r: Outcome<Error>)
      ensures r.Pass? <==> isIsdChecked
      ensures r.Fail? ==> r.error == CheckIsdFirst
    {
      if !isIsdChecked {
        return Fail(CheckIsdFirst);
      }
      r := Pass;
    }

    /** Passes exactly when the ISD was checked and parsed, and otherwise names
        the first missing stage. */
    method IsNddlInitialStateGeneratable() returns (r: Outcome<Error>)
      ensures r.Pass? <==> isIsdChecked && isIsdParsed
      ensures r.Fail? ==> r.error == if isIsdChecked then ParseIsdFirst else CheckIsdFirst
      ensures Valid() ==> (r.Pass? <==> isIsdParsed)
    {
      r := IsIsdParsable();
      if r.Fail? {
        return;
      }
      if !isIsdParsed {
        return Fail(ParseIsdFirst);
      }
    }

    /** Redirects the diagnostic stream into the buffer. */
    method DisableCerr()
      modifies this`cerrRedirected, this`trace
      ensures cerrRedirected && trace == old(trace) + [CerrDisabled]
    {
      cerrRedirected := true;
      trace := trace + [CerrDisabled];
    }

    /** Restores the diagnostic stream saved at construction. */
    method EnableCerr()
      modifies this`cerrRedirected, this`trace
      ensures !cerrRedirected && trace == old(trace) + [CerrEnabled]
    {
      cerrRedirected := false;
      trace := trace + [CerrEnabled];
    }

    /** Everything captured while the stream was redirected. */
    method GetBufferedCerrOutput() returns (output: string)
      ensures output == cerrBuffer
    {
      output := cerrBuffer;
    }
  }
}
