/** The decisions `main` of the batch command line takes before and after the
    task chain runs, lifted out of its side effects: which formats and flags,
    which sample identifier, which output folder to create, which tasks form
    the chain and in which order they are cleaned. */
module Batch {
  import opened Wrappers
  import opened Errors
  import Text
  import opened Formats
  import opened Tasks

  /** The parsed command line (argparse itself is not modelled; `threads`
      stands for `-t` or its CPU-count default). */
  datatype CliArgs = CliArgs(
    fastaFile: string,
    printVogs: bool,
    extension: seq<string>,
    output: OutputArg,
    notOpen: bool,
    threads: int,
    noCleanup: bool,
    substitute: Option<seq<string>>,
    deleteShorts: bool,
    mode: string)

  /** The values `main` writes into the `phigaro` section of the loaded configuration. */
  datatype PhigaroSettings = PhigaroSettings(
    printVogs: bool,
    filename: string,
    noHtml: bool,
    notOpen: bool,
    output: OutputArg,
    uuid: string,
    deleteShorts: bool,
    gff: bool,
    bed: bool,
    mode: string)

  /** One cleanup action, in the order `main` performs them. */
  datatype CleanupStep = CleanTask(task: Task) | CleanScratchFolder

  /** Everything `main` decides for one run. */
  datatype RunPlan = RunPlan(
    settings: PhigaroSettings,
    sample: string,
    outputFolder: Option<string>,
    threads: int,
    chain: seq<Task>,
    writeTsv: bool,
    writeStdout: bool,
    cleanup: seq<CleanupStep>)

  /** The output-folder step as written: the guard `output is not None` holds
      for argparse's `False` default too, so a run without `-o` hands `False`
      to `os.path.dirname`, which raises. Otherwise the non-empty dirname is
      the folder to create when it does not exist yet. */
  function OutputFolderAsWritten(output: OutputArg): (r: Result<Option<string>, CliError>)
    ensures r.Err? <==> output.NoOutput?
    ensures output.OutputPath? ==> r.Ok? && (r.value.None? <==> '/' !in output.path)
    ensures r.Ok? && r.value.Some? ==> r.value.value == Text.Dirname(output.path)
  {
    match output
    case NoOutput => Err(OutputNotAPath)
    case OutputPath(p) =>
      var fold := Text.Dirname(p);
      Ok(if |fold| > 0 then Some(fold) else None)
  }

  /** A stdout-only run without `-o` passes the output check and then fails at
      the output-folder step of the code as written. */
  lemma StdoutOnlyRunFailsAsWritten()
    ensures ValidateOutput(["stdout"], NoOutput).Ok?
    ensures OutputFolderAsWritten(NoOutput) == Err(OutputNotAPath)
  {
  }

  /** The output-folder step as evidently intended: only a given output name
      has a folder, and it is the name's non-empty dirname. */
  function OutputFolder(output: OutputArg): (r: Option<string>)
    ensures r.Some? ==> OutputGiven(output) && r.value == Text.Dirname(output.path)
    ensures OutputGiven(output) ==> (r.None? <==> '/' !in output.path)
    ensures OutputGiven(output) ==> OutputFolderAsWritten(output) == Ok(r)
  {
    if OutputGiven(output) then
      var fold := Text.Dirname(output.path);
      if |fold| > 0 then Some(fold) else None
    else None
  }

  /** The corrected step creates the folder an output name was joined onto. */
  lemma OutputFolderOfJoinedName(folder: string, name: string)
    requires |folder| > 0 && folder[|folder| - 1] != '/'
    requires '/' !in name
    ensures OutputFolder(OutputPath(Text.PathJoin(folder, name))) == Some(folder)
  {
    Text.DirnameOfJoin(folder, name);
    assert |Text.PathJoin(folder, name)| > |folder|;
  }

  /** `main`'s cleanup: unless `--no-cleanup`, every task of the chain is
      cleaned in chain order, and the scratch folder is tidied last. */
  function CleanupSteps(chain: seq<Task>, noCleanup: bool): (steps: seq<CleanupStep>)
    ensures noCleanup ==> steps == []
    ensures !noCleanup ==> |steps| == |chain| + 1 && steps[|chain|] == CleanScratchFolder
    ensures !noCleanup ==> forall i :: 0 <= i < |chain| ==> steps[i] == CleanTask(chain[i])
  {
    if noCleanup then [] else seq(|chain|, i requires 0 <= i < |chain| => CleanTask(chain[i])) + [CleanScratchFolder]
  }

  /** `main` from the format check to the chain, in its order: the output
      check comes first, then the settings, the sample identifier and the
      output folder, and only then the substitutions. The sample name and
      the uuid are given, as are the stage classes' task names. */
  function Plan(args: CliArgs, names: StageNames, sampleName: string, uuid: string): (r: Result<RunPlan, CliError>)
    ensures r.Err? <==>
      (!OutputGiven(args.output) && !StdoutOnly(args.extension))
      || (args.substitute.Some? && exists i :: 0 <= i < |args.substitute.value| && Text.Count(args.substitute.value[i], ':') != 1)
    ensures !OutputGiven(args.output) && !StdoutOnly(args.extension) ==> r == Err(OutputRequired)
    ensures ((OutputGiven(args.output) || StdoutOnly(args.extension)) && args.substitute.Some?
             && ParseAll(args.substitute.value).Err?)
            ==> r == Err(ParseAll(args.substitute.value).error)
    ensures r.Ok? ==> r.value.sample == SampleId(sampleName, uuid)
    ensures r.Ok? ==> r.value.chain == BuildChain(ParseSubstitutions(args.substitute).value, names, args.fastaFile)
    ensures r.Ok? ==> r.value.outputFolder == OutputFolder(args.output)
  {
    var lowered :- ValidateOutput(args.extension, args.output);
    var flags := DeriveFlags(lowered);
    var settings := PhigaroSettings(
      printVogs := args.printVogs,
      filename := args.fastaFile,
      noHtml := flags.noHtml,
      notOpen := args.notOpen,
      output := args.output,
      uuid := uuid,
      deleteShorts := args.deleteShorts,
      gff := flags.gff,
      bed := flags.bed,
      mode := args.mode);
    var sample := SampleId(sampleName, uuid);
    var folder := OutputFolder(args.output);
    var subs :- ParseSubstitutions(args.substitute);
    var chain := BuildChain(subs, names, args.fastaFile);
    Ok(RunPlan(settings, sample, folder, args.threads, chain, flags.writeTsv, flags.writeStdout,
               CleanupSteps(chain, args.noCleanup)))
  }

  /** The settings follow the requested formats case-insensitively, and a run
      that writes the `.tsv` copy always has an output name. */
  lemma PlanFlags(args: CliArgs, names: StageNames, sampleName: string, uuid: string)
    requires Plan(args, names, sampleName, uuid).Ok?
    ensures var p := Plan(args, names, sampleName, uuid).value;
      && (p.settings.noHtml <==> forall i :: 0 <= i < |args.extension| ==> Text.Lower(args.extension[i]) != "html")
      && (p.settings.gff <==> exists i :: 0 <= i < |args.extension| && Text.Lower(args.extension[i]) == "gff")
      && (p.settings.bed <==> exists i :: 0 <= i < |args.extension| && Text.Lower(args.extension[i]) == "bed")
      && (p.writeTsv <==> exists i :: 0 <= i < |args.extension| && Text.Lower(args.extension[i]) == "tsv")
      && (p.writeStdout <==> exists i :: 0 <= i < |args.extension| && Text.Lower(args.extension[i]) == "stdout")
      && (p.writeTsv ==> OutputGiven(args.output))
      && p.settings.uuid == uuid && p.settings.output == args.output && p.threads == args.threads
  {
    var lowered := ValidateOutput(args.extension, args.output).value;
    if DeriveFlags(lowered).writeTsv {
      TsvImpliesOutput(args.extension, args.output);
    }
  }

  /** The corrected output-folder step never stops a run the output check
      accepted: when every `-S` entry parses, every accepted run reaches
      the chain, including a stdout-only run without `-o`. */
  lemma AcceptedRunsReachChain(args: CliArgs, names: StageNames, sampleName: string, uuid: string)
    requires ValidateOutput(args.extension, args.output).Ok?
    requires ParseSubstitutions(args.substitute).Ok?
    ensures Plan(args, names, sampleName, uuid).Ok?
  {
  }

  /** The cleanup order of an accepted run: each chain task in chain order,
      then the scratch folder; nothing when cleanup is switched off. */
  lemma PlanCleanupOrder(args: CliArgs, names: StageNames, sampleName: string, uuid: string)
    requires Plan(args, names, sampleName, uuid).Ok?
    ensures var p := Plan(args, names, sampleName, uuid).value;
      && (args.noCleanup <==> p.cleanup == [])
      && (!args.noCleanup ==> p.cleanup == [CleanTask(p.chain[0]), CleanTask(p.chain[1]), CleanTask(p.chain[2]),
                                            CleanTask(p.chain[3]), CleanScratchFolder])
  {
    var p := Plan(args, names, sampleName, uuid).value;
    if !args.noCleanup {
      assert |p.cleanup| == 5;
    }
  }
}
