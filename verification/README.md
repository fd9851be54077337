# Phigaro batch command line: decision logic in Dafny

Phigaro predicts phages and prophages in a genome. Its `phigaro` command runs a
fixed chain of four stages over a FASTA file: preprocess, gene prediction with
prodigal, a profile search with hmmer, and the phigaro classifier. The entry
point `phigaro/cli/batch.py` is mostly plumbing around that chain. This project
models the pure decisions it makes, as total functions over strings,
sequences, maps and an abstract directory walk:

- **Substitutions** (`Tasks`). Each repeated `-S name:path` entry is parsed
  into a map from task name to a dummy task that reports `path` as its output
  (`parse_substitute_output`).
- **Chain** (`Tasks`). When a stage is built, it is replaced by the dummy
  registered under its `task_name` (`create_task`). The four-stage chain is
  then assembled from the already-resolved upstream tasks.
- **Formats** (`Formats`). The formats are lower-cased, and `-o` is demanded
  unless the only format is `stdout`. The `no_html`, `gff` and `bed` settings,
  and the choice to write the `.tsv` copy and standard output, come from
  membership in that list. The sample identifier is `sample_name-uuid`.
- **Scratch cleanup** (`Cleanup`). `clean_fold` decides which directories
  under `proc` to remove during a bottom-up walk.
- **`main`** (`Batch`). These steps are composed in `main`'s order into a
  `RunPlan`: the format check, the settings, the sample id, the output folder,
  the substitutions, the chain and the cleanup order.

Tasks are the tagged union `Real(name, args, deps) | Dummy(name, path)`. A
real task is opaque: its class's `task_name`, its positional arguments and the
upstream tasks it was built from. Errors are values of `Errors.CliError`
inside `Wrappers.Result`, where the source prints a message and exits or
raises. Some inputs come from elsewhere and are parameters of the model:
- the four stage classes' `task_name`s (`StageNames`)
- the result of `sample_name(filename)`
- `uuid.uuid4().hex`
- the thread count

The `-S` help text (batch.py:80) asks for `hmmer` or `prodigal` followed by a
path. The code checks neither the name nor the path, and it splits on every
`:`; the model follows the code:
- An `-S` entry must split into exactly two parts, so a path that holds a
  colon, as in `hmmer:a:b`, is rejected.
- Task names are not checked against the known stages. An entry for an
  unknown name is accepted and then matches no stage.
- On duplicate names the last entry wins.

## Model

| member | source | states |
|---|---|---|
| `Tasks.ParseEntry` | phigaro/cli/batch.py:27 | an entry unpacks iff it holds exactly one colon; then name, `:` and path rebuild the entry and neither part holds a colon; otherwise the error names the entry |
| `Tasks.ParseEntryOfJoined` | phigaro/cli/batch.py:27 | `name:path` with colon-free parts parses back to exactly (name, path) |
| `Tasks.ParseAll` | phigaro/cli/batch.py:25-29 | the loop succeeds iff every entry unpacks; every key maps to a dummy of that same name; at most one key per entry |
| `Tasks.ParseSubstitutions` | phigaro/cli/batch.py:23-29 | `None` and `[]` both give the empty map; success iff every entry has exactly one colon; the map is well formed |
| `Tasks.FirstMalformedReported` | phigaro/cli/batch.py:26-27 | the error reported is the first malformed entry in input order |
| `Tasks.KeysAreNamedEntries` | phigaro/cli/batch.py:26-28 | a name is a key iff some entry names it, with no check against stage names or the file system |
| `Tasks.LastEntryWins` | phigaro/cli/batch.py:26-28 | the dummy under a name carries the path of the last entry naming it |
| `Tasks.Resolve` | phigaro/cli/batch.py:32-41 | the substitution is returned iff the built task's name is a key, otherwise the built task unchanged; the stage name is kept |
| `Tasks.ResolveIdempotent` | phigaro/cli/batch.py:34-41 | substituting an already substituted task changes nothing |
| `Tasks.BuildChain` | phigaro/cli/batch.py:136-157 | four tasks with the stage names in chain order; a stage is a dummy iff its name is substituted, and then it is exactly the dummy registered under that name; each real stage is built from the resolved upstream tasks, and run_phigaro from prodigal and hmmer |
| `Tasks.DependenciesPrecede` | phigaro/cli/batch.py:136-157 | every upstream task of a real stage is an earlier element of the chain |
| `Tasks.OnlyStageNamesMatter` | phigaro/cli/batch.py:35-41 | the chain depends only on the substitutions whose names are stage names |
| `Tasks.UnmatchedSubstitutionsIgnored` | phigaro/cli/batch.py:136-157 | substitutions that match no stage leave the chain identical to the all-real chain |
| `Tasks.FullySubstitutedChain` | phigaro/cli/batch.py:136-157 | when every stage is substituted, the chain is exactly the registered dummies and holds no real task |
| `Text.Split` | phigaro/cli/batch.py:27 | `str.split` on one character gives one more part than there are separators, and no part contains the separator |
| `Text.JoinSplit` | phigaro/cli/batch.py:27 | joining the split parts with the separator gives back the string |
| `Text.SplitPair` | phigaro/cli/batch.py:27 | `a:b` with colon-free parts splits into exactly `[a, b]` |
| `Text.Lower` | phigaro/cli/batch.py:97 | lower-casing keeps the length, maps each ASCII letter `A`..`Z` to its `a`..`z` counterpart, and keeps every other character |
| `Text.LowerIdempotent` | phigaro/cli/batch.py:97 | lower-casing twice is lower-casing once |
| `Text.Dirname` | phigaro/cli/batch.py:124 | the dirname is empty iff the path has no slash; otherwise the path is the dirname, a run of slashes and a slash-free last component; the dirname ends in a slash only when it is all slashes, and then it is the whole head before the last component |
| `Text.PathJoin` | phigaro/cli/batch.py:51 | `os.path.join(a, b)`: `b` when absolute, `a + b` after an empty or slash-ended `a`, else `a/b`; the result always ends in `b` |
| `Text.DirnameOfJoin` | phigaro/cli/batch.py:124 | `dirname(join(d, base))` is `d` for a slash-free base and a `d` not ending in a slash |
| `Formats.Normalize` | phigaro/cli/batch.py:97 | each requested format is replaced by its lower-case form, in order |
| `Formats.NormalizeIdempotent` | phigaro/cli/batch.py:97 | normalizing twice equals normalizing once |
| `Formats.ValidateOutput` | phigaro/cli/batch.py:97-100 | the run is refused, with the output-required error, iff no truthy output is given and the list is not exactly one `stdout` in any case; otherwise the lower-cased list |
| `Formats.RepeatedStdoutNeedsOutput` | phigaro/cli/batch.py:98-100 | `['stdout','stdout']` without `-o` is refused |
| `Formats.MixedFormatsNeedOutput` | phigaro/cli/batch.py:97-100 | `['STDOUT','tsv']` without `-o` is refused |
| `Formats.UpperCaseStdoutAccepted` | phigaro/cli/batch.py:97-100 | `['STDOUT']` without `-o` is accepted as `['stdout']` |
| `Formats.DeriveFlags` | phigaro/cli/batch.py:108-167 | `no_html` iff `html` is absent (line 108); `gff` and `bed` iff present (lines 113-114); `.tsv` copy and stdout iff `tsv` and `stdout` are present (lines 160, 163, 167) |
| `Formats.FlagsDependOnFormatSet` | phigaro/cli/batch.py:108-114 | the flags depend only on the set of formats, not on order or repetition |
| `Formats.AcceptedWithoutOutputIsStdoutOnly` | phigaro/cli/batch.py:97-114 | a run accepted without `-o` asks for standard output only: no report, no gff, no bed, no `.tsv` |
| `Formats.TsvImpliesOutput` | phigaro/cli/batch.py:160-164 | an accepted run that writes `output + '.tsv'` always has an output name |
| `Formats.SampleId` | phigaro/cli/batch.py:118-121 | the sample id is the sample name, a dash, then the uuid |
| `Formats.SplitSampleId` | phigaro/cli/batch.py:118-121 | cutting at the last dash yields a name and a dash-free uuid that rebuild the id |
| `Formats.SampleIdRoundTrip` | phigaro/cli/batch.py:111-121 | with a uuid4 hex, the sample name and uuid are recovered from the sample id, whatever dashes the name holds |
| `Cleanup.CleanFold` | phigaro/cli/batch.py:43-53 | subdirectories are removed exactly for the entries before the first entry with a file; `proc` is removed iff no entry of the walk has a file |
| `Cleanup.SubdirPaths` | phigaro/cli/batch.py:50-51 | each removal candidate of an entry is `os.path.join(root, name)` and ends in that subdirectory's name |
| `Cleanup.SubdirsBeforeFirstFileRemoved` | phigaro/cli/batch.py:44-51 | for every walk, every subdirectory of every entry before the first file is removed, whether or not `proc` is then kept |
| `Cleanup.LaterEntriesIgnored` | phigaro/cli/batch.py:44-53 | once an entry with a file is seen, later entries remove nothing and `proc` is kept |
| `Cleanup.EarlySubdirsRemovedEvenIfProcKept` | phigaro/cli/batch.py:45-53 | a subdirectory visited before the first file is removed even though `proc` is kept |
| `Batch.OutputFolderAsWritten` | phigaro/cli/batch.py:123-126 | as written, the folder step fails iff no `-o` was given; otherwise it yields the dirname of the output name, or nothing exactly when the name has no slash |
| `Batch.StdoutOnlyRunFailsAsWritten` | phigaro/cli/batch.py:97-126 | a stdout-only run without `-o` passes the output check, then fails at the folder step as written |
| `Batch.OutputFolder` | phigaro/cli/batch.py:123-126 | corrected: only a given output name yields a folder, its dirname, and none exactly when the name has no slash; it agrees with the code as written whenever `-o` is given |
| `Batch.OutputFolderOfJoinedName` | phigaro/cli/batch.py:124-126 | the folder created for `folder/name` is `folder` |
| `Batch.CleanupSteps` | phigaro/cli/batch.py:173-176 | without `--no-cleanup`, each chain task is cleaned in order and the scratch folder last; with it, nothing happens |
| `Batch.Plan` | phigaro/cli/batch.py:97-157 | refused iff the output check fails or some `-S` entry is malformed; the output check takes precedence, and otherwise the error is that of the first malformed entry; on success, the sample id, output folder and chain are as defined above |
| `Batch.PlanFlags` | phigaro/cli/batch.py:106-167 | the settings and the `.tsv`/stdout choices follow the formats case-insensitively; the uuid, output and thread count are recorded; a `.tsv` copy implies an output name |
| `Batch.AcceptedRunsReachChain` | phigaro/cli/batch.py:97-134 | with the corrected folder step, every run that passes the output check and has parsable substitutions reaches the chain |
| `Batch.PlanCleanupOrder` | phigaro/cli/batch.py:152-176 | an accepted run cleans preprocess, prodigal, hmmer, run_phigaro and then the scratch folder, unless cleanup is off |

## Left out

- Argument parsing (lines 57-85) is not modelled. This includes argparse's defaults, such as `['html']` for `-e` and the CPU count for `-t`. The parsed values are the fields of `Batch.CliArgs`.
- Logging setup (lines 87-90) is left out. So is the `print` diagnostic in `create_task` (lines 36-38). Both are output only.
- The existence check on the configuration file (lines 92-95) and the YAML load (lines 102-104) are left out because they are file I/O. The model keeps only the values written into the `phigaro` section (`Batch.PhigaroSettings`).
- `uuid.uuid4()`, `multiprocessing.cpu_count()` and `os.getenv('HOME')` depend on randomness or the environment. The uuid and the thread count are parameters, and the config path is not modelled.
- `sample_name` lives in `phigaro/batch/task/path.py`, which is not part of this model. Its result is a parameter.
- The stage classes `PreprocessTask`, `ProdigalTask`, `HmmerTask` and `RunPhigaroTask` are not part of this model. Neither are their `task_name` values or `clean()` methods. Tasks are opaque `Real` values, and stage names are a parameter.
- `DummyTask` is not part of this model beyond what `batch.py` uses: its output path and its task name.
- `Context.initialize` (lines 128-132) sets process-wide state and is not modelled.
- `run_tasks_chain` (line 158) lives in `phigaro/batch/runner.py`, which is not part of this model. Runner execution, caching and failure propagation are not modelled.
- Reading the result file and writing the `.tsv` copy and standard output (lines 160-171) are I/O. Only the decision of which of the two to write is modelled.
- The `os.path.isdir` test and `os.makedirs` call (lines 125-126) are file-system effects. The model yields the folder that must exist.
- `os.walk` and `os.rmdir` are replaced by a given walk sequence. `Cleanup.CleanFold` yields the removal decision. Failures of `os.rmdir` are not modelled, for example when `proc` is missing or a directory is not empty.
- `Text.Lower`: models `str.lower` for ASCII letters only. Non-ASCII upper-case letters stay as they are, whereas Python would lower-case them.

## Findings

| source | as written | input that shows it | evidently intended | confidence | as-written member | corrected member |
|---|---|---|---|---|---|---|
| phigaro/cli/batch.py:123-124 | `if config['phigaro']['output'] is not None` compares argparse's `False` default of `--output` with `None`. The test always passes, so `os.path.dirname(False)` is called, and it raises | `phigaro -f x.fna -e stdout` without `-o`: the output check at line 98 accepts the run, then line 124 fails | skip the folder step when no output name is given (test truthiness, as line 98 does) | high; not executed | `Batch.OutputFolderAsWritten` | `Batch.OutputFolder` |

`Batch.StdoutOnlyRunFailsAsWritten` exhibits the failure of the code as written.
`Batch.AcceptedRunsReachChain` proves that, with the corrected step, every run
accepted by the output check and with parsable substitutions reaches the
chain. `Batch.Plan` uses the corrected step.
