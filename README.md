# voxforge-sphinx-train, modelled in Dafny

voxforge-sphinx-train prepares a VoxForge speech corpus for training with
CMU Sphinx. `voxforgesphinx/cli.py` reads a command word and a base
directory. `Train` (`voxforgesphinxtrain/train.py`) derives every file name
of the training tree from that directory, creates the base, `wav` and `etc`
directories, and then runs the stages the command selects. This project
models the parts of that core that compute something:

- `Transcription`: parsing one PROMPTS line into a record (module `Transcriptions`).
- `_collect_transcriptions`: gathering the records of every speaker directory, reporting bad lines and directories without PROMPTS, and sorting the records (module `Collector`).
- `transcript`: writing the full transcription and the every-tenth-record train/test split to five files (module `TranscriptFiles`).
- `Train.__init__`'s path layout, including where `lm_dmp` ends up (module `TrainLayout`).
- `convert_flac`'s choice of output file name (module `FlacConversion`).
- `setup`'s line-by-line rewriting of `sphinx_train.cfg` (module `ConfigPatch`).
- `main`'s dispatch, what each command actually runs, its exit codes and its standard-error text (module `Cli`).

The Python 2 builtins the core relies on are modelled in their own modules:

- `PyStr`: `str.split(sep, 1)`, `split("/")[-1]`, `strip`, ASCII `lower`, `str.replace` (leftmost, non-overlapping, every occurrence) and the digit search of `VALID`.
- `PosixPath`: `posixpath.join`, where an absolute later part discards what came before.
- `StrOrder`: byte-string `<`, which `Transcription.__lt__` uses.

Files are values here:

- A PROMPTS file or the configuration file is the sequence of its lines, each with its own terminator.
- A file written with `print >>` is the sequence of the lines printed.
- The directory listing is a sequence of `SpeakerDir` entries, in `os.listdir` order.
- Whether `etc/PROMPTS` exists is an `Option`.

Python's `list.sort` is stable. It is modelled by a stable insertion sort,
`Collector.SortByText`. `SortByTextIsTheStableSort` proves that any sorted
sequence that keeps the original order among equal texts is that same
sequence, so which stable algorithm runs does not matter.

Three facts about the code shape the model:

- The `all` branch of `main` calls clean, convert_flac, link_mfc, transcript, build_lm, templates and setup. It calls neither unpack nor run.
- `setup` applies every replacement to every line in sequence. A later replacement sees the output of an earlier one.
- Python 2 reads a tab as eight columns. So the tab-indented `def configure` and `def do_all` (train.py:273-283) are local functions inside `clean`. The calls indented with eight spaces stay in `clean`'s own body. `clean` therefore removes the training outputs, then runs convert_flac, link_mfc, transcript, build_lm, templates and setup. Then `self.configure()` (train.py:284) raises `AttributeError`, which `main` does not catch. The `clean` command and the `all` command, whose first call is `clean`, both end this way.

Which member models which source function:

- `Transcriptions.Parse` is the `Transcription` constructor (train.py:56-65); `NormalizeQuote` is its quote expression and `Render` its `_str`.
- In `Collector`, `Collected` is the record list `_collect_transcriptions` builds (train.py:131-143), `Notices` what it prints, and `SortByText` its `sort` (train.py:144). `ParsePrompts` and `CollectTranscriptions` are its two loops.
- In `TranscriptFiles`, `Written` gives the five files `transcript` writes (train.py:158-168). `WriteTranscripts` is its loop, and `Store` the truncating opens (train.py:151-155).
- `TrainLayout.Derive` gives the fields `Train.__init__` sets (train.py:79-95); `BaseDirs` gives the directories it creates (train.py:99-101).
- `FlacConversion.ConvertedPath` is the output name of `convert_flac` (train.py:122).
- In `ConfigPatch`, `Rules` lists the thirteen replacements of `setup`, `PatchLine` is their chain on one line (train.py:216-248), and `Setup` is the write loop (train.py:215-252).
- In `Cli`, `StagesFor` is the `if`/`elif` chain (cli.py:74-103). `Performed` is what the called methods run as written, `Ends` the `try`/`except` of cli.py:56-113, and `Main` the whole of `main`.

## Model

| member | source | states |
|---|---|---|
| PyStr.SplitOnceSpec | voxforgesphinxtrain/train.py:57 | `split(' ', 1)` fails to give two parts exactly when the line has no space; otherwise the first part is the space-free text before the first space and the second is everything after it |
| PyStr.LastSegmentSpec | voxforgesphinxtrain/train.py:61 | the last `/`-separated segment is a suffix of the id holding no slash, and the character just before it is a slash or the id begins there |
| PyStr.HasDigitIff | voxforgesphinxtrain/train.py:62 | `VALID.search` succeeds exactly when some character is an ASCII digit |
| PyStr.StripSpec | voxforgesphinxtrain/train.py:58 | `strip("\n")` removes newlines at both ends only: the result is a contiguous slice that neither begins nor ends with a newline, and everything outside it is newlines |
| PyStr.LowerSpec | voxforgesphinxtrain/train.py:58 | `lower()` maps every character through ASCII lower-casing, position by position |
| PyStr.LowerHasNoUpper | voxforgesphinxtrain/train.py:58 | a lower-cased string holds no upper-case ASCII letter |
| PyStr.ReplaceCharPointwise | voxforgesphinxtrain/train.py:58 | `replace("-", " ")` keeps the length and turns exactly the dashes into spaces |
| PyStr.ReplaceAllAbsent | voxforgesphinxtrain/train.py:216-248 | a replacement whose match text does not occur leaves the line unchanged |
| PyStr.ReplaceAllIdempotent | voxforgesphinxtrain/train.py:228-229 | when the replacement text creates no new match, replacing twice gives what replacing once gives |
| PosixPath.JoinParts | voxforgesphinxtrain/train.py:81-95 | `join(a, b)` ends with `b` and is `b` when `b` is absolute; otherwise it starts with `a` and holds at most one character more, a slash, present exactly when `a` is non-empty and does not end in a slash |
| PosixPath.JoinRelative | voxforgesphinxtrain/train.py:81-95 | joining a relative name onto a directory that does not end in a slash inserts one slash, and keeps the directory's absoluteness and the name's last character |
| StrOrder.LessIffLexLess | voxforgesphinxtrain/train.py:70-72 | string `<` is lexicographic order: a proper prefix is smaller, otherwise the first differing character decides |
| StrOrder.LessTransitive | voxforgesphinxtrain/train.py:70-72 | the order `__lt__` delegates to is transitive |
| StrOrder.LessTotal | voxforgesphinxtrain/train.py:70-72 | any two different strings are ordered one way or the other |
| Transcriptions.NormalizeQuoteIsNormal | voxforgesphinxtrain/train.py:58 | the normalised quote has no newline at either end, no dash and no upper-case letter |
| Transcriptions.NormalizeQuoteFixes | voxforgesphinxtrain/train.py:58 | normalising an already normal quote changes nothing |
| Transcriptions.ParseRejections | voxforgesphinxtrain/train.py:57-63 | a line fails with the unpacking error exactly when it has no space; a line with a space fails only with the invalid PROMPTS line error naming the line and the directory |
| Transcriptions.ParseResult | voxforgesphinxtrain/train.py:56-65 | an accepted line gives a normal quote, a file name without slash or space that holds a digit, the file id `dirname/mfc/filename` and the rendered `<s> quote </s> (filename)` |
| Transcriptions.ParseAcceptsIffDigit | voxforgesphinxtrain/train.py:61-63 | a line with a space is accepted exactly when the last segment of its id holds a digit |
| Transcriptions.ParseFields | voxforgesphinxtrain/train.py:57-61 | an accepted record's file name and quote come from the two sides of the line's first space |
| Transcriptions.FileIdInMfc | voxforgesphinxtrain/train.py:64 | for a plain directory name the file id is `dirname/mfc/filename` |
| Transcriptions.ParsePromptLine | voxforgesphinxtrain/train.py:56-65 | a well-formed `id quote\n` line is accepted with exactly the expected quote, file name, file id and text |
| Transcriptions.Reparse | voxforgesphinxtrain/train.py:56-65 | writing a record back as `filename quote` and parsing it again gives the same record |
| Transcriptions.ParseExample | voxforgesphinxtrain/train.py:56-65 | `spk1/a1 Hello-World\n` in directory `spk1` gives quote `hello world`, file name `a1`, file id `spk1/mfc/a1` and text `<s> hello world </s> (a1)` |
| Collector.RecordsOrErrors | voxforgesphinxtrain/train.py:137-141 | the records kept and the errors reported together number exactly the lines read: `|Records| + |Errors| == |outcomes|` |
| Collector.RejectedLineSkipped | voxforgesphinxtrain/train.py:138-141 | a rejected line contributes nothing to the records: the lines around it give what they give without it |
| Collector.AcceptedMembers | voxforgesphinxtrain/train.py:137-141 | a record is collected from a PROMPTS file exactly when some line of it parses to that record |
| Collector.CollectedMembers | voxforgesphinxtrain/train.py:133-141 | a record is collected from the listing exactly when some line of some directory's PROMPTS file parses to it |
| Collector.NoPromptsContributesNothing | voxforgesphinxtrain/train.py:142-143 | a directory without a PROMPTS file adds no record |
| Collector.CollectedCount | voxforgesphinxtrain/train.py:133-141 | there are exactly as many collected records as lines that parse, summed over the directories with a PROMPTS file |
| Collector.CollectedPermutation | voxforgesphinxtrain/train.py:133-141 | listing the directories in another order collects the same records, up to order |
| Collector.SortByTextSorted | voxforgesphinxtrain/train.py:144 | after the sort, the rendered texts are in non-decreasing order |
| Collector.SortByTextPermutation | voxforgesphinxtrain/train.py:144 | the sort is a permutation of the records |
| Collector.SortByTextStable | voxforgesphinxtrain/train.py:144 | among records with the same text, the sort keeps the order they were collected in |
| Collector.SortByTextIsTheStableSort | voxforgesphinxtrain/train.py:144 | any sorted sequence that keeps each text's records in collection order equals the sort's result |
| Collector.ListingOrderIrrelevant | voxforgesphinxtrain/train.py:133-144 | the sorted texts do not depend on the order `os.listdir` returns the directories in |
| Collector.ParsePrompts | voxforgesphinxtrain/train.py:137-141 | the loop over one PROMPTS file appends exactly the accepted records and reports exactly the errors, both in line order |
| Collector.CollectTranscriptions | voxforgesphinxtrain/train.py:131-145 | returns the collected records sorted by text (sorted, and a permutation of what was collected) and reports every bad line and every directory without PROMPTS in listing order |
| TranscriptFiles.PickCount | voxforgesphinxtrain/train.py:158-168 | of `N` records, `(N + 9) / 10` go to the test files and the rest to the train files |
| TranscriptFiles.PickAt | voxforgesphinxtrain/train.py:163-168 | test line `m` is record `10m`; train line `m` is record `m + m/9 + 1` |
| TranscriptFiles.SplitCovers | voxforgesphinxtrain/train.py:158-168 | every record lands in exactly the split its index selects, at the position the index determines |
| TranscriptFiles.PickPermutation | voxforgesphinxtrain/train.py:158-168 | together, the two splits hold exactly the records |
| TranscriptFiles.TenRecords | voxforgesphinxtrain/train.py:163 | of ten records, the first is tested and the other nine are trained |
| TranscriptFiles.PickSorted | voxforgesphinxtrain/train.py:158-168 | each split keeps the sorted order |
| TranscriptFiles.WrittenLines | voxforgesphinxtrain/train.py:158-168 | the full file lists every text in order; each split's fileids line and transcription line come from the same record; all three transcription files are sorted |
| TranscriptFiles.WriteTranscripts | voxforgesphinxtrain/train.py:158-168 | the `enumerate` loop writes exactly the five line lists of the split |
| TranscriptFiles.Transcript | voxforgesphinxtrain/train.py:147-168 | `transcript` writes the split of the sorted collected records, its full file holds every collected text, and its test file holds `(N + 9) / 10` lines |
| TranscriptFiles.StoreHolds | voxforgesphinxtrain/train.py:151-155 | opening pairwise different files with `'w'` leaves each holding only what is written to it, and changes no other file |
| TranscriptFiles.TranscriptOverwrites | voxforgesphinxtrain/train.py:151-155 | after `transcript`, its five files hold exactly the five line lists, whatever they held before, and every other file is unchanged |
| TrainLayout.EnsuredDirsOfBase | voxforgesphinxtrain/train.py:79-101 | the constructor creates the base directory, then its `wav` child, then its `etc` child |
| TrainLayout.EtcDir | voxforgesphinxtrain/train.py:82 | the etc directory is the base directory's `etc` child, ends in `c`, and is absolute exactly when the base directory is |
| TrainLayout.TranscriptPathsDistinct | voxforgesphinxtrain/train.py:83-87 | the five transcript files are five different paths, whatever the base directory and name |
| TrainLayout.LmDmpOfAbsoluteBase | voxforgesphinxtrain/train.py:88-89 | with an absolute base directory, `lm_dmp` is `lm` with `.DMP` appended |
| TrainLayout.LmDmpOfRelativeBase | voxforgesphinxtrain/train.py:88-89 | with a relative base directory and name, `lm_dmp` repeats the etc directory: `etcdir/etcdir/name.lm.DMP` |
| TrainLayout.IntendedLmDmpBesideLm | voxforgesphinxtrain/train.py:88-89 | the intended `lm_dmp` is always `lm` with `.DMP` appended, and it agrees with the code for an absolute base directory |
| TrainLayout.LmDmpMisplaced | voxforgesphinxtrain/train.py:88-89 | with a relative base directory and name, the code's `lm_dmp` is the intended path one etc directory deeper, so it differs from it |
| FlacConversion.ConvertedPathUnchanged | voxforgesphinxtrain/train.py:122 | a path without `flac` is its own output name |
| FlacConversion.ConvertedPathHasNoFlac | voxforgesphinxtrain/train.py:122 | no output name contains `flac` |
| FlacConversion.ConvertedPathIdempotent | voxforgesphinxtrain/train.py:122 | converting an output name again changes nothing |
| FlacConversion.ConvertedPathPieces | voxforgesphinxtrain/train.py:122 | in a path `a flac b flac c` whose pieces `a`, `b` and `c` contain no `flac`, both `flac`s are replaced by `wav` and the pieces are kept |
| FlacConversion.OutfileAsIntended | voxforgesphinxtrain/train.py:113-123 | when neither the speaker directory nor the stem contains `flac`, `speaker/flac/stem.flac` is decoded to `speaker/wav/stem.wav` in the directory the first walk creates |
| FlacConversion.OutfileMisplaced | voxforgesphinxtrain/train.py:113-123 | when the speaker directory is `p flac q` with `p`, `q` and the stem free of `flac`, the output is sent under a rewritten speaker directory, not to the intended `wav` directory |
| ConfigPatch.ApplyRulesAppend | voxforgesphinxtrain/train.py:216-248 | running two blocks of replacements one after the other is running them as one block |
| ConfigPatch.PatchLineUntouched | voxforgesphinxtrain/train.py:216-252 | a configuration line in which none of the thirteen replacements finds its match text is written unchanged |
| ConfigPatch.DensitiesEightBecomeThirtyTwo | voxforgesphinxtrain/train.py:226 | a densities statement `= 8` followed by a tail holding none of `$`, `3`, `0`, `1`, `"` or `'` is rewritten to `= 32`, and no other rule touches the line |
| ConfigPatch.StockDensitiesLine | voxforgesphinxtrain/train.py:226 | the stock line `$CFG_FINAL_NUM_DENSITIES = 8;` becomes `$CFG_FINAL_NUM_DENSITIES = 32;` |
| ConfigPatch.NpartTwiceIsOnce | voxforgesphinxtrain/train.py:228-229 | the NPART replacement applied twice is the NPART replacement applied once |
| ConfigPatch.RepeatedNpartRuleIsNoOp | voxforgesphinxtrain/train.py:228-229 | the duplicated NPART statement changes nothing: the chain up to it gives what the chain with only the first one gives |
| ConfigPatch.Setup | voxforgesphinxtrain/train.py:215-252 | the write loop writes one chunk per configuration line, in order, each the line after all thirteen replacements |
| Cli.AllCommand | voxforgesphinx/cli.py:74-81 | `all` calls seven methods (clean, convert_flac, link_mfc, transcript, build_lm, templates, setup) and neither download, unpack nor run; its first call, `clean`, runs all seven stages and raises, so the rest are never reached |
| Cli.SingleStageCommands | voxforgesphinx/cli.py:82-101 | each stage's command word calls exactly that method; every method but `clean` runs just its own stage, and `clean` runs its whole body and raises |
| Cli.CommandNamesDistinct | voxforgesphinx/cli.py:82-101 | different stages have different command words, and none of them is `all` |
| Cli.KnownCommands | voxforgesphinx/cli.py:74-103 | a command is accepted exactly when it is `all` or some stage's command word |
| Cli.UnknownExamples | voxforgesphinx/cli.py:102-103 | `configure`, `do_all`, `convert`, `link` and the empty word are unknown commands |
| Cli.FirstCleanSpec | voxforgesphinx/cli.py:74-101 | `FirstClean` is the index of the first `clean` call, or the number of calls when there is none |
| Cli.PerformedStopsAtClean | voxforgesphinxtrain/train.py:262-285 | calling methods in turn runs them one by one up to the first `clean`, which runs removals, convert_flac, link_mfc, transcript, build_lm, templates and setup and then raises; with no `clean` nothing raises |
| Cli.PerformedOf | voxforgesphinx/cli.py:74-103 | `all` and `clean` both run `clean`'s seven stages and raise; every other command runs exactly the methods it calls and does not raise |
| Cli.DirectoriesFirst | voxforgesphinx/cli.py:61-69 | every run starts by creating the layout's base, wav and etc directories, and an unknown command does nothing more |
| Cli.StagesAfterDirectories | voxforgesphinx/cli.py:74-101 | after the directories come the stages run, in order: the command's own stages, or `clean`'s seven stages for `all` and `clean` |
| Cli.StepsArePlanned | voxforgesphinx/cli.py:56-113 | the steps done are always a prefix of the steps the command runs as written, and standard error is written exactly when `main` returns 2 |
| Cli.ExitCodes | voxforgesphinx/cli.py:102-113 | `main` returns 2 exactly when an unknown command gets past the directories; it returns nothing exactly when a step raises or when `all` or `clean` runs uninterrupted to their `AttributeError`; an interrupt during the steps returns 0, and `all` and `clean` return 0 only then |
| Cli.CleanRunsTrainingStages | voxforgesphinxtrain/train.py:262-285 | the `clean` command, left to finish, runs ten steps (three directories, the removals, convert_flac through setup) and returns nothing; `all` behaves exactly as `clean` whatever happens |
| Cli.IntendedRuns | voxforgesphinx/cli.py:74-105 | with `clean` only removing the outputs, every known command runs its directories and exactly the methods it calls and returns 0, and an unknown one returns 2 |
| Cli.UnknownCommandMessage | voxforgesphinx/cli.py:102-113 | an unknown command writes `prog: Error: Command [x] unknown.` and an indented `for help use --help`, where `prog` is the slash-free last part of `argv[0]` |
| Cli.SpacesSpec | voxforgesphinx/cli.py:110 | the hint's indent is as many spaces as the program name has characters |
| Cli.InterruptedRun | voxforgesphinx/cli.py:106-108 | an interrupt returns 0 when it comes during the steps, and otherwise only for a known command other than `all` and `clean`; an interrupt before the first step leaves nothing done |

## Left out

- `download`, `unpack`, `link_mfc`, `build_lm`, `templates`, `setup`'s `sphinxtrain -t name setup` call, `run` and `clean` are opaque stages in `Cli`. What they do is `wget`, `tar`, `flac`, `build-lm.sh`, gzip, `sphinx_lm_convert`, `pkgutil`, `copyfile`, `patch`, `sphinxtrain`, `chdir` and `rmtree`. These are external programs or file-system effects.
- `mkdir_p`, `rm_f` and `ln_sf`, including their errno handling, are not modelled. They are thin file-system wrappers; the model records only which directories are created, and in what order.
- `os.walk` is not modelled, so neither is the order in which `convert_flac` visits files. The model states the output name chosen for each input, in `FlacConversion`.
- The `flac` and `sphinxtrain` subprocesses, and the file reads and writes, are not modelled. They are I/O. PROMPTS files and the configuration file are given as their lines. The written files are the lines printed, with `print`'s own newline implied.
- The text of the printed messages is not modelled. These are `print e` for a bad line (whose message strips the line) and the missing-PROMPTS notice. The model keeps the structured `Notice` they describe, which carries the line, the directory and the kind of error.
- `Transcription.__lt__`'s `isinstance` assertion is not modelled. Only records are ever sorted.
- `Transcription.__str__` is the record's `text` field, not a separate member.
- `configure` and `do_all` are not modelled as methods. As written they are local functions that `clean` defines and never calls. `Cli.UnknownExamples` shows that their names are not commands. The tab reading they depend on is Python 2's default; the `-t` and `-tt` interpreter flags, which warn or fail on it, are not modelled.
- argparse is not modelled: `--help`, `--version`, the usage error for a missing command, `-v`'s progress prints and the `getcwd` default of `--dir`. The model takes the command and the directory as already parsed. Standard output is not modelled.
- `sys.argv.extend(argv)` is not modelled. The program name is passed in directly as `argv0`.
- The traceback Python prints for an exception `main` does not catch is not modelled. The model records only that `main` returns nothing (`None` exit).
- A `KeyboardInterrupt` can arrive in the middle of a step. The model interrupts only between steps, so a partly done step counts as not done.
- `Cli.Main` treats the failure of a step as an event passed in. Which subprocess or `OSError` causes it comes from the file system and is not modelled.

## Findings

| source | as written | input that shows it | evidently intended | confidence | as-written member | corrected member |
|---|---|---|---|---|---|---|
| voxforgesphinxtrain/train.py:88-89 | `lm_dmp = join(etcdir, "%s.DMP" % lm)` joins the already joined `lm` path onto the etc directory a second time | `--dir train`: `lm` is `train/etc/voxforge_en_sphinx.lm` but `lm_dmp` is `train/etc/train/etc/voxforge_en_sphinx.lm.DMP`, in a directory nobody creates, so `build_lm`'s `sphinx_lm_convert` cannot write it; an absolute `--dir` (the `getcwd` default) hides this | `lm_dmp` is `lm` with `.DMP` appended, next to it in the etc directory | medium, not executed | TrainLayout.LmDmpMisplaced | TrainLayout.IntendedLmDmpBesideLm |
| voxforgesphinxtrain/train.py:273-285 | the tab-indented `def configure` and `def do_all` sit at column eight, inside `clean`; the space-indented calls after them stay in `clean`'s body, where `self.configure()` raises `AttributeError` | the command `clean` (or `all`): it runs convert_flac, link_mfc, transcript, build_lm, templates and setup after the removals, then dies with the uncaught `AttributeError` instead of returning 0 | `clean` only removes the training outputs and returns; `configure` and `do_all` are `Train` methods | high, not executed | Cli.CleanRunsTrainingStages | Cli.IntendedRuns |
| voxforgesphinxtrain/train.py:121-122 | `outfile = infile.replace("flac", "wav")` rewrites every `flac` in the whole path, not only the `flac` directory and the extension | a speaker directory `/data/flac-corpus/wav/spk` sends `/data/flac-corpus/wav/spk/flac/a1.flac` to `/data/wav-corpus/wav/spk/wav/a1.wav`, under a tree the first walk never creates | the output is `speaker/wav/stem.wav`, in the `wav` directory created beside the speaker's `flac` directory | medium, not executed | FlacConversion.OutfileMisplaced | FlacConversion.OutfileAsIntended |

The corrected definitions are:

- `TrainLayout.IntendedLmDmp` for the first finding;
- `Cli.IntendedMain` for the second, which runs each command's calls with no crash;
- `FlacConversion.IntendedOutfile` for the third.

No other part of the model reads `lm_dmp` or the output file name. `Layout.lmDmp` and `Cli.Main` keep what the code does, so the as-written halves can be stated against them.
