# cleanup: a Dafny model of the move-and-revert engine

`cleanup` tidies a directory. Each top-level file whose extension it knows is moved
into a category subdirectory, e.g. `report.pdf` into `Documents/`. It records every
move in a revert ledger (`revert_info.json`), and `--revert` moves the files back.
This project models the core of `cleanup/cleanup.py` and proves its properties:

- `get_longest_extension`: the name is split on `.`, and the upper-cased last three,
  then last two, then last one dot-parts are looked up in the extension table. The
  first truthy hit wins. This is module `Classifier`.
- The rename of a file into `dir/type/name` and back, over a file system given as a
  map from path to contents. This is module `Filesystem`. A whole run of such
  renames is module `Relocation`.
- The revert ledger, a map from directory to its `{name, type}` records, and its
  file: absent, unreadable, or saved. This is module `LedgerStore`.
- The cleanup branch of `main` and `revert`. They are methods of class
  `Cleanup.Workspace`, which holds the files and the ledger file. Each `exit()` is
  an early return with an `Outcome`. An exception that escapes ends the run as
  `Crashed`.
- A worked example in module `Scenarios`. A directory holds `report.pdf`,
  `photo.JPG`, `archive.tar.gz` and `unknownfile.xyz`, under a table that knows
  both `TAR.GZ` and `GZ`. The example proves each file's category, the three ledger
  records a cleanup saves, that `unknownfile.xyz` is never touched, and that a
  revert restores the files.

Modelling choices:

- The extension table (`FILE_TYPES`) is a parameter. `FILE_TYPES.get(e)` is truthy
  when `e` is a key with a non-empty category (`Classifier.Hit`).
- `main` only uses an extension that is truthy, so the empty extension (from a name
  ending in `.`) leaves the file in place (`Cleanup.Category`).
- `os.renames(src, dst)` succeeds exactly when a file exists at `src`. It then
  replaces whatever is at `dst`, as on POSIX.
- The listing of `os.walk` is an input. `None` stands for a directory that does
  not exist.
- The directory path is an input, used both to key the ledger and to build paths.

## Model

| member | source | states |
|---|---|---|
| Classifier.LongestMatchFirst | cleanup/cleanup.py:31-48 | An extension is found iff some suffix of one to three dot-parts (never the whole name) is a truthy table key. The result is then the longest such suffix, so a known three-part suffix wins even when shorter ones are known too. |
| Classifier.ExtensionAfterDot | cleanup/cleanup.py:32-45 | A found extension is the upper-cased text after one of the name's dots, and that text holds at most two dots. |
| Classifier.NoDotNoExtension | cleanup/cleanup.py:43-48 | A name without a dot has no extension. |
| Classifier.LongestExtension | cleanup/cleanup.py:31-48 | Any extension returned is a table key with a non-empty category. |
| Classifier.Split | cleanup/cleanup.py:32 | `split('.')` returns at least one part, and no part holds the separator. |
| Classifier.SplitCount | cleanup/cleanup.py:32 | A split has one part more than the string has separators. |
| Classifier.JoinSplit | cleanup/cleanup.py:32-35 | `'.'.join(name.split('.')) == name`. |
| Classifier.SplitJoin | cleanup/cleanup.py:32-35 | Splitting a join of separator-free parts gives the parts back. |
| Classifier.JoinAt | cleanup/cleanup.py:35-40 | Joining a prefix and a suffix of the parts, with a separator between them, joins the whole. |
| Filesystem.Move | cleanup/cleanup.py:178 | After a rename the file is at the destination with its contents, the source is gone, and every other path is unchanged. |
| Filesystem.MoveBack | cleanup/cleanup.py:119-128 | A rename to a free path followed by the reverse rename restores the files. |
| Filesystem.MovesCommute | cleanup/cleanup.py:116-128 | Two renames over four distinct paths commute. |
| Filesystem.PathJoinInjective | cleanup/cleanup.py:168-170 | Two joins ending in slash-free names are equal only if both their directories and their names are equal. |
| LedgerStore.Load | cleanup/cleanup.py:57-59 | A read gives a ledger exactly when the file holds a saved one, and then that ledger. |
| Relocation.TouchedBy | cleanup/cleanup.py:168-170 | Every path a run touches is a record's source or destination. |
| Relocation.SeparateByName | cleanup/cleanup.py:168-170 | Records with distinct slash-free names touch pairwise different paths, and none is moved onto itself. |
| Relocation.ForwardFrame | cleanup/cleanup.py:165-178 | A path no record touches keeps its file through a cleanup run. |
| Relocation.BackwardFrame | cleanup/cleanup.py:116-132 | A path no record touches keeps its file through a revert run. |
| Relocation.ForwardStops | cleanup/cleanup.py:174-178 | A cleanup run whose rename failed stays failed, and later records change nothing. |
| Relocation.BackwardCommutes | cleanup/cleanup.py:116-132 | A rename over paths the records never touch commutes with a revert run. |
| Relocation.RevertUndoesCleanup | cleanup/cleanup.py:116-132 | For records on separate paths, with every source present and every destination free, all cleanup renames succeed. The revert renames then all succeed and give back exactly the original files. |
| Relocation.DryRunPredictsRevert | cleanup/cleanup.py:121-132 | For records on separate paths, the files a dry-run revert reports present are exactly the ones a live revert moves back. |
| Cleanup.FlattenAppend | cleanup/cleanup.py:164-180 | Building records over two listings one after the other gives the first records followed by the second. |
| Cleanup.PlanAppend | cleanup/cleanup.py:164-180 | The records of a listing are built file by file in listing order. |
| Cleanup.PlanStep | cleanup/cleanup.py:165-177 | Each further file adds its own record, if any, at the end. |
| Cleanup.PlanFailsAt | cleanup/cleanup.py:174-178 | Once a rename has failed, the whole cleanup run ends in that state. |
| Cleanup.CategoryOfLongestHit | cleanup/cleanup.py:166-170 | A file whose longest known suffix is a non-empty extension gets the category the table gives that extension. |
| Cleanup.PlanOfOne | cleanup/cleanup.py:165-177 | The plan of a single file is that file's record, if any. |
| Cleanup.UnclassifiedUntouched | cleanup/cleanup.py:165-170 | A file without a category gets no record, so no cleanup rename reads or writes its path. |
| Cleanup.UnclassifiedStays | cleanup/cleanup.py:165-178 | A live cleanup leaves every unclassified file where it is, with its contents. |
| Cleanup.PlanRecords | cleanup/cleanup.py:164-180 | There are never more records than files. Every record names a listed file with that file's category, and every classified file has its record. |
| Cleanup.PlanNamesDistinct | cleanup/cleanup.py:164-180 | Distinct listed names give records with distinct names. |
| Cleanup.PlanRoundTrip | cleanup/cleanup.py:164-180 | Take distinct present files with free destinations. Every cleanup rename succeeds, and the revert renames restore the files. |
| Cleanup.Workspace.Rename | cleanup/cleanup.py:178 | The rename succeeds iff the source exists, and the new files are the moved map (or unchanged on failure). |
| Cleanup.Workspace.ReadLedger | cleanup/cleanup.py:57-59 | Returns the stored ledger, or `None` where the read raises. |
| Cleanup.Workspace.SaveLedger | cleanup/cleanup.py:51-54 | A later read gives back exactly the saved ledger. |
| Cleanup.Workspace.MoveFiles | cleanup/cleanup.py:164-180 | Dry run: returns the records of every classified file, in order, and changes nothing. Live run: the files are those of the cleanup renames in order, stopping at the first failure. On success the returned records are exactly that plan. |
| Cleanup.Workspace.Cleanup | cleanup/cleanup.py:150-189 | A missing directory or an empty listing changes nothing. A dry run changes nothing. A live run does the renames. If one fails, or the existing ledger file is unreadable, it crashes without saving. Otherwise the directory's entry is replaced by this run's records, every other entry stays, and a missing ledger file starts from the empty map. |
| Cleanup.Workspace.Revert | cleanup/cleanup.py:98-137 | An unreadable ledger, a missing entry or an empty entry means "Nothing to do." and no change. A dry run changes nothing and reports which files are in place. A live run renames each record back, skipping and reporting failures, then removes exactly that directory's entry. |
| Cleanup.CleanupThenRevert | cleanup/cleanup.py:98-189 | Take a live cleanup then a live revert of distinct present files with free destinations. The files end exactly as before. The ledger loses the directory's entry, unless the cleanup moved nothing: that empty entry stays and the revert says "Nothing to do.". |
| Scenarios.ReportIsDocument | cleanup/cleanup.py:43-47 | `report.pdf` goes to `Documents`. |
| Scenarios.PhotoIsImage | cleanup/cleanup.py:43-47 | `photo.JPG` goes to `Images`. |
| Scenarios.ArchiveIsCompressed | cleanup/cleanup.py:38-42 | `archive.tar.gz` goes to `Compressed` (the `TAR.GZ` category), not to the `GZ` one. |
| Scenarios.UnknownHasNoCategory | cleanup/cleanup.py:43-48 | `unknownfile.xyz` has no category. |
| Scenarios.ExamplePlan | cleanup/cleanup.py:164-180 | A cleanup of the example directory records exactly `report.pdf` under `Documents`, `photo.JPG` under `Images` and `archive.tar.gz` under `Compressed`, in that order. |
| Scenarios.UnknownStays | cleanup/cleanup.py:165-178 | A live cleanup of the example directory leaves `unknownfile.xyz` where it is, with its contents. |
| Scenarios.ExampleRoundTrip | cleanup/cleanup.py:116-132 | When the four files exist and the category paths are free, the cleanup renames all succeed and a revert restores the files. |

## Left out

- Printing, the `colored` styling and the `--silent` flag (`print_*` helpers): they only affect output. Dry runs return the records or report that would be printed instead.
- Cleanup.Workspace.SaveLedger: the model assumes a save always succeeds and a later read returns the same ledger, but the source does not guarantee this in two cases. (1) `save_revert_info` writes UTF-8 (cleanup/cleanup.py:52), while `read_revert_info` reads with the locale's default encoding (cleanup/cleanup.py:58). Under a non-UTF-8 locale, a ledger holding non-ASCII names can read back garbled or fail to read. (2) Opening the file with `'w'` empties it before the write. If the write then raises (for example, the strict UTF-8 encoder refusing an undecodable file name), the file is left empty. From then on every read fails: the store is `Unreadable` for every directory. The model covers neither case because it does not model character encodings or write failures.
- `docopt` argument parsing: `dryRun`, the directory and the revert/cleanup choice are method parameters.
- The JSON text of `revert_info.json`: the file is modelled as absent, unreadable, or holding a ledger map. A readable file whose records lack `name` or `type` (a `KeyError` in `revert`) is not modelled.
- `os.walk` and `os.path.abspath`: the top-level listing and the directory are inputs. A single `dir` stands both for `root_dir` (used in the paths) and for its absolute form (used as the ledger key).
- Directories as file-system objects: `os.renames` creating the category directory and pruning emptied ones, and `os.path.exists` seeing a directory, are not modelled. Rename failures other than a missing source (permissions, a directory in the way, Windows' refusal to overwrite) are not modelled either.
- `os.path.join` with an absolute or empty component: names and categories are joined with a single `/`.
- Classifier.UpperChar: `str.upper` is modelled for the ASCII letters only; Unicode case mapping is left out.
- `cleanup/file_types.py` (the real extension table) is not part of this model: the table is a parameter.
- `cleanup/scrape_extensions.py` (network scraping), `cleanup/constants.py` (a static table that `cleanup.py` does not use), `setup.py` and `tests/test.py` (no assertions): no behaviour of the core.
