# file_merger, modelled in Dafny

`file_merger` is a small interactive tool. It asks for file paths or wildcard
patterns one line at a time. Once an empty line ends the list, it reads every
chosen file and asks for a destination name. It then writes the raw bytes of
all chosen files, in the order chosen, into that new file.

This project models the logic under the console and filesystem I/O of
`src/main.rs`:

- `Input` — how a console line is normalised (`get_stripped_stdin`). Trailing
  Unicode whitespace is trimmed, then every trailing `"`, then every leading `"`.
- `Selector` — the selection loop (`get_files_to_merge`) and its entries
  (`FileToMerge`, `FileToMerge::new`). The specification functions `Step` and `Select`
  describe one pass and the whole loop. `GetFilesToMerge` runs the selection
  loop, `HandleLine` is its body and `PushGlobMatches` is the inner loop over
  the glob matches. Each of these methods is proved equal to the matching
  function.
- `Loader` — `add_content`. It is an in-place pass over an array of entries,
  proved against the function `LoadAll`.
- `Writer` — `write_combined_file`. It covers destination resolution
  (`Resolve`), the re-prompt loop (`ChooseDestination` / `PromptDestination`),
  the output file as a class holding its bytes (`MergeFile`), and the append
  loop (`AppendAll`), proved against `Concat`.
- `Merger` — `main`: select, load, write. `Run` is proved equal to `Merge`.
- `Fs` — the parameters that stand in for the outside world.

The outside world is passed in as values:

- **Console input**: a finite `seq<string>` of raw lines. Each line is as
  `read_line` returns it, including its line terminator.
- **Filesystem**: one fixed snapshot, a `FileSystem` value of total functions:
  `isFile`, `isDir`, `pathExists`, `read` (None when reading fails),
  `glob` (a pattern error, or the matches in the matcher's order, each a
  path or an error) and `canCreate` (false when opening the destination fails).
- **Working directory**: a path parameter `cwd`.
- **Clock**: `clock: nat -> string`. It gives the formatted local time at the
  n-th destination prompt, because the source reads the clock on every pass.

Paths are strings, and file contents are `seq<bv8>`.

Two behaviours of the code that are easy to miss:

- A line is stripped (`src/main.rs:30`) by trimming trailing whitespace only,
  then every trailing and every leading double quote. Leading whitespace is
  kept, and `""a""` strips to `a`.
- Nothing removes duplicates: a file selected twice is merged twice.

## Model

| member | source | states |
|---|---|---|
| `Input.TrimEndKeepsPrefix` | src/main.rs:30 | `trim_end` keeps the longest prefix of the line that does not end in whitespace; everything cut is whitespace |
| `Input.TrimEndMatchesKeepsPrefix` | src/main.rs:30 | `trim_end_matches("\"")` keeps the longest prefix not ending in a quote; everything cut is quotes |
| `Input.TrimStartMatchesKeepsSuffix` | src/main.rs:30 | `trim_start_matches("\"")` keeps the longest suffix not starting with a quote; everything cut is quotes |
| `Input.Strip` | src/main.rs:30 | the stripped line neither starts nor ends with a double quote |
| `Input.StripIsInfix` | src/main.rs:30 | the stripped line is a contiguous piece `line[i..j]` of the raw line; before it only quotes; after it quotes and then only whitespace |
| `Input.TrimEndIgnoresWhitespaceSuffix` | src/main.rs:30 | whitespace appended to a line (such as its terminator) does not change what `trim_end` keeps |
| `Input.TrimEndMatchesConcat` | src/main.rs:30 | the trailing quotes cut from `a + b` are those of `b`, and those of `a` too when `b` is all quotes |
| `Input.QuotedPathStripsAlike` | src/main.rs:30 | a path that does not end in whitespace, pasted between double quotes (and followed by any whitespace), strips to the same string as the bare path; whitespace inside the quotes would be kept |
| `Selector.NewEntry` | src/main.rs:16-18 | an entry for the path with empty content |
| `Selector.GlobFiles` | src/main.rs:67-78 | the matches kept are exactly the matches that are regular files, and each comes from the matcher; there is a result exactly when no match reports an error |
| `Selector.GlobFilesAppend` | src/main.rs:69-78 | the matches of two stretches of the matcher's output yield the paths of the first stretch followed by those of the second; either errors exactly when one of them does |
| `Selector.GlobFilesOfOneMatch` | src/main.rs:71-73 | a single readable match contributes its path exactly when it is a regular file |
| `Selector.MatchPositionsExtend` | src/main.rs:69-78 | one more readable match keeps the positions already kept and adds its own exactly when it is a regular file |
| `Selector.GlobFilesInMatcherOrder` | src/main.rs:69-78 | the kept paths are, one each, the matches at strictly increasing positions of the matcher's output, and those positions are exactly the positions of regular-file matches: matcher order and exact count |
| `Selector.PushGlobMatches` | src/main.rs:69-78 | the glob loop appends the entries for exactly the paths `GlobFiles` keeps, in that order, after the earlier entries, or fails on an entry error |
| `Selector.Step` | src/main.rs:54-83 | a pass ends the loop exactly on an empty line with a non-empty list; it fails only on a pattern that is not itself a file; otherwise it keeps the earlier entries as a prefix |
| `Selector.HandleLine` | src/main.rs:54-83 | one pass of the selection loop on a stripped line does exactly what `Step` describes |
| `Selector.GetFilesToMerge` | src/main.rs:37-89 | the selection loop over the scripted lines ends as `Select` from an empty list |
| `Selector.StepKeepsFreshFiles` | src/main.rs:64-78 | a pass keeps every earlier entry and adds only regular files with empty content |
| `Selector.SelectAfterFile` | src/main.rs:64-65 | a line naming an existing file appends its entry and the loop continues with the next line |
| `Selector.SelectionIsNonEmptyFiles` | src/main.rs:41-88 | a finished selection is non-empty and keeps the earlier entries as a prefix; every entry was a regular file with empty content when added; it ended on an empty line and leaves the later lines unread |
| `Selector.EmptyLineWhileNothingSelected` | src/main.rs:54-57 | an empty line while the list is empty does not end the loop and leaves the list empty |
| `Selector.EmptyLineFinishes` | src/main.rs:58-60 | an empty line with a non-empty list ends the loop with that list |
| `Selector.FileInputAppendsOne` | src/main.rs:64-65 | input naming an existing file appends exactly one entry with that path and empty content at the end, earlier entries unchanged, even when it contains `*` |
| `Selector.PatternAppendsFileMatches` | src/main.rs:67-78 | a `*` input that is not a file aborts exactly when an entry errors; otherwise it keeps the earlier entries and appends one fresh entry per regular-file match, in matcher order (the matches at strictly increasing positions that are exactly the file-match positions), and nothing else |
| `Selector.NoFileMatches` | src/main.rs:69-75 | matches that are all readable and none a regular file add no path |
| `Selector.PatternWithoutFileMatchesKeepsList` | src/main.rs:67-78 | a pattern with no match, or only directory matches, leaves the list unchanged without error |
| `Selector.InvalidInputKeepsList` | src/main.rs:80-82 | non-empty input that is no file and has no `*` leaves the list unchanged |
| `Selector.FileInputsSelectedInOrder` | src/main.rs:41-88 | N lines naming existing files, then an empty line, select exactly those N paths in input order, after the earlier entries |
| `Loader.LoadAll` | src/main.rs:92-98 | loading keeps the length and every path and sets entry i's content to `read(path_i)`; it fails exactly when some file is unreadable; the model records the first such path |
| `Loader.AddContent` | src/main.rs:92-98 | the in-place pass leaves the array equal to `LoadAll` of the old array. On a read error, the entries before the failing one are loaded and the rest are untouched |
| `Loader.LoadFailsAtFirstUnreadable` | src/main.rs:93-94 | the `?` on `read` stops at the first unreadable file; the model records which path that was |
| `Writer.ResolveKeepsOnlyPaths` | src/main.rs:112-116 | a resolved destination always holds a separator; it is the input itself exactly when the input contains `\` or `/` |
| `Writer.ResolveUnderWorkingDirectory` | src/main.rs:112-116 | an empty input resolves to `cwd + "/merged_file-" + timestamp`, any other input without separators to `cwd + "/" + input` |
| `Writer.TakenDestinationReprompts` | src/main.rs:119-124 | a candidate that is a directory or exists is refused and the next line is read with the next clock reading |
| `Writer.AcceptedDestinationIsFree` | src/main.rs:105-128 | the accepted destination is what line i resolves to with the time of attempt i; it is neither a directory nor existing; every earlier line resolved to a taken path |
| `Writer.PromptDestination` | src/main.rs:105-128 | the re-prompt loop ends as `ChooseDestination` |
| `Writer.ConcatAppend` | src/main.rs:132-134 | merging two lists one after the other gives the concatenation of their outputs |
| `Writer.ConcatSize` | src/main.rs:132-134 | the output is exactly as long as all contents together |
| `Writer.ConcatPlacesEachFile` | src/main.rs:132-134 | entry k's bytes sit in the output right after those of all entries before it |
| `Writer.ConcatLaysOutFiles` | src/main.rs:132-134 | the output has the total length, and every entry's bytes can be read back at its offset (`LaidOut`) |
| `Writer.MergeOfOneEmptyFile` | src/main.rs:132-134 | merging a single empty file yields zero bytes |
| `Writer.MergeOfSingleBytes` | src/main.rs:132-134 | single-byte files A, B, C merge to the bytes ABC |
| `Writer.MergeFile.Create` | src/main.rs:130 | the created destination is empty |
| `Writer.MergeFile.Write` | src/main.rs:133 | a write appends the whole buffer to what the file holds |
| `Writer.AppendAll` | src/main.rs:132-134 | the append loop adds the in-order concatenation of every entry's content to the file |
| `Writer.WriteCombinedFile` | src/main.rs:101-138 | `write_combined_file` ends as `WriteCombined`. It either writes `Concat` of the entries to the accepted destination, fails to open it, or runs out of input |
| `Merger.Run` | src/main.rs:141-158 | a whole run ends as `Merge`: selection, then loading, then writing |
| `Merger.CompletedRunStages` | src/main.rs:141-151 | a completed run passed through a selection, a full load and an accepted destination, and its output is `Concat` of the loaded entries |
| `Merger.CompletedRunLaysOutFiles` | src/main.rs:141-151 | the output of a completed run holds the bytes read from each selected file, in selection order, each right after the one before it, and nothing else |
| `Merger.LoadedFilesLaidOut` | src/main.rs:132-134 | loading every entry and concatenating them gives each entry's path and the bytes read from it, laid out one after the other |
| `Merger.CompletedRunMergesSelection` | src/main.rs:141-151 | a completed run selected at least one regular file and wrote to a path that was neither a directory nor existing. Its output is exactly the bytes read from each selected file, in selection order, at offsets adding up to its length |

## Left out

- Console output: prompts, warnings, the list of files, the final message, `stdout().flush()` and the closing "Press Enter" read (src/main.rs:154-155). None of these affects the logic.
- End of input: the scripted lines are finite, and when they run out at either prompt the model stops with an out-of-input outcome (`SelectionOutOfInput`, `DestinationOutOfInput`, `InputExhausted`). At end of input the real `read_line` keeps returning empty lines. At the selection prompt the program would then finish a non-empty selection, or loop forever on an empty one. At the destination prompt the empty line resolves to the timestamped default name, so the program normally goes on and completes the merge, where the model ends with `InputExhausted`.
- A failing `read_line` (invalid UTF-8 or an I/O error, `expect` at src/main.rs:29) and a failing `current_dir` (`unwrap` at src/main.rs:102) are panics outside the model. The working directory is a parameter.
- The filesystem is one fixed snapshot. Changes between the checks and the uses (another process creating the destination after the existence check, files changing while being read) are not modelled, and neither is the new file's effect on later checks.
- The `glob` crate is an oracle returning matches in its own order. Pattern syntax errors and per-entry errors become abort outcomes, matching the `expect` and `panic!` at src/main.rs:69 and src/main.rs:76.
- `chrono` formatting is the opaque `clock` parameter; the `DD_MM_YYYY_HH_MM_SS` format is not modelled.
- `Path::join` is string concatenation with `/`. Platform path rules (Windows separators and drive prefixes, absolute names, a `cwd` that already ends in a separator) are not modelled.
- Writer.MergeFile.Write: assumes every `write` consumes its whole buffer (src/main.rs:133 ignores the count written) and never fails. So the `?` on a write error in the append loop is not modelled.
- Writer.WriteCombinedFile: a write error after the destination was created is not modelled (see the line above); only an error opening the destination is.
- `FileToMerge::set_content` (src/main.rs:20-22) is never called; `add_content` assigns the field directly, and so does the model.
- `main`'s `Result` and `?`: every early return or panic is one `Aborted` outcome carrying its cause. Process exit codes are not modelled.
- Error reporting: the abort outcomes `ReadFailed`/`UnreadableFile` and `CannotCreate` name the failing path. The program does not: the `?` at src/main.rs:94 passes up an `io::Error` that holds no path, and the `unwrap` at src/main.rs:130 panics without naming the destination. The recorded path is extra information in the model only.
