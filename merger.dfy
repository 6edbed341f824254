/** The whole run of the merger (`main`): select, load, then write. */
module Merger {
  import opened Fs
  import opened Selector
  import opened Loader
  import opened Writer

  /** The unrecoverable errors that end the program early. */
  datatype Failure =
    | SelectAborted(error: SelectError)
    | UnreadableFile(path: Path)
    | CannotCreate(path: Path)

  /** How a run ends: the merged file and its bytes, an abort, or the
      scripted input running out at a prompt. */
  datatype Outcome = Completed(dest: Path, output: Bytes) | Aborted(failure: Failure) | InputExhausted

  /** The three stages, each on what the previous one produced; the lines
      the selection leaves unread feed the destination prompt. */
  function Merge(script: seq<string>, fs: FileSystem, cwd: Path, clock: nat -> string): Outcome {
    match Select([], script, fs)
    case SelectionFailed(e) => Aborted(SelectAborted(e))
    case SelectionOutOfInput => InputExhausted
    case Selected(files, rest) =>
      match LoadAll(files, fs)
      case ReadFailed(p) => Aborted(UnreadableFile(p))
      case AllLoaded(loaded) =>
        match WriteCombined(loaded, rest, cwd, clock, fs)
        case WriteOutOfInput => InputExhausted
        case CreateFailed(d) => Aborted(CannotCreate(d))
        case Merged(d, out, _) => Completed(d, out)
  }

  /** `main`: runs the selector, loads the selected entries in place, and
      writes them to the chosen destination. */
  method Run(script: seq<string>, fs: FileSystem, cwd: Path, clock: nat -> string) returns (o: Outcome)
    ensures o == Merge(script, fs, cwd, clock)
  {
    var sel := GetFilesToMerge(script, fs);
    if sel.SelectionFailed? {
      return Aborted(SelectAborted(sel.error));
    }
    if sel.SelectionOutOfInput? {
      return InputExhausted;
    }
    var selected := sel.files;
    var files := new FileToMerge[|selected|](k requires 0 <= k < |selected| => selected[k]);
    assert files[..] == selected;
    var loaded := AddContent(files, fs);
    if loaded.ReadFailed? {
      return Aborted(UnreadableFile(loaded.path));
    }
    var w := WriteCombinedFile(files, sel.rest, cwd, clock, fs);
    if w.WriteOutOfInput? {
      return InputExhausted;
    }
    if w.CreateFailed? {
      return Aborted(CannotCreate(w.dest));
    }
    return Completed(w.dest, w.output);
  }

  /** Entry by entry, `loaded` has the path of `files` and holds the bytes
      read from it. */
  predicate ReadFrom(loaded: seq<FileToMerge>, files: seq<FileToMerge>, fs: FileSystem) {
    && |loaded| == |files|
    && forall k :: 0 <= k < |loaded| ==>
         loaded[k].path == files[k].path && fs.read(files[k].path) == Some(loaded[k].content)
  }

  /** A completed run went through all three stages: a selection, a load
      of every selected file, and a free destination it could create. */
  lemma CompletedRunStages(script: seq<string>, fs: FileSystem, cwd: Path, clock: nat -> string)
    requires Merge(script, fs, cwd, clock).Completed?
    ensures Select([], script, fs).Selected?
    ensures LoadAll(Select([], script, fs).files, fs).AllLoaded?
    ensures ChooseDestination(Select([], script, fs).rest, 0, cwd, clock, fs).Accepted?
    ensures Merge(script, fs, cwd, clock).dest == ChooseDestination(Select([], script, fs).rest, 0, cwd, clock, fs).dest
    ensures Merge(script, fs, cwd, clock).output == Concat(LoadAll(Select([], script, fs).files, fs).files)
  {
  }

  /** A completed run selected at least one regular file, wrote to a path
      that was neither a directory nor existing, and the merged file holds
      exactly the bytes read from the selected files, each one right after
      the one before it, in selection order. */
  lemma CompletedRunMergesSelection(script: seq<string>, fs: FileSystem, cwd: Path, clock: nat -> string)
    requires Merge(script, fs, cwd, clock).Completed?
    ensures Select([], script, fs).Selected?
    ensures |Select([], script, fs).files| > 0 && FreshFiles(Select([], script, fs).files, fs)
    ensures !Taken(Merge(script, fs, cwd, clock).dest, fs)
    ensures LoadAll(Select([], script, fs).files, fs).AllLoaded?
    ensures var files := Select([], script, fs).files;
      var loaded := LoadAll(files, fs).files;
      var out := Merge(script, fs, cwd, clock).output;
      ReadFrom(loaded, files, fs) && LaidOut(out, loaded)
  {
    var sel := Select([], script, fs);
    assert sel.Selected? && |sel.files| > 0 && FreshFiles(sel.files, fs) by {
      CompletedRunStages(script, fs, cwd, clock);
      SelectionIsNonEmptyFiles([], script, fs);
    }
    assert !Taken(Merge(script, fs, cwd, clock).dest, fs) by {
      CompletedRunStages(script, fs, cwd, clock);
      var _ := AcceptedDestinationIsFree(sel.rest, 0, cwd, clock, fs);
    }
    CompletedRunLaysOutFiles(script, fs, cwd, clock);
  }

  /** The output of a completed run holds the bytes read from each
      selected file right after those of the one before it. */
  lemma CompletedRunLaysOutFiles(script: seq<string>, fs: FileSystem, cwd: Path, clock: nat -> string)
    requires Merge(script, fs, cwd, clock).Completed?
    ensures Select([], script, fs).Selected?
    ensures LoadAll(Select([], script, fs).files, fs).AllLoaded?
    ensures var files := Select([], script, fs).files;
      var loaded := LoadAll(files, fs).files;
      var out := Merge(script, fs, cwd, clock).output;
      ReadFrom(loaded, files, fs) && LaidOut(out, loaded)
  {
    var sel := Select([], script, fs);
    assert sel.Selected? && LoadAll(sel.files, fs).AllLoaded?
        && Merge(script, fs, cwd, clock).output == Concat(LoadAll(sel.files, fs).files) by {
      CompletedRunStages(script, fs, cwd, clock);
    }
    LoadedFilesLaidOut(sel.files, fs);
  }

  /** Loading every selected file and concatenating the result puts the
      bytes read from each file right after those of the one before it. */
  lemma LoadedFilesLaidOut(files: seq<FileToMerge>, fs: FileSystem)
    requires LoadAll(files, fs).AllLoaded?
    ensures var loaded := LoadAll(files, fs).files;
      var out := Concat(loaded);
      ReadFrom(loaded, files, fs) && LaidOut(out, loaded)
  {
    var loaded := LoadAll(files, fs).files;
    assert ReadFrom(loaded, files, fs);
    ConcatLaysOutFiles(loaded);
  }
}
