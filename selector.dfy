/** The interactive selection of the files to merge (`get_files_to_merge`),
    driven by a scripted sequence of raw console lines. */
module Selector {
  import opened Fs
  import opened Input

  /** One file to merge: its path, and its bytes once they are loaded. */
  datatype FileToMerge = FileToMerge(path: Path, content: Bytes)

  /** `FileToMerge::new`: an entry for `path` whose content is not loaded yet. */
  function NewEntry(path: Path): (e: FileToMerge)
    ensures e.path == path && e.content == []
  {
    FileToMerge(path, [])
  }

  /** Fresh entries for `paths`, in the same order. */
  function Entries(paths: seq<Path>): seq<FileToMerge> {
    seq(|paths|, k requires 0 <= k < |paths| => NewEntry(paths[k]))
  }

  /** Why the program gives up during selection: `glob` rejected the
      pattern, or it reported an error for one of the matches. */
  datatype SelectError = BadGlobPattern | GlobEntryError

  /** The paths among the glob matches that are regular files, in the order
      the matcher yields them; None when the matcher reports an error for
      any match (the program panics on it). */
  function GlobFiles(entries: seq<GlobEntry>, fs: FileSystem): (r: Option<seq<Path>>)
    ensures r.Some? <==> forall k :: 0 <= k < |entries| ==> entries[k].Found?
    ensures r.Some? ==> forall p :: p in r.value ==> fs.isFile(p) && Found(p) in entries
    ensures r.Some? ==> forall k :: 0 <= k < |entries| && fs.isFile(entries[k].path) ==>
                          entries[k].path in r.value
    decreases |entries|
  {
    if entries == [] then Some([])
    else
      var last := entries[|entries| - 1];
      match GlobFiles(entries[..|entries| - 1], fs)
      case None => None
      case Some(ps) =>
        if last.Unreadable? then None
        else if fs.isFile(last.path) then Some(ps + [last.path])
        else Some(ps)
  }

  /** What one non-final line does to the selection. */
  datatype StepResult = Finish | Next(files: seq<FileToMerge>) | StepFailed(error: SelectError)

  /** One pass of the selection loop on the stripped line `input`. An empty
      line finishes the selection unless nothing is selected yet; an
      existing file is appended (even when its name contains `*`); a
      pattern appends its file matches; anything else changes nothing. */
  function Step(files: seq<FileToMerge>, input: string, fs: FileSystem): (r: StepResult)
    ensures r.Finish? <==> input == [] && files != []
    ensures r.StepFailed? ==> input != [] && !fs.isFile(input) && '*' in input
    ensures r.Next? ==> files <= r.files
  {
    if input == [] then
      if files == [] then Next(files) else Finish
    else if fs.isFile(input) then
      Next(files + [NewEntry(input)])
    else if '*' in input then
      match fs.glob(input)
      case BadPattern => StepFailed(BadGlobPattern)
      case Matches(entries) =>
        match GlobFiles(entries, fs)
        case None => StepFailed(GlobEntryError)
        case Some(ps) => Next(files + Entries(ps))
    else
      Next(files)
  }

  /** How the selection ends: with the chosen files and the lines not yet
      read, with an abort, or with the script running out of lines. */
  datatype Selection =
    | Selected(files: seq<FileToMerge>, rest: seq<string>)
    | SelectionFailed(error: SelectError)
    | SelectionOutOfInput

  /** The selection loop run on `script`, starting from the list `files`. */
  function Select(files: seq<FileToMerge>, script: seq<string>, fs: FileSystem): Selection
    decreases |script|
  {
    if script == [] then SelectionOutOfInput
    else
      match Step(files, Strip(script[0]), fs)
      case Finish => Selected(files, script[1..])
      case StepFailed(e) => SelectionFailed(e)
      case Next(files') => Select(files', script[1..], fs)
  }

  /** The `for entry in glob(..)` loop: pushes every match that is a regular
      file onto `files`, or gives up on the first match the matcher reports
      an error for. */
  method PushGlobMatches(files: seq<FileToMerge>, entries: seq<GlobEntry>, fs: FileSystem)
    returns (r: Option<seq<FileToMerge>>)
    ensures GlobFiles(entries, fs).None? ==> r.None?
    ensures GlobFiles(entries, fs).Some? ==> r == Some(files + Entries(GlobFiles(entries, fs).value))
  {
    var acc := files;
    var j := 0;
    while j < |entries|
      invariant 0 <= j <= |entries|
      invariant GlobFiles(entries[..j], fs).Some?
      invariant acc == files + Entries(GlobFiles(entries[..j], fs).value)
      decreases |entries| - j
    {
      assert entries[..j + 1][..j] == entries[..j];
      match entries[j]
      case Unreadable =>
        assert !entries[j].Found?;
        return None;
      case Found(p) =>
        if fs.isFile(p) {
          acc := acc + [NewEntry(p)];
        }
      j := j + 1;
    }
    assert entries[..j] == entries;
    return Some(acc);
  }

  /** The body of the selection loop for one stripped line. */
  method HandleLine(files: seq<FileToMerge>, input: string, fs: FileSystem) returns (r: StepResult)
    ensures r == Step(files, input, fs)
  {
    if input == [] {
      if files == [] {
        r := Next(files);
      } else {
        r := Finish;
      }
    } else if fs.isFile(input) {
      r := Next(files + [NewEntry(input)]);
    } else if '*' in input {
      match fs.glob(input)
      case BadPattern =>
        r := StepFailed(BadGlobPattern);
      case Matches(entries) =>
        var pushed := PushGlobMatches(files, entries, fs);
        match pushed
        case None =>
          r := StepFailed(GlobEntryError);
        case Some(files') =>
          r := Next(files');
    } else {
      r := Next(files);
    }
  }

  /** `get_files_to_merge`: the loop over console lines, growing the list
      as the source does. */
  method GetFilesToMerge(script: seq<string>, fs: FileSystem) returns (sel: Selection)
    ensures sel == Select([], script, fs)
  {
    var files: seq<FileToMerge> := [];
    var i := 0;
    while i < |script|
      invariant 0 <= i <= |script|
      invariant Select(files, script[i..], fs) == Select([], script, fs)
      decreases |script| - i
    {
      assert script[i..][1..] == script[i + 1..];
      var step := HandleLine(files, Strip(script[i]), fs);
      i := i + 1;
      match step
      case Finish =>
        return Selected(files, script[i..]);
      case StepFailed(e) =>
        return SelectionFailed(e);
      case Next(files') =>
        files := files';
    }
    return SelectionOutOfInput;
  }

  /** Entries that are regular files and not yet loaded. */
  predicate FreshFiles(files: seq<FileToMerge>, fs: FileSystem) {
    forall k :: 0 <= k < |files| ==> fs.isFile(files[k].path) && files[k].content == []
  }

  /** One pass of the loop keeps the list's earlier entries and adds only
      regular files that are not yet loaded. */
  lemma StepKeepsFreshFiles(files: seq<FileToMerge>, input: string, fs: FileSystem)
    requires FreshFiles(files, fs)
    ensures Step(files, input, fs).Next? ==>
      files <= Step(files, input, fs).files && FreshFiles(Step(files, input, fs).files, fs)
  {
    if input != [] && !fs.isFile(input) && '*' in input && fs.glob(input).Matches? {
      var g := GlobFiles(fs.glob(input).entries, fs);
      if g.Some? {
        assert forall k :: 0 <= k < |g.value| ==> g.value[k] in g.value;
      }
    }
  }

  /** Reading a line that names an existing file moves on to the next line
      with that file appended. */
  lemma SelectAfterFile(files: seq<FileToMerge>, line: string, rest: seq<string>, fs: FileSystem)
    requires Strip(line) != [] && fs.isFile(Strip(line))
    ensures Select(files, [line] + rest, fs) == Select(files + [NewEntry(Strip(line))], rest, fs)
  {
    assert ([line] + rest)[1..] == rest;
  }

  /** A selection that completes keeps what was already chosen as a prefix,
      is never empty, holds only entries that were regular files when added,
      and ended on an empty line; the lines after that one are left unread. */
  lemma {:induction false} SelectionIsNonEmptyFiles(files: seq<FileToMerge>, script: seq<string>, fs: FileSystem)
    requires FreshFiles(files, fs)
    ensures Select(files, script, fs).Selected? ==>
      var out := Select(files, script, fs).files;
      var rest := Select(files, script, fs).rest;
      && |out| > 0 && files <= out && FreshFiles(out, fs)
      && |rest| < |script| && rest == script[|script| - |rest|..]
      && Strip(script[|script| - |rest| - 1]) == []
    decreases |script|
  {
    if script != [] {
      var input := Strip(script[0]);
      StepKeepsFreshFiles(files, input, fs);
      match Step(files, input, fs)
      case Finish =>
      case StepFailed(_) =>
      case Next(files') =>
        SelectionIsNonEmptyFiles(files', script[1..], fs);
        var sel := Select(files', script[1..], fs);
        if sel.Selected? {
          assert script[1..][|script| - 1 - |sel.rest|..] == script[|script| - |sel.rest|..];
        }
    }
  }

  /** An empty line while nothing is selected only re-prompts: the list stays
      empty and the loop goes on with the next line. */
  lemma EmptyLineWhileNothingSelected(line: string, rest: seq<string>, fs: FileSystem)
    requires Strip(line) == []
    ensures Select([], [line] + rest, fs) == Select([], rest, fs)
  {
    assert ([line] + rest)[1..] == rest;
  }

  /** An empty line once something is selected ends the loop with that list. */
  lemma EmptyLineFinishes(files: seq<FileToMerge>, line: string, rest: seq<string>, fs: FileSystem)
    requires files != [] && Strip(line) == []
    ensures Select(files, [line] + rest, fs) == Selected(files, rest)
  {
    assert ([line] + rest)[1..] == rest;
  }

  /** A line naming an existing file appends exactly one entry, with that
      path and no content, behind the unchanged earlier entries; this holds
      even when the name contains `*`, since the file test comes first. */
  lemma FileInputAppendsOne(files: seq<FileToMerge>, input: string, fs: FileSystem)
    requires input != [] && fs.isFile(input)
    ensures var r := Step(files, input, fs);
      && r.Next? && |r.files| == |files| + 1 && r.files[..|files|] == files
      && r.files[|files|] == FileToMerge(input, [])
  {
    assert (files + [NewEntry(input)])[..|files|] == files;
  }

  /** Positions that strictly increase. */
  predicate Increasing(idx: seq<nat>) {
    forall a, b :: 0 <= a < b < |idx| ==> idx[a] < idx[b]
  }

  /** The glob expansion of matches yielded one after the other is the
      expansion of the first part followed by that of the second. */
  lemma {:induction false} GlobFilesAppend(a: seq<GlobEntry>, b: seq<GlobEntry>, fs: FileSystem)
    ensures GlobFiles(a + b, fs).Some? <==> GlobFiles(a, fs).Some? && GlobFiles(b, fs).Some?
    ensures GlobFiles(a + b, fs).Some? ==>
      GlobFiles(a + b, fs).value == GlobFiles(a, fs).value + GlobFiles(b, fs).value
    decreases |b|
  {
    if b == [] {
      assert a + b == a;
    } else {
      var b' := b[..|b| - 1];
      assert (a + b)[..|a + b| - 1] == a + b';
      assert (a + b)[|a + b| - 1] == b[|b| - 1];
      GlobFilesAppend(a, b', fs);
    }
  }

  /** A single match contributes its path exactly when it is a regular file. */
  lemma GlobFilesOfOneMatch(p: Path, fs: FileSystem)
    ensures GlobFiles([Found(p)], fs) == Some(if fs.isFile(p) then [p] else [])
  {
    assert [Found(p)][..0] == [];
    assert GlobFiles([], fs) == Some([]);
    assert [] + [p] == [p];
  }

  /** Every match is readable, path n is the match at position idx[n] of
      `entries`, the positions increase, and they are exactly the positions
      of file matches. */
  predicate MatchPositions(idx: seq<nat>, ps: seq<Path>, entries: seq<GlobEntry>, fs: FileSystem) {
    && (forall k :: 0 <= k < |entries| ==> entries[k].Found?)
    && |idx| == |ps|
    && Increasing(idx)
    && (forall n :: 0 <= n < |idx| ==> idx[n] < |entries| && ps[n] == entries[idx[n]].path)
    && (forall k :: 0 <= k < |entries| ==> (k in idx <==> fs.isFile(entries[k].path)))
  }

  /** One more match keeps the positions of the earlier ones and adds its
      own exactly when it is a regular file. */
  lemma MatchPositionsExtend(idx: seq<nat>, ps: seq<Path>, entries: seq<GlobEntry>, p: Path, fs: FileSystem)
    requires MatchPositions(idx, ps, entries, fs)
    ensures fs.isFile(p) ==> MatchPositions(idx + [|entries|], ps + [p], entries + [Found(p)], fs)
    ensures !fs.isFile(p) ==> MatchPositions(idx, ps, entries + [Found(p)], fs)
  {
    var entries' := entries + [Found(p)];
    assert forall k :: 0 <= k < |entries| ==> entries'[k] == entries[k];
    assert |entries| !in idx;
    if fs.isFile(p) {
      var idx' := idx + [|entries|];
      forall k | 0 <= k < |entries'| ensures k in idx' <==> fs.isFile(entries'[k].path) {
        if k < |entries| {
          assert k in idx' <==> k in idx;
        } else {
          assert idx'[|idx|] == k;
        }
      }
    }
  }

  /** The kept paths are the file matches, one each, in the order the
      matcher yields them: path n is the match at position idx[n], the
      positions increase, and they are exactly the positions of file
      matches. */
  lemma {:induction false} GlobFilesInMatcherOrder(entries: seq<GlobEntry>, fs: FileSystem) returns (idx: seq<nat>)
    requires GlobFiles(entries, fs).Some?
    ensures MatchPositions(idx, GlobFiles(entries, fs).value, entries, fs)
    decreases |entries|
  {
    if entries == [] {
      idx := [];
    } else {
      var last := |entries| - 1;
      var pre := entries[..last];
      var idx' := GlobFilesInMatcherOrder(pre, fs);
      var p := entries[last].path;
      assert entries == pre + [Found(p)];
      MatchPositionsExtend(idx', GlobFiles(pre, fs).value, pre, p, fs);
      idx := if fs.isFile(p) then idx' + [last] else idx';
    }
  }

  /** A pattern that is not itself a file aborts exactly when the matcher
      reports an error for some match; otherwise it keeps the earlier
      entries and appends one fresh entry per file match, in the order the
      matcher yields them (the matches at the increasing positions idx,
      which are exactly the positions of file matches). */
  lemma PatternAppendsFileMatches(files: seq<FileToMerge>, input: string, fs: FileSystem) returns (idx: seq<nat>)
    requires input != [] && !fs.isFile(input) && '*' in input
    requires fs.glob(input).Matches?
    ensures var entries := fs.glob(input).entries;
      var r := Step(files, input, fs);
      && (r.StepFailed? <==> exists k :: 0 <= k < |entries| && entries[k].Unreadable?)
      && (r.Next? ==>
            && |r.files| == |files| + |idx| && r.files[..|files|] == files
            && Increasing(idx)
            && (forall n :: 0 <= n < |idx| ==>
                  idx[n] < |entries| && r.files[|files| + n] == NewEntry(entries[idx[n]].path))
            && (forall k :: 0 <= k < |entries| ==> (k in idx <==> fs.isFile(entries[k].path))))
  {
    var entries := fs.glob(input).entries;
    var g := GlobFiles(entries, fs);
    if g.Some? {
      idx := GlobFilesInMatcherOrder(entries, fs);
      var r := files + Entries(g.value);
      assert r[..|files|] == files;
      assert forall n :: 0 <= n < |idx| ==> r[|files| + n] == Entries(g.value)[n];
    } else {
      idx := [];
    }
  }

  /** Matches that are all readable and none of them a regular file yield
      no paths. */
  lemma {:induction false} NoFileMatches(entries: seq<GlobEntry>, fs: FileSystem)
    requires forall k :: 0 <= k < |entries| ==> entries[k].Found? && !fs.isFile(entries[k].path)
    ensures GlobFiles(entries, fs) == Some([])
    decreases |entries|
  {
    if entries != [] {
      NoFileMatches(entries[..|entries| - 1], fs);
    }
  }

  /** A pattern none of whose matches is a regular file (no match at all,
      or only directories) leaves the list unchanged and is no error. */
  lemma PatternWithoutFileMatchesKeepsList(files: seq<FileToMerge>, input: string, fs: FileSystem)
    requires input != [] && !fs.isFile(input) && '*' in input
    requires fs.glob(input).Matches?
    requires forall k :: 0 <= k < |fs.glob(input).entries| ==>
               fs.glob(input).entries[k].Found? && !fs.isFile(fs.glob(input).entries[k].path)
    ensures Step(files, input, fs) == Next(files)
  {
    NoFileMatches(fs.glob(input).entries, fs);
    assert files + Entries([]) == files;
  }

  /** A non-empty line that names no file and holds no `*` is rejected and
      changes nothing. */
  lemma InvalidInputKeepsList(files: seq<FileToMerge>, input: string, fs: FileSystem)
    requires input != [] && !fs.isFile(input) && '*' !in input
    ensures Step(files, input, fs) == Next(files)
  {
  }

  /** Lines that each name an existing file, followed by an empty line,
      select exactly those files, in input order, after the entries already
      chosen. */
  lemma {:induction false} FileInputsSelectedInOrder(
    files: seq<FileToMerge>, lines: seq<string>, end: string, rest: seq<string>, fs: FileSystem)
    requires forall k :: 0 <= k < |lines| ==> Strip(lines[k]) != [] && fs.isFile(Strip(lines[k]))
    requires Strip(end) == []
    requires files != [] || lines != []
    ensures var sel := Select(files, lines + [end] + rest, fs);
      && sel.Selected? && sel.rest == rest
      && |sel.files| == |files| + |lines| && sel.files[..|files|] == files
      && forall k :: 0 <= k < |lines| ==> sel.files[|files| + k] == NewEntry(Strip(lines[k]))
    decreases |lines|
  {
    var script := lines + [end] + rest;
    if lines == [] {
      assert script == [end] + rest;
      EmptyLineFinishes(files, end, rest, fs);
      assert files[..|files|] == files;
    } else {
      var files' := files + [NewEntry(Strip(lines[0]))];
      var tail := lines[1..] + [end] + rest;
      assert script == [lines[0]] + tail;
      SelectAfterFile(files, lines[0], tail, fs);
      FileInputsSelectedInOrder(files', lines[1..], end, rest, fs);
      var out := Select(files', tail, fs).files;
      assert out[..|files|] == out[..|files'|][..|files|];
      forall k | 0 <= k < |lines|
        ensures out[|files| + k] == NewEntry(Strip(lines[k]))
      {
        if k > 0 {
          assert out[|files'| + (k - 1)] == NewEntry(Strip(lines[1..][k - 1]));
        }
      }
    }
  }
}
