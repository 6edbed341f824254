/** Choosing the destination and writing the merged file
    (`write_combined_file`). */
module Writer {
  import opened Fs
  import opened Input
  import opened Selector

  /** Whether the name holds either path separator, `\` or `/`. */
  predicate HasSeparator(s: string) {
    '\\' in s || '/' in s
  }

  /** `Path::join` of a directory and a name without separators. */
  function Join(dir: Path, name: string): Path {
    dir + "/" + name
  }

  /** The name used when none is given, built from the formatted local time. */
  function DefaultName(stamp: string): string {
    "merged_file-" + stamp
  }

  /** The destination for one answer: the timestamped default name in the
      working directory for an empty answer, the answer itself when it holds
      a separator, and otherwise the answer as a file name in the working
      directory. */
  function Resolve(input: string, cwd: Path, stamp: string): Path {
    if input == [] then Join(cwd, DefaultName(stamp))
    else if HasSeparator(input) then input
    else Join(cwd, input)
  }

  /** A destination always holds a separator, and it is the answer itself
      exactly when the answer holds one. */
  lemma ResolveKeepsOnlyPaths(input: string, cwd: Path, stamp: string)
    ensures HasSeparator(Resolve(input, cwd, stamp))
    ensures Resolve(input, cwd, stamp) == input <==> HasSeparator(input)
  {
    var dest := Resolve(input, cwd, stamp);
    if !HasSeparator(input) {
      assert dest[|cwd|] == '/';
      assert |dest| > |input|;
    }
  }

  /** An empty answer names the timestamped default file in the working
      directory, and any name without separators is placed in the working
      directory under that name. */
  lemma ResolveUnderWorkingDirectory(input: string, cwd: Path, stamp: string)
    requires !HasSeparator(input)
    ensures var dest := Resolve(input, cwd, stamp);
      && dest[..|cwd| + 1] == cwd + "/"
      && dest[|cwd| + 1..] == (if input == [] then "merged_file-" + stamp else input)
  {
  }

  /** How the destination prompt ends: with a destination that holds
      nothing yet and the lines not yet read, or with no line left. */
  datatype Destination = Accepted(dest: Path, rest: seq<string>) | DestinationOutOfInput

  /** A candidate destination is refused when it is a directory or already exists. */
  predicate Taken(dest: Path, fs: FileSystem) {
    fs.isDir(dest) || fs.pathExists(dest)
  }

  /** The destination that a console line asks for at a given attempt. */
  function Candidate(line: string, attempt: nat, cwd: Path, clock: nat -> string): Path {
    Resolve(Strip(line), cwd, clock(attempt))
  }

  /** The prompt loop: each line is resolved with the time of its own
      attempt (`clock(attempt)`) until one resolves to a free destination. */
  function ChooseDestination(script: seq<string>, attempt: nat, cwd: Path, clock: nat -> string, fs: FileSystem): Destination
    decreases |script|
  {
    if script == [] then DestinationOutOfInput
    else
      var dest := Candidate(script[0], attempt, cwd, clock);
      if Taken(dest, fs) then ChooseDestination(script[1..], attempt + 1, cwd, clock, fs)
      else Accepted(dest, script[1..])
  }

  /** The first loop of `write_combined_file`, reassigning the candidate
      destination until it is neither a directory nor an existing path. */
  method PromptDestination(script: seq<string>, cwd: Path, clock: nat -> string, fs: FileSystem)
    returns (d: Destination)
    ensures d == ChooseDestination(script, 0, cwd, clock, fs)
  {
    var i := 0;
    while i < |script|
      invariant 0 <= i <= |script|
      invariant ChooseDestination(script[i..], i, cwd, clock, fs) == ChooseDestination(script, 0, cwd, clock, fs)
      decreases |script| - i
    {
      assert script[i..][1..] == script[i + 1..];
      var dest := Candidate(script[i], i, cwd, clock);
      i := i + 1;
      if fs.isDir(dest) {
        // a directory is never overwritten
      } else if fs.pathExists(dest) {
        // an existing file is never reopened
      } else {
        return Accepted(dest, script[i..]);
      }
    }
    return DestinationOutOfInput;
  }

  /** A line that resolves to a taken path is refused and the prompt moves
      on to the next line and the next attempt. */
  lemma TakenDestinationReprompts(script: seq<string>, attempt: nat, cwd: Path, clock: nat -> string, fs: FileSystem)
    requires script != [] && Taken(Candidate(script[0], attempt, cwd, clock), fs)
    ensures ChooseDestination(script, attempt, cwd, clock, fs) == ChooseDestination(script[1..], attempt + 1, cwd, clock, fs)
  {
  }

  /** An accepted destination is what line `i` asks for at attempt `i`; it
      is neither a directory nor existing, every earlier line asked for a
      taken path, and the lines after `i` are left unread. */
  lemma {:induction false} AcceptedDestinationIsFree(
    script: seq<string>, attempt: nat, cwd: Path, clock: nat -> string, fs: FileSystem) returns (i: nat)
    requires ChooseDestination(script, attempt, cwd, clock, fs).Accepted?
    ensures i < |script|
    ensures ChooseDestination(script, attempt, cwd, clock, fs).dest == Candidate(script[i], attempt + i, cwd, clock)
    ensures !Taken(ChooseDestination(script, attempt, cwd, clock, fs).dest, fs)
    ensures ChooseDestination(script, attempt, cwd, clock, fs).rest == script[i + 1..]
    ensures forall j :: 0 <= j < i ==> Taken(Candidate(script[j], attempt + j, cwd, clock), fs)
    decreases |script|
  {
    if Taken(Candidate(script[0], attempt, cwd, clock), fs) {
      var tail := script[1..];
      TakenDestinationReprompts(script, attempt, cwd, clock, fs);
      var i' := AcceptedDestinationIsFree(tail, attempt + 1, cwd, clock, fs);
      i := i' + 1;
      assert tail[i'] == script[i];
      assert tail[i' + 1..] == script[i + 1..];
      assert (attempt + 1) + i' == attempt + i;
      forall j | 0 <= j < i
        ensures Taken(Candidate(script[j], attempt + j, cwd, clock), fs)
      {
        if j > 0 {
          assert script[j] == tail[j - 1];
          assert attempt + j == (attempt + 1) + (j - 1);
        }
      }
    } else {
      i := 0;
    }
  }

  /** The bytes of the entries, one after the other, in list order, with
      nothing between them. */
  function Concat(files: seq<FileToMerge>): Bytes
    decreases |files|
  {
    if files == [] then [] else Concat(files[..|files| - 1]) + files[|files| - 1].content
  }

  /** The total number of content bytes of the entries. */
  function Size(files: seq<FileToMerge>): nat
    decreases |files|
  {
    if files == [] then 0 else |files[0].content| + Size(files[1..])
  }

  /** Concatenating two lists of entries concatenates their outputs. */
  lemma {:induction false} ConcatAppend(a: seq<FileToMerge>, b: seq<FileToMerge>)
    ensures Concat(a + b) == Concat(a) + Concat(b)
    decreases |b|
  {
    if b == [] {
      assert a + b == a;
    } else {
      var b' := b[..|b| - 1];
      assert (a + b)[..|a + b| - 1] == a + b';
      ConcatAppend(a, b');
    }
  }

  /** The merged output is exactly as long as all contents together. */
  lemma {:induction false} ConcatSize(files: seq<FileToMerge>)
    ensures |Concat(files)| == Size(files)
    decreases |files|
  {
    if files != [] {
      ConcatSize(files[1..]);
      ConcatAppend([files[0]], files[1..]);
      assert [files[0]] + files[1..] == files;
      assert Concat([files[0]]) == Concat([]) + files[0].content;
    }
  }

  /** Entry k's bytes sit in the output right after those of the entries
      before it, so every file can be read back from its offset. */
  lemma ConcatPlacesEachFile(files: seq<FileToMerge>, k: nat)
    requires k < |files|
    ensures var start := Size(files[..k]);
      start + |files[k].content| <= |Concat(files)|
      && Concat(files)[start..start + |files[k].content|] == files[k].content
  {
    assert files == files[..k] + [files[k]] + files[k + 1..];
    ConcatAppend(files[..k] + [files[k]], files[k + 1..]);
    ConcatAppend(files[..k], [files[k]]);
    assert Concat([files[k]]) == Concat([]) + files[k].content;
    ConcatSize(files[..k]);
  }

  /** `out` holds the contents of `files`, each right after the one before
      it, and nothing else. */
  predicate LaidOut(out: Bytes, files: seq<FileToMerge>) {
    && |out| == Size(files)
    && forall k :: 0 <= k < |files| ==>
         && Size(files[..k]) + |files[k].content| <= |out|
         && out[Size(files[..k])..Size(files[..k]) + |files[k].content|] == files[k].content
  }

  /** The merged output is all contents, one after the other: its length is
      their total, and entry k's bytes start right after those before it. */
  lemma ConcatLaysOutFiles(files: seq<FileToMerge>)
    ensures LaidOut(Concat(files), files)
  {
    ConcatSize(files);
    forall k | 0 <= k < |files|
      ensures Size(files[..k]) + |files[k].content| <= |Concat(files)|
      ensures Concat(files)[Size(files[..k])..Size(files[..k]) + |files[k].content|] == files[k].content
    {
      ConcatPlacesEachFile(files, k);
    }
  }

  /** A single empty file merges to an empty output. */
  lemma MergeOfOneEmptyFile(path: Path)
    ensures Concat([FileToMerge(path, [])]) == []
  {
  }

  /** Single-byte files A, B and C, in that order, merge to the bytes ABC. */
  lemma MergeOfSingleBytes()
    ensures Concat([FileToMerge("A", [0x41]), FileToMerge("B", [0x42]), FileToMerge("C", [0x43])]) == [0x41, 0x42, 0x43]
  {
    var files := [FileToMerge("A", [0x41]), FileToMerge("B", [0x42]), FileToMerge("C", [0x43])];
    assert files[..2][..1] == [files[0]];
    assert Concat([files[0]]) == [0x41];
  }

  /** The destination file, opened for appending; `bytes` is what it holds. */
  class MergeFile {
    const path: Path
    var bytes: Bytes

    /** The newly created, empty destination. */
    constructor Create(path: Path)
      ensures this.path == path && bytes == []
    {
      this.path := path;
      bytes := [];
    }

    /** `Write::write`; the model assumes every write takes the whole buffer. */
    method Write(buf: Bytes)
      modifies this
      ensures bytes == old(bytes) + buf
    {
      bytes := bytes + buf;
    }
  }

  /** The append loop of `write_combined_file`: writes every entry's
      content, in list order. */
  method AppendAll(files: array<FileToMerge>, out: MergeFile)
    modifies out
    ensures out.bytes == old(out.bytes) + Concat(files[..])
  {
    var i := 0;
    while i < files.Length
      invariant 0 <= i <= files.Length
      invariant out.bytes == old(out.bytes) + Concat(files[..i])
      decreases files.Length - i
    {
      assert files[..i + 1][..i] == files[..i];
      out.Write(files[i].content);
      i := i + 1;
    }
    assert files[..i] == files[..];
  }

  /** How `write_combined_file` ends: the destination and the bytes it was
      given plus the lines not yet read, an open error on the destination,
      or no line left at the prompt. */
  datatype Written =
    | Merged(dest: Path, output: Bytes, rest: seq<string>)
    | CreateFailed(dest: Path)
    | WriteOutOfInput

  /** What `write_combined_file` does with the loaded entries. */
  function WriteCombined(files: seq<FileToMerge>, script: seq<string>, cwd: Path, clock: nat -> string, fs: FileSystem): Written {
    match ChooseDestination(script, 0, cwd, clock, fs)
    case DestinationOutOfInput => WriteOutOfInput
    case Accepted(dest, rest) =>
      if fs.canCreate(dest) then Merged(dest, Concat(files), rest) else CreateFailed(dest)
  }

  /** `write_combined_file`: prompt for a free destination, create it, and
      append every entry's content to it. */
  method WriteCombinedFile(files: array<FileToMerge>, script: seq<string>, cwd: Path, clock: nat -> string, fs: FileSystem)
    returns (w: Written)
    ensures w == WriteCombined(files[..], script, cwd, clock, fs)
  {
    var d := PromptDestination(script, cwd, clock, fs);
    if d.DestinationOutOfInput? {
      return WriteOutOfInput;
    }
    if !fs.canCreate(d.dest) {
      return CreateFailed(d.dest);
    }
    var out := new MergeFile.Create(d.dest);
    AppendAll(files, out);
    return Merged(d.dest, out.bytes, d.rest);
  }
}
