/** Loading the bytes of every selected file (`add_content`). */
module Loader {
  import opened Fs
  import opened Selector

  /** The result of loading: every entry with its bytes, or the path of the
      first file that could not be read (recorded by the model; the
      program's error does not name it). */
  datatype Load = AllLoaded(files: seq<FileToMerge>) | ReadFailed(path: Path)

  /** Every entry with its content set to `read(path)`, in list order; the read
      error for the first unreadable file stops the pass. */
  function LoadAll(files: seq<FileToMerge>, fs: FileSystem): (r: Load)
    ensures r.AllLoaded? <==> forall k :: 0 <= k < |files| ==> fs.read(files[k].path).Some?
    ensures r.AllLoaded? ==>
      && |r.files| == |files|
      && forall k :: 0 <= k < |files| ==>
           r.files[k] == FileToMerge(files[k].path, fs.read(files[k].path).value)
    ensures r.ReadFailed? ==>
      exists k :: 0 <= k < |files| && files[k].path == r.path && fs.read(r.path).None?
                  && forall j :: 0 <= j < k ==> fs.read(files[j].path).Some?
    decreases |files|
  {
    if files == [] then AllLoaded([])
    else
      match fs.read(files[0].path)
      case None => ReadFailed(files[0].path)
      case Some(content) =>
        match LoadAll(files[1..], fs)
        case ReadFailed(p) => ReadFailed(p)
        case AllLoaded(rest) => AllLoaded([FileToMerge(files[0].path, content)] + rest)
  }

  /** `add_content`: sets each entry's content in place, front to back; on a
      read error it stops (the model records the unreadable path), with the entries
      before it already loaded and the rest untouched. */
  method AddContent(files: array<FileToMerge>, fs: FileSystem) returns (r: Load)
    modifies files
    ensures r == LoadAll(old(files[..]), fs)
    ensures r.AllLoaded? ==> files[..] == r.files
    ensures r.ReadFailed? ==>
      exists i :: 0 <= i < files.Length && old(files[i]).path == r.path
        && files[i..] == old(files[i..])
        && forall k :: 0 <= k < i ==>
             fs.read(old(files[k]).path).Some?
             && files[k] == FileToMerge(old(files[k]).path, fs.read(old(files[k]).path).value)
  {
    ghost var orig := files[..];
    var i := 0;
    while i < files.Length
      invariant 0 <= i <= files.Length
      invariant forall k :: 0 <= k < i ==>
        fs.read(orig[k].path).Some? && files[k] == FileToMerge(orig[k].path, fs.read(orig[k].path).value)
      invariant forall k :: i <= k < files.Length ==> files[k] == orig[k]
      decreases files.Length - i
    {
      var path := files[i].path;
      match fs.read(path)
      case None =>
        LoadFailsAtFirstUnreadable(orig, i, fs);
        assert files[i..] == orig[i..];
        return ReadFailed(path);
      case Some(content) =>
        files[i] := FileToMerge(path, content);
      i := i + 1;
    }
    assert LoadAll(orig, fs).AllLoaded?;
    assert LoadAll(orig, fs).files == files[..];
    return AllLoaded(files[..]);
  }

  /** Loading fails with the path of the first unreadable entry. */
  lemma {:induction false} LoadFailsAtFirstUnreadable(files: seq<FileToMerge>, i: nat, fs: FileSystem)
    requires i < |files| && fs.read(files[i].path).None?
    requires forall k :: 0 <= k < i ==> fs.read(files[k].path).Some?
    ensures LoadAll(files, fs) == ReadFailed(files[i].path)
    decreases i
  {
    if i > 0 {
      LoadFailsAtFirstUnreadable(files[1..], i - 1, fs);
    }
  }
}
