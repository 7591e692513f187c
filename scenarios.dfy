/**
 * Clients of the engine and of its streams: what a caller can conclude from
 * the contracts alone, for the behaviours the filesystem is meant to have,
 * and the inputs that show where the code departs from what was intended.
 */
module Scenarios {
  import opened Paths
  import opened Streams
  import opened FileSystem

  /** A fresh array holding `data`. */
  method ToArray(data: seq<byte>) returns (a: array<byte>)
    ensures fresh(a) && a[..] == data
  {
    a := new byte[|data|](i requires 0 <= i < |data| => data[i]);
  }

  /** The directory map CreateFullPath("a/b/c") leaves in a fresh engine, step by step. */
  lemma FreshFullPath()
    ensures CreateAllIn(map[Root := {}], ["a", "b", "c"]) == map[
      Root := {FilePath(["a"], true)},
      FilePath(["a"], true) := {FilePath(["a", "b"], true)},
      FilePath(["a", "b"], true) := {FilePath(["a", "b", "c"], true)},
      FilePath(["a", "b", "c"], true) := {}]
  {
    var folders := ["a", "b", "c"];
    var a, ab, abc := FilePath(["a"], true), FilePath(["a", "b"], true), FilePath(["a", "b", "c"], true);
    var d0: Directories := map[Root := {}];
    assert folders[..0] == [] && folders[..1] == ["a"] && folders[..2] == ["a", "b"];
    assert PrefixPath(folders, 1) == a && a.ParentPath() == Root;
    assert PrefixPath(folders, 2) == ab && ab.ParentPath() == a;
    assert PrefixPath(folders, 3) == abc && abc.ParentPath() == ab;
    var d1 := map[Root := {a}, a := {}];
    assert d0[Root] + {a} == {a};
    assert WithChild(d0, a) == d0[Root := d0[Root] + {a}] == map[Root := {a}];
    assert CreateDirectoryIn(d0, a) == d1;
    var d2 := map[Root := {a}, a := {ab}, ab := {}];
    assert d1[a] + {ab} == {ab};
    assert WithChild(d1, ab) == d1[a := d1[a] + {ab}] == map[Root := {a}, a := {ab}];
    assert CreateDirectoryIn(d1, ab) == d2;
    var d3 := map[Root := {a}, a := {ab}, ab := {abc}, abc := {}];
    assert d2[ab] + {abc} == {abc};
    assert WithChild(d2, abc) == d2[ab := d2[ab] + {abc}] == map[Root := {a}, a := {ab}, ab := {abc}];
    assert CreateDirectoryIn(d2, abc) == d3;
    assert CreateAllIn(d0, folders[..0]) == d0;
    CreateAllStep(d0, folders, 0);
    assert CreateAllIn(d0, folders[..1]) == d1;
    CreateAllStep(d0, folders, 1);
    assert CreateAllIn(d0, folders[..2]) == d2;
    CreateAllStep(d0, folders, 2);
    assert folders[..3] == folders;
  }

  /**
   * From a fresh engine, CreateFullPath("a/b/c") registers /a/, /a/b/ and
   * /a/b/c/, returns the last, and the root lists exactly /a/.
   */
  method FullPathScenario() returns (last: FilePath, rootEntries: Result<set<FilePath>>, all: bool)
    ensures last == FilePath(["a", "b", "c"], true)
    ensures rootEntries == Ok({FilePath(["a"], true)})
    ensures all
  {
    var fs := new InMemoryFileSystem();
    var folders := ["a", "b", "c"];
    assert Join(folders, DirectorySeparator) == "a/b/c";
    SplitJoin(folders, DirectorySeparator);
    FreshFullPath();
    last := fs.CreateFullPath("a/b/c");
    all := fs.Exists(FilePath(["a"], true)) && fs.Exists(FilePath(["a", "b"], true)) && fs.Exists(last);
    rootEntries := fs.GetEntities(Root);
  }

  /**
   * Writing five bytes into an empty file, seeking to 2 and asking for ten
   * bytes reads the three bytes at positions 2 to 4.
   */
  method StreamScenario() returns (n: int, got: seq<byte>)
    ensures n == 3 && got == [12, 13, 14]
  {
    var file := new MemoryFile();
    var stream := new MemoryFileStream(file);
    var data := ToArray([10, 11, 12, 13, 14]);
    stream.Write(data, 0, 5);
    WrittenIntoEmpty([10, 11, 12, 13, 14]);
    var p := stream.Seek(2, Begin);
    var buffer := new byte[10](_ => 0);
    n := stream.Read(buffer, 0, 10);
    got := buffer[..n];
  }

  /**
   * Two streams over one file share its content: the bytes written through
   * the stream CreateFile returns are read back through a stream OpenFile
   * returns, and the second stream starts at position 0 whatever the first
   * one's position.
   */
  method SharedContentScenario(data: seq<byte>) returns (got: seq<byte>, writerAt: int, readerAt: int)
    ensures got == data
    ensures writerAt == |data| && readerAt == |data|
  {
    var fs := new InMemoryFileSystem();
    var path := FilePath(["f"], false);
    var created := fs.CreateFile(path);
    var writer := created.value;
    var bytes := ToArray(data);
    writer.Write(bytes, 0, |data|);
    WrittenIntoEmpty(data);
    var found := fs.OpenFile(path);
    var reader := found.value;
    assert reader.position == 0 && reader.file == writer.file;
    var buffer := new byte[|data|](_ => 0);
    var n := reader.Read(buffer, 0, |data|);
    got := buffer[..];
    writerAt, readerAt := writer.position, reader.position;
  }

  /**
   * Deleting a file unregisters it and removes it from its parent's listing;
   * deleting the root fails.
   */
  method DeleteScenario() returns (present: bool, entries: Result<set<FilePath>>, rootDelete: Outcome)
    ensures !present && entries == Ok({})
    ensures rootDelete == Fail(RootNotDeletable)
  {
    var fs := new InMemoryFileSystem();
    var path := FilePath(["f"], false);
    var created := fs.CreateFile(path);
    var deleted := fs.Delete(path);
    present := fs.Exists(path);
    entries := fs.GetEntities(Root);
    rootDelete := fs.Delete(Root);
  }

  /**
   * Deleting a directory is not recursive: after /a/b/ is created and /a/ is
   * deleted, /a/b/ is still registered though its parent is gone. Deleting
   * /a/b/ then fails at the parent lookup, after its entry was removed.
   */
  method OrphanScenario() returns (orphanPresent: bool, second: Outcome, orphanAfter: bool)
    ensures orphanPresent && second == Fail(ParentMissing) && !orphanAfter
  {
    var fs := new InMemoryFileSystem();
    var a := Root.AppendDirectory("a");
    var ab := a.AppendDirectory("b");
    var r := fs.CreateDirectory(a);
    r := fs.CreateDirectory(ab);
    r := fs.Delete(a);
    orphanPresent := fs.Exists(ab);
    second := fs.Delete(ab);
    orphanAfter := fs.Exists(ab);
  }

  /**
   * CreateFile on a registered file replaces its MemoryFile: a stream over
   * the old one still works, but what it writes is no longer in the tree.
   */
  method DetachedStreamScenario(data: seq<byte>) returns (visible: Result<seq<byte>>, detached: seq<byte>)
    ensures visible == Ok([]) && detached == data
  {
    var fs := new InMemoryFileSystem();
    var path := FilePath(["f"], false);
    var first := fs.CreateFile(path);
    var second := fs.CreateFile(path);
    var stale := first.value;
    var bytes := ToArray(data);
    stale.Write(bytes, 0, |data|);
    WrittenIntoEmpty(data);
    visible := fs.ReadAllTextCorrected(path);
    detached := stale.file.content;
  }

  /**
   * CreateTextFile on the one-character text "é", whose UTF-8 encoding is
   * the two bytes C3 A9, stores only the first byte; the corrected version
   * stores both.
   */
  method TextFileTruncationWitness() returns (asWritten: seq<byte>, corrected: seq<byte>)
    ensures asWritten == [0xC3] && corrected == [0xC3, 0xA9]
  {
    var fs := new InMemoryFileSystem();
    var path := FilePath(["note"], false);
    var encoded: seq<byte> := [0xC3, 0xA9];
    var r := fs.CreateTextFile(path, encoded, 1);
    asWritten := fs.files[path].content;
    r := fs.CreateTextFileCorrected(path, encoded);
    corrected := fs.files[path].content;
  }

  /**
   * ReadAllText of a one-byte file returns the byte followed by 299999 zero
   * bytes; the corrected version returns exactly the content.
   */
  method ReadAllTextPaddingWitness() returns (asWritten: seq<byte>, corrected: seq<byte>)
    ensures |asWritten| == ReadBufferSize && asWritten[0] == 0x41 && asWritten[1] == 0
    ensures corrected == [0x41]
  {
    var fs := new InMemoryFileSystem();
    var path := FilePath(["a.txt"], false);
    var r := fs.CreateTextFileCorrected(path, [0x41]);
    var text := fs.ReadAllText(path);
    asWritten := text.value;
    text := fs.ReadAllTextCorrected(path);
    corrected := text.value;
  }

  /**
   * ReadAllText of a file one byte longer than its buffer loses the last
   * byte; the corrected version returns all of it.
   */
  method ReadAllTextCutWitness(content: seq<byte>) returns (asWritten: seq<byte>, corrected: seq<byte>)
    requires |content| == ReadBufferSize + 1
    ensures asWritten == content[..ReadBufferSize] && asWritten != content
    ensures corrected == content
  {
    var fs := new InMemoryFileSystem();
    var path := FilePath(["big"], false);
    var r := fs.CreateTextFileCorrected(path, content);
    var text := fs.ReadAllText(path);
    asWritten := text.value;
    assert asWritten[..ReadBufferSize] == content[..ReadBufferSize];
    text := fs.ReadAllTextCorrected(path);
    corrected := text.value;
  }

  /**
   * On a five-byte stream, Seek(-2, End) as written lands at 7, beyond the
   * end; the corrected Seek lands at 3, two bytes before the end.
   */
  method SeekFromEndWitness() returns (asWritten: int, corrected: int)
    ensures asWritten == 7 && corrected == 3
  {
    var file := new MemoryFile.FromContent([1, 2, 3, 4, 5]);
    var stream := new MemoryFileStream(file);
    asWritten := stream.Seek(-2, End);
    corrected := stream.SeekCorrected(-2, End);
  }
}
