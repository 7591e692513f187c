/**
 * The in-memory filesystem engine. Two maps simulate a tree: `directories`
 * maps every directory path to the set of its immediate children (directories
 * and files mixed), and `files` maps every file path to its MemoryFile.
 *
 * Two invariants describe the maps. `WellFormed` holds after every operation:
 * the root is registered, every key has the kind of its map, and every listed
 * child is an immediate child that is itself registered. `Linked` adds the
 * upward direction: every registered path other than the root has a
 * registered parent that lists it. The create operations keep both; deleting
 * a directory that still has children breaks `Linked`, because the delete is
 * not recursive and the children keep their entries.
 */
module FileSystem {
  import opened Paths
  import opened Streams

  /** The exceptions the engine throws, as values. */
  datatype Error =
    | NotADirectory     // ArgumentException: a directory path was required
    | NotAFile          // ArgumentException: a file path was required
    | RootNotDeletable  // ArgumentException: the root cannot be deleted
    | PathDoesNotExist  // ArgumentException: Delete of an unregistered path
    | DirectoryNotFound // DirectoryNotFoundException
    | FileNotFound      // FileNotFoundException
    | ParentMissing     // KeyNotFoundException from the parent lookup in Delete

  datatype Outcome = Pass | Fail(error: Error)

  datatype Result<T> = Ok(value: T) | Err(error: Error)

  type Directories = map<FilePath, set<FilePath>>

  /** The size of the fixed buffer ReadAllText reads into. */
  const ReadBufferSize: nat := 300000

  ghost predicate WellFormed(dirs: Directories, files: set<FilePath>) {
    && Root in dirs
    && (forall d :: d in dirs ==> d.isDirectory)
    && (forall f :: f in files ==> f.IsFile())
    && (forall d, c :: d in dirs && c in dirs[d] ==> c.ParentPath() == d && (c in dirs || c in files))
  }

  ghost predicate Linked(dirs: Directories, files: set<FilePath>) {
    && (forall d :: d in dirs && !d.IsRoot() ==> d.ParentPath() in dirs && d in dirs[d.ParentPath()])
    && (forall f :: f in files ==> f.ParentPath() in dirs && f in dirs[f.ParentPath()])
  }

  ghost predicate IsTree(dirs: Directories, files: set<FilePath>) {
    WellFormed(dirs, files) && Linked(dirs, files)
  }

  /** `path` added to the child set of its parent. */
  function WithChild(dirs: Directories, path: FilePath): Directories
    requires path.ParentPath() in dirs
  {
    dirs[path.ParentPath() := dirs[path.ParentPath()] + {path}]
  }

  /** `path` removed from the child set of its parent. */
  function WithoutChild(dirs: Directories, path: FilePath): Directories
    requires path.ParentPath() in dirs
  {
    dirs[path.ParentPath() := dirs[path.ParentPath()] - {path}]
  }

  /** The directory map CreateDirectory(path) leaves: changed only when it registers `path`. */
  function CreateDirectoryIn(dirs: Directories, path: FilePath): Directories {
    if path.isDirectory && path !in dirs && path.ParentPath() in dirs
    then WithChild(dirs, path)[path := {}]
    else dirs
  }

  /** The directory `folders` names under the root: the root with each folder appended in turn. */
  function PrefixPath(folders: seq<string>, k: nat): FilePath
    requires k <= |folders|
  {
    FilePath(folders[..k], true)
  }

  /** The directory map after CreateDirectory on each successive prefix of `folders`. */
  function CreateAllIn(dirs: Directories, folders: seq<string>): Directories
    decreases |folders|
  {
    if folders == [] then dirs
    else CreateDirectoryIn(CreateAllIn(dirs, folders[..|folders| - 1]), PrefixPath(folders, |folders|))
  }

  // ---------------------------------------------------------------------------
  // The invariants under each state transition

  /** Registering a new directory under a registered parent keeps both invariants. */
  lemma AddDirectoryKeepsTree(dirs: Directories, files: set<FilePath>, path: FilePath)
    requires WellFormed(dirs, files)
    requires path.isDirectory && path !in dirs && path.ParentPath() in dirs
    ensures WellFormed(WithChild(dirs, path)[path := {}], files)
    ensures Linked(dirs, files) ==> Linked(WithChild(dirs, path)[path := {}], files)
  {
    var parent := path.ParentPath();
    var after := WithChild(dirs, path)[path := {}];
    assert path != parent;
    assert after.Keys == dirs.Keys + {path};
    forall d: FilePath, c: FilePath | d in after && c in after[d]
      ensures c.ParentPath() == d && (c in after || c in files)
    {
      if d == parent {
        assert c in dirs[d] || c == path;
      } else if d != path {
        assert after[d] == dirs[d];
      }
    }
    if Linked(dirs, files) {
      forall d | d in after && !d.IsRoot()
        ensures d.ParentPath() in after && d in after[d.ParentPath()]
      {
        if d != path {
          assert d.ParentPath() in dirs && d in dirs[d.ParentPath()];
        }
      }
      forall f | f in files
        ensures f.ParentPath() in after && f in after[f.ParentPath()]
      {
        assert f.ParentPath() in dirs && f in dirs[f.ParentPath()];
      }
    }
  }

  lemma CreateDirectoryKeepsTree(dirs: Directories, files: set<FilePath>, path: FilePath)
    requires WellFormed(dirs, files)
    ensures WellFormed(CreateDirectoryIn(dirs, path), files)
    ensures Linked(dirs, files) ==> Linked(CreateDirectoryIn(dirs, path), files)
  {
    if path.isDirectory && path !in dirs && path.ParentPath() in dirs {
      AddDirectoryKeepsTree(dirs, files, path);
    }
  }

  lemma CreateFileKeepsTree(dirs: Directories, files: set<FilePath>, path: FilePath)
    requires WellFormed(dirs, files)
    requires path.IsFile() && path.ParentPath() in dirs
    ensures WellFormed(WithChild(dirs, path), files + {path})
    ensures Linked(dirs, files) ==> Linked(WithChild(dirs, path), files + {path})
  {
    var after := WithChild(dirs, path);
    forall d: FilePath, c: FilePath | d in after && c in after[d]
      ensures c.ParentPath() == d && (c in after || c in files + {path})
    {
      if d == path.ParentPath() {
        assert c in dirs[d] || c == path;
      } else {
        assert c in dirs[d];
      }
    }
  }

  lemma DeleteFileKeepsTree(dirs: Directories, files: set<FilePath>, path: FilePath)
    requires WellFormed(dirs, files)
    requires path in files && path.ParentPath() in dirs
    ensures WellFormed(WithoutChild(dirs, path), files - {path})
    ensures Linked(dirs, files) ==> Linked(WithoutChild(dirs, path), files - {path})
  {
    var after := WithoutChild(dirs, path);
    forall d: FilePath, c: FilePath | d in after && c in after[d]
      ensures c.ParentPath() == d && (c in after || c in files - {path})
    {
      assert c in dirs[d] && c != path;
    }
  }

  /** Deleting a directory keeps the tree exactly when the directory has no children. */
  lemma DeleteDirectoryKeepsTree(dirs: Directories, files: set<FilePath>, path: FilePath)
    requires WellFormed(dirs, files)
    requires path in dirs && !path.IsRoot() && path.ParentPath() in dirs
    ensures WellFormed(WithoutChild(dirs - {path}, path), files)
    ensures Linked(dirs, files) && dirs[path] == {} ==> Linked(WithoutChild(dirs - {path}, path), files)
  {
    var after := WithoutChild(dirs - {path}, path);
    forall d: FilePath, c: FilePath | d in after && c in after[d]
      ensures c.ParentPath() == d && (c in after || c in files)
    {
      assert c in dirs[d] && c != path;
    }
    if Linked(dirs, files) && dirs[path] == {} {
      forall d | d in after && !d.IsRoot()
        ensures d.ParentPath() in after && d in after[d.ParentPath()]
      {
        assert d.ParentPath() != path;
      }
      forall f | f in files
        ensures f.ParentPath() in after && f in after[f.ParentPath()]
      {
        assert f.ParentPath() != path;
      }
    }
  }

  /** Deleting a directory that still has children orphans them: the tree breaks. */
  lemma DeleteNonEmptyDirectoryBreaksTree(dirs: Directories, files: set<FilePath>, path: FilePath)
    requires IsTree(dirs, files)
    requires path in dirs && !path.IsRoot() && dirs[path] != {}
    ensures var after := WithoutChild(dirs - {path}, path);
      !Linked(after, files) && (exists c :: c in after.Keys + files && c.ParentPath() == path)
  {
    var after := WithoutChild(dirs - {path}, path);
    var c :| c in dirs[path];
    assert c.ParentPath() == path;
    ParentPathIsProper(c);
    assert c in after.Keys + files;
  }

  /** A missing parent is only possible once the tree has already been broken. */
  lemma TreeHasParents(dirs: Directories, files: set<FilePath>, path: FilePath)
    requires IsTree(dirs, files)
    requires (path in dirs && !path.IsRoot()) || path in files
    ensures path.ParentPath() in dirs
  {
  }

  lemma DeleteOrphanKeepsWellFormed(dirs: Directories, files: set<FilePath>, path: FilePath)
    requires WellFormed(dirs, files)
    requires path.ParentPath() !in dirs && !path.IsRoot()
    ensures WellFormed(dirs - {path}, files - {path})
  {
    forall d, c | d in dirs - {path} && c in dirs[d]
      ensures c != path
    {
      assert c.ParentPath() == d;
    }
  }

  // ---------------------------------------------------------------------------
  // CreateFullPath as a sequence of CreateDirectory steps

  /** After creating every prefix of `folders`, each prefix is a registered directory and no other key was added. */
  lemma {:induction false} CreateAllRegisters(dirs: Directories, folders: seq<string>)
    requires Root in dirs
    ensures forall k :: 0 <= k <= |folders| ==> PrefixPath(folders, k) in CreateAllIn(dirs, folders)
    ensures CreateAllIn(dirs, folders).Keys == dirs.Keys + set k | 0 <= k <= |folders| :: PrefixPath(folders, k)
    decreases |folders|
  {
    if folders == [] {
      assert PrefixPath(folders, 0) == Root;
    } else {
      var n := |folders|;
      var init := folders[..n - 1];
      CreateAllRegisters(dirs, init);
      forall k | 0 <= k <= n - 1
        ensures PrefixPath(init, k) == PrefixPath(folders, k)
      {
        assert init[..k] == folders[..k];
      }
      var before := CreateAllIn(dirs, init);
      var last := PrefixPath(folders, n);
      assert last.ParentPath() == PrefixPath(init, n - 1) by {
        assert folders[..n][..n - 1] == init;
      }
      assert CreateAllIn(dirs, folders) == CreateDirectoryIn(before, last);
      assert (set k | 0 <= k <= n :: PrefixPath(folders, k))
          == (set k | 0 <= k <= n - 1 :: PrefixPath(init, k)) + {last};
    }
  }

  /** Creating prefixes that are all registered already changes nothing. */
  lemma {:induction false} CreateAllNoop(dirs: Directories, folders: seq<string>)
    requires forall k :: 1 <= k <= |folders| ==> PrefixPath(folders, k) in dirs
    ensures CreateAllIn(dirs, folders) == dirs
    decreases |folders|
  {
    if folders != [] {
      var init := folders[..|folders| - 1];
      forall k | 1 <= k <= |init|
        ensures PrefixPath(init, k) in dirs
      {
        assert init[..k] == folders[..k];
        assert PrefixPath(init, k) == PrefixPath(folders, k);
      }
      CreateAllNoop(dirs, init);
    }
  }

  /** One more folder: the next prefix is the previous one with the folder appended. */
  lemma CreateAllStep(dirs: Directories, folders: seq<string>, i: nat)
    requires i < |folders|
    ensures PrefixPath(folders, i).AppendDirectory(folders[i]) == PrefixPath(folders, i + 1)
    ensures CreateAllIn(dirs, folders[..i + 1])
         == CreateDirectoryIn(CreateAllIn(dirs, folders[..i]), PrefixPath(folders, i + 1))
  {
    assert folders[..i] + [folders[i]] == folders[..i + 1];
    assert folders[..i + 1][..i] == folders[..i];
    assert PrefixPath(folders[..i + 1], i + 1) == PrefixPath(folders, i + 1);
  }

  /** CreateFullPath is idempotent: a second identical call changes nothing. */
  lemma CreateAllIdempotent(dirs: Directories, folders: seq<string>)
    requires Root in dirs
    ensures CreateAllIn(CreateAllIn(dirs, folders), folders) == CreateAllIn(dirs, folders)
  {
    CreateAllRegisters(dirs, folders);
    CreateAllNoop(CreateAllIn(dirs, folders), folders);
  }

  lemma {:induction false} CreateAllKeepsTree(dirs: Directories, files: set<FilePath>, folders: seq<string>)
    requires WellFormed(dirs, files)
    ensures WellFormed(CreateAllIn(dirs, folders), files)
    ensures Linked(dirs, files) ==> Linked(CreateAllIn(dirs, folders), files)
    decreases |folders|
  {
    if folders != [] {
      var init := folders[..|folders| - 1];
      CreateAllKeepsTree(dirs, files, init);
      CreateDirectoryKeepsTree(CreateAllIn(dirs, init), files, PrefixPath(folders, |folders|));
    }
  }

  // ---------------------------------------------------------------------------
  // The engine

  class InMemoryFileSystem {
    var directories: Directories
    var files: map<FilePath, MemoryFile>

    ghost predicate Valid()
      reads this
    {
      WellFormed(directories, files.Keys)
    }

    ghost predicate Tree()
      reads this
    {
      IsTree(directories, files.Keys)
    }

    /** A new engine holds the root directory with no children and no file. */
    constructor ()
      ensures directories == map[Root := {}] && files == map[]
      ensures Valid() && Tree()
    {
      directories := map[Root := {}];
      files := map[];
    }

    method CreateDirectory(path: FilePath) returns (r: Outcome)
      requires Valid()
      modifies this
      ensures Valid()
      ensures r == if !path.isDirectory then Fail(NotADirectory)
                   else if path in old(directories) || path.ParentPath() in old(directories) then Pass
                   else Fail(DirectoryNotFound)
      ensures directories == CreateDirectoryIn(old(directories), path)
      ensures files == old(files)
      ensures old(Tree()) ==> Tree()
    {
      CreateDirectoryKeepsTree(directories, files.Keys, path);
      if !path.isDirectory {
        return Fail(NotADirectory);
      }
      if path in directories {
        return Pass;
      }
      if path.ParentPath() !in directories {
        return Fail(DirectoryNotFound);
      }
      var subentities := directories[path.ParentPath()];
      directories := directories[path.ParentPath() := subentities + {path}];
      directories := directories[path := {}];
      r := Pass;
    }

    method CreateFile(path: FilePath) returns (r: Result<MemoryFileStream>)
      requires Valid()
      modifies this
      ensures Valid()
      ensures r.Ok? <==> path.IsFile() && path.ParentPath() in old(directories)
      ensures r.Err? ==> (r.error == (if !path.IsFile() then NotAFile else DirectoryNotFound)
                          && directories == old(directories) && files == old(files))
      ensures r.Ok? ==> && directories == WithChild(old(directories), path)
                        && fresh(r.value) && fresh(r.value.file)
                        && r.value.file.content == [] && r.value.position == 0
                        && files == old(files)[path := r.value.file]
      ensures old(Tree()) ==> Tree()
    {
      if !path.IsFile() {
        return Err(NotAFile);
      }
      if path.ParentPath() !in directories {
        return Err(DirectoryNotFound);
      }
      CreateFileKeepsTree(directories, files.Keys, path);
      directories := directories[path.ParentPath() := directories[path.ParentPath()] + {path}];
      var file := new MemoryFile();
      files := files[path := file];
      var stream := new MemoryFileStream(file);
      r := Ok(stream);
    }

    /**
     * Registers every directory named by the pieces of `path` split at the
     * separator, from the root downwards, and returns the deepest of them.
     */
    method CreateFullPath(path: string) returns (r: FilePath)
      requires Valid()
      modifies this
      ensures Valid()
      ensures r == FilePath(Split(path, DirectorySeparator), true)
      ensures directories == CreateAllIn(old(directories), Split(path, DirectorySeparator))
      ensures forall k :: 0 <= k <= |Split(path, DirectorySeparator)| ==>
                PrefixPath(Split(path, DirectorySeparator), k) in directories
      ensures (forall k :: 1 <= k <= |Split(path, DirectorySeparator)| ==>
                PrefixPath(Split(path, DirectorySeparator), k) in old(directories))
              ==> directories == old(directories)
      ensures files == old(files)
      ensures old(Tree()) ==> Tree()
    {
      var root := Root;
      var folders := Split(path, DirectorySeparator);
      ghost var before := directories;
      ghost var wasTree := Tree();
      for i := 0 to |folders|
        invariant Valid()
        invariant root == PrefixPath(folders, i) && root in directories
        invariant directories == CreateAllIn(before, folders[..i])
        invariant files == old(files)
        invariant wasTree ==> Tree()
      {
        CreateAllStep(before, folders, i);
        root := root.AppendDirectory(folders[i]);
        var created := CreateDirectory(root);
        assert created == Pass;
      }
      assert folders[..|folders|] == folders;
      CreateAllRegisters(before, folders);
      if forall k :: 1 <= k <= |folders| ==> PrefixPath(folders, k) in before {
        CreateAllNoop(before, folders);
      }
      r := root;
    }

    /**
     * CreateTextFile as written: the UTF-8 bytes of the text are computed,
     * but only as many of them are written as the text has characters
     * (`charCount`, the UTF-16 length of the string).
     */
    method CreateTextFile(path: FilePath, bytes: seq<byte>, charCount: nat) returns (r: Outcome)
      requires Valid()
      requires charCount <= |bytes|
      modifies this
      ensures Valid()
      ensures r.Pass? <==> path.IsFile() && path.ParentPath() in old(directories)
      ensures r.Fail? ==> (r.error == (if !path.IsFile() then NotAFile else DirectoryNotFound)
                           && directories == old(directories) && files == old(files))
      ensures r.Pass? ==> && directories == WithChild(old(directories), path)
                          && path in files && fresh(files[path])
                          && files == old(files)[path := files[path]]
                          && files[path].content == bytes[..charCount]
      ensures old(Tree()) ==> Tree()
    {
      var created := CreateFile(path);
      if created.Err? {
        return Fail(created.error);
      }
      var stream := created.value;
      var buffer := new byte[|bytes|](i requires 0 <= i < |bytes| => bytes[i]);
      stream.Write(buffer, 0, charCount);
      WrittenIntoEmpty(bytes[..charCount]);
      r := Pass;
    }

    /** CreateTextFile writing every encoded byte of the text. */
    method CreateTextFileCorrected(path: FilePath, bytes: seq<byte>) returns (r: Outcome)
      requires Valid()
      modifies this
      ensures Valid()
      ensures r.Pass? <==> path.IsFile() && path.ParentPath() in old(directories)
      ensures r.Fail? ==> (r.error == (if !path.IsFile() then NotAFile else DirectoryNotFound)
                           && directories == old(directories) && files == old(files))
      ensures r.Pass? ==> && directories == WithChild(old(directories), path)
                          && path in files && fresh(files[path])
                          && files == old(files)[path := files[path]]
                          && files[path].content == bytes
      ensures old(Tree()) ==> Tree()
    {
      r := CreateTextFile(path, bytes, |bytes|);
    }

    method Delete(path: FilePath) returns (r: Outcome)
      requires Valid()
      modifies this
      ensures Valid()
      ensures path.IsRoot() ==> r == Fail(RootNotDeletable)
      ensures !path.IsRoot() && !old(Exists(path)) ==> r == Fail(PathDoesNotExist)
      ensures r.Fail? && r.error != ParentMissing ==> directories == old(directories) && files == old(files)
      ensures !path.IsRoot() && old(Exists(path)) && path.ParentPath() !in old(directories) ==>
                r == Fail(ParentMissing) && directories == old(directories) - {path} && files == old(files) - {path}
      ensures !path.IsRoot() && old(Exists(path)) && path.ParentPath() in old(directories) ==>
                && r == Pass
                && (path.isDirectory ==> directories == WithoutChild(old(directories) - {path}, path) && files == old(files))
                && (path.IsFile() ==> directories == WithoutChild(old(directories), path) && files == old(files) - {path})
      ensures old(Tree()) ==> r != Fail(ParentMissing)
      ensures old(Tree()) && (path.IsFile() || path !in old(directories) || old(directories)[path] == {}) ==> Tree()
    {
      if path.IsRoot() {
        return Fail(RootNotDeletable);
      }
      if Tree() && Exists(path) {
        TreeHasParents(directories, files.Keys, path);
      }
      var removed := false;
      if path.isDirectory {
        removed := path in directories;
        directories := directories - {path};
      } else {
        removed := path in files;
        files := files - {path};
      }
      if !removed {
        return Fail(PathDoesNotExist);
      }
      if path.ParentPath() !in directories {
        DeleteOrphanKeepsWellFormed(old(directories), old(files).Keys, path);
        return Fail(ParentMissing);
      }
      if path.isDirectory {
        DeleteDirectoryKeepsTree(old(directories), old(files).Keys, path);
      } else {
        DeleteFileKeepsTree(old(directories), old(files).Keys, path);
      }
      var parent := directories[path.ParentPath()];
      directories := directories[path.ParentPath() := parent - {path}];
      r := Pass;
    }

    /** Whether `path` is registered in the map of its kind. */
    function Exists(path: FilePath): (b: bool)
      reads this
      ensures Valid() && path.IsRoot() ==> b
      ensures b && Tree() && !path.IsRoot() ==> path.ParentPath() in directories && path in directories[path.ParentPath()]
    {
      if path.isDirectory then path in directories else path in files
    }

    /** The child set of a registered directory. */
    function GetEntities(path: FilePath): (r: Result<set<FilePath>>)
      reads this
      ensures r.Ok? <==> path.isDirectory && path in directories
      ensures r.Err? ==> r.error == (if !path.isDirectory then NotADirectory else DirectoryNotFound)
      ensures r.Ok? ==> r.value == directories[path]
      ensures r.Ok? && Valid() ==> forall c :: c in r.value ==> c.ParentPath() == path && Exists(c)
    {
      if !path.isDirectory then Err(NotADirectory)
      else if path !in directories then Err(DirectoryNotFound)
      else Ok(directories[path])
    }

    /** A new stream, at position 0, over the very MemoryFile registered for `path`. */
    method OpenFile(path: FilePath) returns (r: Result<MemoryFileStream>)
      ensures r.Ok? <==> path.IsFile() && path in files
      ensures r.Err? ==> r.error == (if !path.IsFile() then NotAFile else FileNotFound)
      ensures r.Ok? ==> fresh(r.value) && r.value.file == files[path] && r.value.position == 0
    {
      if !path.IsFile() {
        return Err(NotAFile);
      }
      if path !in files {
        return Err(FileNotFound);
      }
      var file := files[path];
      var stream := new MemoryFileStream(file);
      r := Ok(stream);
    }

    /**
     * ReadAllText as written, on bytes: one read into a fixed zeroed buffer of
     * ReadBufferSize bytes, all of which are then decoded.
     */
    method ReadAllText(path: FilePath) returns (r: Result<seq<byte>>)
      ensures r.Ok? <==> path.IsFile() && path in files
      ensures r.Err? ==> r.error == (if !path.IsFile() then NotAFile else FileNotFound)
      ensures r.Ok? ==> (var content := files[path].content;
                         var m := Min(ReadBufferSize, |content|);
                         && |r.value| == ReadBufferSize
                         && r.value[..m] == content[..m]
                         && forall i :: m <= i < ReadBufferSize ==> r.value[i] == 0)
    {
      var found := OpenFile(path);
      if found.Err? {
        return Err(found.error);
      }
      var stream := found.value;
      var bytes := new byte[ReadBufferSize](_ => 0);
      var n := stream.Read(bytes, 0, ReadBufferSize);
      r := Ok(bytes[..]);
    }

    /** ReadAllText reading exactly the content of the file. */
    method ReadAllTextCorrected(path: FilePath) returns (r: Result<seq<byte>>)
      ensures r.Ok? <==> path.IsFile() && path in files
      ensures r.Err? ==> r.error == (if !path.IsFile() then NotAFile else FileNotFound)
      ensures r.Ok? ==> r.value == files[path].content
    {
      var found := OpenFile(path);
      if found.Err? {
        return Err(found.error);
      }
      var stream := found.value;
      var bytes := new byte[stream.Length()](_ => 0);
      var n := stream.Read(bytes, 0, stream.Length());
      r := Ok(bytes[..]);
    }

    /** The host's working directory, passed in as text, registered like CreateFullPath. */
    method GetCurrentDirectory(currentDirectory: string) returns (r: FilePath)
      requires Valid()
      modifies this
      ensures Valid()
      ensures r == FilePath(Split(currentDirectory, DirectorySeparator), true)
      ensures directories == CreateAllIn(old(directories), Split(currentDirectory, DirectorySeparator))
      ensures forall k :: 0 <= k <= |Split(currentDirectory, DirectorySeparator)| ==>
                PrefixPath(Split(currentDirectory, DirectorySeparator), k) in directories
      ensures (forall k :: 1 <= k <= |Split(currentDirectory, DirectorySeparator)| ==>
                PrefixPath(Split(currentDirectory, DirectorySeparator), k) in old(directories))
              ==> directories == old(directories)
      ensures files == old(files)
      ensures old(Tree()) ==> Tree()
    {
      r := CreateFullPath(currentDirectory);
    }
  }
}
