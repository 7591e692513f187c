# In-memory filesystem of simplefilesystem, modelled in Dafny

simplefilesystem puts one interface over two kinds of filesystem: one that forwards to the host and one kept in memory. This project models the in-memory one, `InMemoryFileSystem`, and proves properties of the model. It has four modules:

- `Paths` (`paths.dfy`) models the path value `FilePath`.
  - A path is a sequence of segments plus a directory flag.
  - It has `IsFile`, `IsRoot`, `ParentPath`, `AppendDirectory` and `Root`.
  - Equality is structural.
  - The module also has .NET's `String.Split(char)` (`Split`), which `CreateFullPath` uses, and its inverse `Join`. They are proved to be mutual inverses.
- `Streams` (`streams.dfy`) models file content.
  - `MemoryFile` is a class holding the content as `seq<byte>`.
  - `MemoryFileStream` is a class holding a reference to its `MemoryFile` and a `position` of its own.
  - `Length` reads the shared content every time it is called.
  - `Read`, `Write`, `Seek` and `SetLength` are methods. Each one's `ensures` gives the new content and position exactly. `SetLength` is stated through `Resized`, `Write` through `Written`, and the `ensures` on those two functions say what they mean byte by byte.
- `FileSystem` (`filesystem.dfy`) models the engine: a class with the two maps, `directories` (path to child set) and `files` (path to `MemoryFile`).
  - Exceptions become `Outcome`/`Result` values.
  - `WellFormed` holds after every operation: the root is present, every key has its map's kind, and every child is an immediate, registered child. Every method keeps it.
  - `Linked` is the upward half: every non-root path has a registered parent that lists it.
  - Value lemmas prove that every create operation keeps `Linked`. So do deleting a file and deleting an empty directory. Deleting a non-empty directory breaks it.
  - `CreateFullPath` is the source's loop. Its effect is `CreateAllIn`, and lemmas prove that this registers every prefix and is idempotent.
- `Scenarios` (`scenarios.dfy`) holds client methods. They show what a caller can conclude from the contracts alone: creating a path, reading back written bytes, two streams sharing one file, non-recursive delete, a detached stream after a file is re-created, and the three findings below.

The model follows the code as written:
- Failures are the exceptions the code throws, as result values.
- `GetEntities` returns the live child set itself.
- `CreateTextFile` writes the character count.
- `ReadAllText` reads a fixed 300000-byte buffer.
- `Seek` from the end subtracts the offset.
- A failed `Delete` can leave a partial change behind: the entry is removed before the parent lookup fails.

## Model

| member | source | states |
|---|---|---|
| `FileSystem.InMemoryFileSystem.constructor` | simplefilesystem/InMemoryFileSystem.cs:10-19 | a new engine has exactly the root directory with an empty child set and no file; both invariants hold |
| `FileSystem.InMemoryFileSystem.CreateDirectory` | simplefilesystem/InMemoryFileSystem.cs:21-31 | a file path fails with no change; a registered path is a no-op; a missing parent fails with no change; otherwise the path is added to its parent's child set and gets an empty child set, files untouched, invariants kept |
| `FileSystem.InMemoryFileSystem.CreateFile` | simplefilesystem/InMemoryFileSystem.cs:33-42 | a directory path or a missing parent fails with no change; otherwise the parent lists the path, the path maps to a fresh empty MemoryFile (replacing any earlier one) and the returned stream is at 0 over it |
| `FileSystem.InMemoryFileSystem.CreateFullPath` | simplefilesystem/InMemoryFileSystem.cs:44-54 | every successive prefix of the split pieces is a registered directory afterwards, the result is the last of them, nothing changes when all were registered, files untouched, invariants kept |
| `FileSystem.InMemoryFileSystem.GetCurrentDirectory` | simplefilesystem/InMemoryFileSystem.cs:97-108 | the same as CreateFullPath, applied to the working directory passed in as text |
| `FileSystem.InMemoryFileSystem.CreateTextFile` | simplefilesystem/InMemoryFileSystem.cs:56-68 | the effect of CreateFile, after which the new file holds exactly the first `charCount` encoded bytes |
| `FileSystem.InMemoryFileSystem.CreateTextFileCorrected` | simplefilesystem/InMemoryFileSystem.cs:56-68 | the effect of CreateFile, after which the new file holds exactly all encoded bytes |
| `FileSystem.InMemoryFileSystem.Delete` | simplefilesystem/InMemoryFileSystem.cs:70-81 | root fails; an unregistered path fails with no change; a missing parent fails after the entry was removed (never possible on a tree); otherwise the path leaves its kind's map and its parent's child set and nothing else changes, so descendants keep their entries; the tree is kept for files and empty directories |
| `FileSystem.InMemoryFileSystem.Exists` | simplefilesystem/InMemoryFileSystem.cs:90-95 | membership in the map of the path's kind: the root always exists, and on a tree an existing non-root path is listed by its registered parent |
| `FileSystem.InMemoryFileSystem.GetEntities` | simplefilesystem/InMemoryFileSystem.cs:110-117 | fails on a file path and on an unregistered directory; otherwise returns that directory's child set, every member of which is an existing immediate child |
| `FileSystem.InMemoryFileSystem.OpenFile` | simplefilesystem/InMemoryFileSystem.cs:127-134 | fails on a directory path and on an unregistered file; otherwise returns a fresh stream at 0 over the same MemoryFile object the engine holds |
| `FileSystem.InMemoryFileSystem.ReadAllText` | simplefilesystem/InMemoryFileSystem.cs:136-142 | OpenFile's failures; otherwise exactly 300000 bytes: the first min(300000, length) bytes of the content and zeros after them |
| `FileSystem.InMemoryFileSystem.ReadAllTextCorrected` | simplefilesystem/InMemoryFileSystem.cs:136-142 | OpenFile's failures; otherwise exactly the content of the file |
| `FileSystem.AddDirectoryKeepsTree` | simplefilesystem/InMemoryFileSystem.cs:27-30 | registering a new directory under a registered parent keeps WellFormed and Linked |
| `FileSystem.CreateDirectoryKeepsTree` | simplefilesystem/InMemoryFileSystem.cs:21-31 | every exit of CreateDirectory keeps WellFormed, and Linked when it held |
| `FileSystem.CreateFileKeepsTree` | simplefilesystem/InMemoryFileSystem.cs:37-40 | adding a file under a registered parent keeps WellFormed, and Linked when it held |
| `FileSystem.DeleteFileKeepsTree` | simplefilesystem/InMemoryFileSystem.cs:76-80 | removing a file from its map and from its parent's set keeps WellFormed, and Linked when it held |
| `FileSystem.DeleteDirectoryKeepsTree` | simplefilesystem/InMemoryFileSystem.cs:75-80 | removing a directory keeps WellFormed, and keeps Linked when the directory had no children |
| `FileSystem.DeleteNonEmptyDirectoryBreaksTree` | simplefilesystem/InMemoryFileSystem.cs:70-81 | removing a directory that has children leaves a registered path whose parent is gone, so Linked fails |
| `FileSystem.TreeHasParents` | simplefilesystem/InMemoryFileSystem.cs:79 | on a tree the parent lookup of Delete always finds the parent |
| `FileSystem.DeleteOrphanKeepsWellFormed` | simplefilesystem/InMemoryFileSystem.cs:74-79 | the partial removal left by a failed parent lookup keeps WellFormed |
| `FileSystem.CreateAllStep` | simplefilesystem/InMemoryFileSystem.cs:48-52 | one loop turn: appending the next folder gives the next prefix, and the map grows by one CreateDirectory step |
| `FileSystem.CreateAllRegisters` | simplefilesystem/InMemoryFileSystem.cs:44-54 | after the loop every prefix is a registered directory and the keys are exactly the old keys plus the prefixes |
| `FileSystem.CreateAllNoop` | simplefilesystem/InMemoryFileSystem.cs:25-26 | when every prefix is already registered, the loop changes nothing |
| `FileSystem.CreateAllIdempotent` | simplefilesystem/InMemoryFileSystem.cs:44-54 | a second identical CreateFullPath leaves the map as the first left it |
| `FileSystem.CreateAllKeepsTree` | simplefilesystem/InMemoryFileSystem.cs:44-54 | the loop keeps WellFormed, and Linked when it held |
| `Streams.MemoryFile.constructor` | simplefilesystem/InMemoryFileSystem.cs:146-149 | a new MemoryFile is empty |
| `Streams.MemoryFile.FromContent` | simplefilesystem/InMemoryFileSystem.cs:151-154 | a MemoryFile holds the content it was given |
| `Streams.MemoryFileStream.constructor` | simplefilesystem/InMemoryFileSystem.cs:163-166 | a new stream is over the given file, at position 0 |
| `Streams.MemoryFileStream.Length` | simplefilesystem/InMemoryFileSystem.cs:180 | the length of the shared file's current content, read on every call |
| `Streams.MemoryFileStream.Read` | simplefilesystem/InMemoryFileSystem.cs:188-194 | with 0 <= position <= length, returns min(count, length - position); those bytes from the position land at `buffer[offset..]`, the rest of the buffer is unchanged, and the position advances by that amount (0 at the end) |
| `Streams.MemoryFileStream.Seek` | simplefilesystem/InMemoryFileSystem.cs:196-203 | the position becomes offset, position + offset, or length - offset by origin, and is returned |
| `Streams.MemoryFileStream.SeekCorrected` | simplefilesystem/InMemoryFileSystem.cs:196-203 | as Seek, with length + offset for the end origin |
| `Streams.MemoryFileStream.SetLength` | simplefilesystem/InMemoryFileSystem.cs:205-211 | the shared content becomes `Resized(old, value)`; the position is unchanged |
| `Streams.MemoryFileStream.Write` | simplefilesystem/InMemoryFileSystem.cs:213-219 | the shared content becomes `Written(old, position, buffer[offset..offset+count])`; the position advances by count |
| `Streams.Resized` | simplefilesystem/InMemoryFileSystem.cs:207-210 | exactly n bytes, the first min(n, old length) kept and the rest zero |
| `Streams.Written` | simplefilesystem/InMemoryFileSystem.cs:215-217 | length max(old length, p + count); bytes [p, p + count) are the data; earlier bytes kept, with any gap beyond the old end zero; later bytes kept |
| `Streams.WrittenIntoEmpty` | simplefilesystem/InMemoryFileSystem.cs:63-66 | writing into a new file from position 0 leaves exactly the written bytes |
| `Paths.FilePath.ParentPath` | simplefilesystem/InMemoryFileSystem.cs:27 | a directory path with the last segment dropped; the root is its own parent |
| `Paths.FilePath.IsFile` | simplefilesystem/InMemoryFileSystem.cs:35 | holds exactly when the path is not a directory path |
| `Paths.FilePath.IsRoot` | simplefilesystem/InMemoryFileSystem.cs:72 | holds exactly for the directory path with no segments, the one path that is its own parent |
| `Paths.FilePath.AppendDirectory` | simplefilesystem/InMemoryFileSystem.cs:50 | a non-root directory whose parent is the original path and whose last segment is the name |
| `Paths.Split` | simplefilesystem/InMemoryFileSystem.cs:47 | at least one piece, none containing the separator |
| `Paths.JoinSplit` | simplefilesystem/InMemoryFileSystem.cs:47 | joining the pieces of a split gives back the text |
| `Paths.SplitJoin` | simplefilesystem/InMemoryFileSystem.cs:47 | splitting a join of separator-free pieces gives back the pieces |
| `Scenarios.FreshFullPath` | simplefilesystem/InMemoryFileSystem.cs:44-54 | in a fresh engine the loop for a, b, c yields the root listing /a/, /a/ listing /a/b/, /a/b/ listing /a/b/c/, and /a/b/c/ empty |
| `Scenarios.FullPathScenario` | simplefilesystem/InMemoryFileSystem.cs:44-54 | from a fresh engine, CreateFullPath("a/b/c") returns /a/b/c/, /a/, /a/b/ and /a/b/c/ exist, and the root lists exactly /a/ |
| `Scenarios.StreamScenario` | simplefilesystem/InMemoryFileSystem.cs:188-219 | writing 5 bytes to an empty file, seeking to 2 and reading 10 returns 3 bytes, those at positions 2 to 4 |
| `Scenarios.SharedContentScenario` | simplefilesystem/InMemoryFileSystem.cs:127-134 | bytes written through the stream CreateFile returns are read back through the stream OpenFile returns, and each stream keeps its own position |
| `Scenarios.DeleteScenario` | simplefilesystem/InMemoryFileSystem.cs:70-81 | a deleted file no longer exists and its parent no longer lists it; deleting the root fails |
| `Scenarios.OrphanScenario` | simplefilesystem/InMemoryFileSystem.cs:74-80 | after /a/ is deleted, /a/b/ still exists; deleting /a/b/ then fails at the parent lookup and yet removes it |
| `Scenarios.DetachedStreamScenario` | simplefilesystem/InMemoryFileSystem.cs:40 | re-creating a file detaches earlier streams: their writes land in the old MemoryFile, and the registered file stays empty |
| `Scenarios.TextFileTruncationWitness` | simplefilesystem/InMemoryFileSystem.cs:65-66 | "é" (bytes C3 A9) is stored as C3 alone by CreateTextFile and as C3 A9 by the corrected version |
| `Scenarios.ReadAllTextPaddingWitness` | simplefilesystem/InMemoryFileSystem.cs:139-141 | a one-byte file reads back as 300000 bytes, zero-padded; the corrected version reads back the single byte |
| `Scenarios.ReadAllTextCutWitness` | simplefilesystem/InMemoryFileSystem.cs:139-140 | a 300001-byte file reads back without its last byte; the corrected version reads all of it |
| `Scenarios.SeekFromEndWitness` | simplefilesystem/InMemoryFileSystem.cs:202 | on a five-byte stream, Seek(-2, End) lands at 7 and the corrected Seek at 3 |

## Left out

- `FilePath` (parsing, `ToString`, validation of segment names) is not part of this model. The model uses it as an abstract value with `ParentPath` and `AppendDirectory`. `DirectorySeparator` is taken to be `'/'`, the separator of virtual paths.
- `Paths.FilePath.AppendDirectory`: requires a directory path, the only kind the engine ever appends to. It does not reject empty or malformed names. So `CreateFullPath("/a")` gives a first segment that is the empty string.
- PhysicalFileSystem, EnumerableCollection, ParseException and the IFileSystem interface are not modelled. They forward to the host filesystem, or are adapters and boilerplate.
- UTF-8 encoding and decoding are not modelled. `CreateTextFile` takes the encoded bytes and the text's character count. `ReadAllText` returns the bytes it would decode.
- `Equals`/`GetHashCode` of the engine are left out. They compare the dictionaries by reference and carry no behaviour.
- The `FileAccess` argument of `OpenFile` is left out, as are `Flush`, `CanRead`/`CanSeek`/`CanWrite`, `Close` and `Dispose`. None of them changes state.
- Child sets are set values inside the `directories` map. The source updates each `HashSet` in place, and `GetEntities` hands out that live set. A set the caller holds does not change when the engine changes later; that aliasing is not captured.
- `MemoryFile.Content` is a `seq<byte>`. The source stores an array: `Write` copies into it in place within the current length, and the public `Content` property lets a caller hold it. Aliasing of that raw array by callers is not captured. Sharing one `MemoryFile` between streams is captured.
- Exceptions are result values. The partial mutation in `Delete` is kept: the entry is removed before the parent lookup throws.
- `long` to `int` casts and 32-bit overflow of positions and lengths are not modelled. Integers are unbounded.
- `Streams.MemoryFileStream.Read`: requires 0 <= position <= length, a non-negative offset and count, and room in the buffer. The source's `Buffer.BlockCopy` throws outside these, and those throws are not modelled. Within them, `Math.Abs` at line 190 has no effect.
- `Streams.MemoryFileStream.Write`: requires a non-negative position and a valid buffer range. The source throws from `BlockCopy` otherwise.
- `Streams.MemoryFileStream.SetLength`: requires a non-negative length. The source throws when it allocates a negative-size array.
- `Directory.GetCurrentDirectory()` is host state. `GetCurrentDirectory` takes the directory text as a parameter.

## Findings

| source | as written | input that shows it | evidently intended | confidence | as-written member | corrected member |
|---|---|---|---|---|---|---|
| simplefilesystem/InMemoryFileSystem.cs:66 | writes `contents.Length` bytes, the UTF-16 character count, of the UTF-8 encoding | the text "é", encoded as C3 A9: the file holds only C3 | write all `bytes.Length` encoded bytes | high, not executed | `FileSystem.InMemoryFileSystem.CreateTextFile`, shown by `Scenarios.TextFileTruncationWitness` | `FileSystem.InMemoryFileSystem.CreateTextFileCorrected` |
| simplefilesystem/InMemoryFileSystem.cs:139-141 | reads once into a fixed 300000-byte buffer and decodes the whole buffer | a one-byte file gives 300000 bytes, 299999 of them zero; a 300001-byte file loses its last byte | read and decode exactly the file's length | high, not executed | `FileSystem.InMemoryFileSystem.ReadAllText`, shown by `Scenarios.ReadAllTextPaddingWitness` and `Scenarios.ReadAllTextCutWitness` | `FileSystem.InMemoryFileSystem.ReadAllTextCorrected` |
| simplefilesystem/InMemoryFileSystem.cs:202 | `SeekOrigin.End` sets the position to `Length - offset` | on a five-byte stream, `Seek(-2, End)` gives 7, past the end | `Length + offset`, as the `Stream.Seek` convention defines | medium, not executed | `Streams.MemoryFileStream.Seek`, shown by `Scenarios.SeekFromEndWitness` | `Streams.MemoryFileStream.SeekCorrected` |
