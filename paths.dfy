/**
 * The virtual path model used as the key of every map in the in-memory
 * filesystem. A path is a sequence of segments plus a flag telling whether it
 * names a directory (its textual form ends with the separator) or a file.
 * Paths are values: two paths are equal exactly when their segments and their
 * flags are equal.
 *
 * The parser and the printer of paths are not part of this model; the
 * operations below are the ones the filesystem engine relies on.
 */
module Paths {

  /** The separator between segments in the textual form of a path. */
  const DirectorySeparator: char := '/'

  datatype FilePath = FilePath(segments: seq<string>, isDirectory: bool) {

    predicate IsFile() {
      !isDirectory
    }

    /** The root is the directory with no segments. */
    predicate IsRoot() {
      |segments| == 0 && isDirectory
    }

    /** The directory that contains this path; the root is its own parent. */
    function ParentPath(): (p: FilePath)
      ensures p.isDirectory
      ensures |segments| > 0 ==> |p.segments| == |segments| - 1 && p.segments == segments[..|segments| - 1]
      ensures |segments| == 0 ==> p.IsRoot()
    {
      FilePath(if |segments| == 0 then [] else segments[..|segments| - 1], true)
    }

    /** The sub-directory `name` of this directory. */
    function AppendDirectory(name: string): (p: FilePath)
      requires isDirectory
      ensures p.isDirectory && !p.IsRoot()
      ensures p.ParentPath() == this
      ensures p.segments[|p.segments| - 1] == name
    {
      FilePath(segments + [name], true)
    }
  }

  const Root: FilePath := FilePath([], true)

  /** Only the root (among directories) and no file is its own parent. */
  lemma ParentPathIsProper(p: FilePath)
    requires !p.IsRoot()
    ensures p.ParentPath() != p
  {
  }

  /** The textual form of a sequence of pieces joined by `sep`. */
  function Join(parts: seq<string>, sep: char): string
    requires |parts| >= 1
    decreases |parts|
  {
    if |parts| == 1 then parts[0] else parts[0] + [sep] + Join(parts[1..], sep)
  }

  /**
   * .NET's String.Split(char): the pieces between consecutive occurrences of
   * `sep`, including empty pieces at the ends and between adjacent separators.
   */
  function Split(s: string, sep: char): (parts: seq<string>)
    ensures |parts| >= 1
    ensures forall i :: 0 <= i < |parts| ==> sep !in parts[i]
    decreases |s|
  {
    if |s| == 0 then [""]
    else
      var rest := Split(s[1..], sep);
      if s[0] == sep then [""] + rest
      else [[s[0]] + rest[0]] + rest[1..]
  }

  /** Joining the pieces of a split gives back the original text. */
  lemma {:induction false} JoinSplit(s: string, sep: char)
    ensures Join(Split(s, sep), sep) == s
    decreases |s|
  {
    if |s| > 0 {
      var rest := Split(s[1..], sep);
      JoinSplit(s[1..], sep);
      if s[0] == sep {
        assert ([""] + rest)[1..] == rest;
      } else if |rest| == 1 {
      } else {
        var parts := [[s[0]] + rest[0]] + rest[1..];
        assert parts[1..] == rest[1..];
        assert Join(rest, sep) == rest[0] + [sep] + Join(rest[1..], sep);
        assert s == [s[0]] + s[1..];
      }
    }
  }

  /** A piece free of the separator splits into itself. */
  lemma {:induction false} SplitPiece(x: string, sep: char)
    requires sep !in x
    ensures Split(x, sep) == [x]
    decreases |x|
  {
    if |x| > 0 {
      SplitPiece(x[1..], sep);
      assert [x[0]] + x[1..] == x;
    }
  }

  /** A separator-free piece followed by the separator splits off as the first piece. */
  lemma {:induction false} SplitAfterPiece(x: string, sep: char, tail: string)
    requires sep !in x
    ensures Split(x + [sep] + tail, sep) == [x] + Split(tail, sep)
    decreases |x|
  {
    var s := x + [sep] + tail;
    if |x| == 0 {
      assert s[1..] == tail;
    } else {
      assert s[1..] == x[1..] + [sep] + tail;
      SplitAfterPiece(x[1..], sep, tail);
      assert [x[0]] + x[1..] == x;
    }
  }

  /** Splitting a join of separator-free pieces gives back the pieces. */
  lemma {:induction false} SplitJoin(parts: seq<string>, sep: char)
    requires |parts| >= 1
    requires forall i :: 0 <= i < |parts| ==> sep !in parts[i]
    ensures Split(Join(parts, sep), sep) == parts
    decreases |parts|
  {
    if |parts| == 1 {
      SplitPiece(parts[0], sep);
    } else {
      SplitJoin(parts[1..], sep);
      SplitAfterPiece(parts[0], sep, Join(parts[1..], sep));
      assert [parts[0]] + parts[1..] == parts;
    }
  }
}
