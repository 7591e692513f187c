/**
 * The content of a file kept in memory and the seekable stream over it.
 * A MemoryFile owns a growable byte buffer; every stream opened on the file
 * holds a reference to the same MemoryFile, so a write through one stream is
 * visible to every other, while each stream keeps its own position.
 */
module Streams {

  newtype byte = x: int | 0 <= x < 256

  function Min(a: int, b: int): int {
    if a <= b then a else b
  }

  function Max(a: int, b: int): int {
    if a <= b then b else a
  }

  /** A freshly allocated byte array: `n` zero bytes. */
  function Zeros(n: nat): (z: seq<byte>)
    ensures |z| == n
    ensures forall i :: 0 <= i < n ==> z[i] == 0
  {
    seq(n, _ => 0)
  }

  /**
   * The content after SetLength(n): a new buffer of exactly `n` bytes whose
   * overlap with the old content is copied and whose remainder is zero.
   */
  function Resized(content: seq<byte>, n: nat): (r: seq<byte>)
    ensures |r| == n
    ensures forall i :: 0 <= i < n ==> r[i] == if i < |content| then content[i] else 0
  {
    var kept := Min(n, |content|);
    content[..kept] + Zeros(n - kept)
  }

  /**
   * The content after writing `data` at `pos`: the buffer grows to exactly
   * `pos + |data|` when it is too short, the bytes at `pos` are overwritten,
   * and every other byte is kept (bytes of a gap beyond the old end are zero).
   */
  function Written(content: seq<byte>, pos: nat, data: seq<byte>): (r: seq<byte>)
    ensures |r| == Max(|content|, pos + |data|)
    ensures r[pos..pos + |data|] == data
    ensures forall i :: 0 <= i < pos ==> r[i] == if i < |content| then content[i] else 0
    ensures forall i :: pos + |data| <= i < |r| ==> r[i] == content[i]
  {
    var grown := if |content| - pos < |data| then Resized(content, pos + |data|) else content;
    grown[..pos] + data + grown[pos + |data|..]
  }

  /** Writing into an empty file from its start leaves exactly the written bytes. */
  lemma WrittenIntoEmpty(data: seq<byte>)
    ensures Written([], 0, data) == data
  {
    var r := Written([], 0, data);
    assert r == r[0..|data|];
  }

  class MemoryFile {
    var content: seq<byte>

    constructor ()
      ensures content == []
    {
      content := [];
    }

    constructor FromContent(content: seq<byte>)
      ensures this.content == content
    {
      this.content := content;
    }
  }

  datatype SeekOrigin = Begin | Current | End

  class MemoryFileStream {
    const file: MemoryFile
    var position: int

    constructor (file: MemoryFile)
      ensures this.file == file && position == 0
    {
      this.file := file;
      position := 0;
    }

    /** The length is read from the shared file each time, never cached. */
    function Length(): nat
      reads file
    {
      |file.content|
    }

    /**
     * Copies the bytes from the position up to `count` of them into
     * `buffer[offset..]` and advances the position past them.
     */
    method Read(buffer: array<byte>, offset: int, count: int) returns (n: int)
      requires 0 <= position <= Length()
      requires 0 <= offset && 0 <= count
      requires offset + Min(count, Length() - position) <= buffer.Length
      modifies this, buffer
      ensures n == Min(count, Length() - old(position))
      ensures 0 <= n && old(position) + n <= Length()
      ensures position == old(position) + n
      ensures buffer[..] == old(buffer[..offset]) + file.content[old(position)..old(position) + n] + old(buffer[offset + n..])
    {
      n := Min(count, Length() - position);
      forall i | 0 <= i < n {
        buffer[offset + i] := file.content[position + i];
      }
      position := position + n;
    }

    /** Moves the position; the end origin counts `offset` backwards from the length. */
    method Seek(offset: int, origin: SeekOrigin) returns (p: int)
      modifies this
      ensures position == match origin
                          case Begin => offset
                          case Current => old(position) + offset
                          case End => Length() - offset
      ensures p == position
    {
      match origin {
        case Begin => position := offset;
        case Current => position := position + offset;
        case End => position := Length() - offset;
      }
      p := position;
    }

    /**
     * Seek as the Stream convention defines it: for the end origin the new
     * position is the length plus `offset`, so a negative offset moves back
     * from the end.
     */
    method SeekCorrected(offset: int, origin: SeekOrigin) returns (p: int)
      modifies this
      ensures position == match origin
                          case Begin => offset
                          case Current => old(position) + offset
                          case End => Length() + offset
      ensures p == position
    {
      match origin {
        case Begin => position := offset;
        case Current => position := position + offset;
        case End => position := Length() + offset;
      }
      p := position;
    }

    /** Truncates or zero-extends the shared content to exactly `value` bytes. */
    method SetLength(value: int)
      requires 0 <= value
      modifies file
      ensures file.content == Resized(old(file.content), value)
      ensures position == old(position)
    {
      var newLength := value;
      var copied := Min(newLength, Length());
      file.content := file.content[..copied] + Zeros(newLength - copied);
    }

    /**
     * Writes `buffer[offset..offset + count]` at the position, growing the
     * shared content when it is too short, and advances the position past it.
     */
    method Write(buffer: array<byte>, offset: int, count: int)
      requires 0 <= position
      requires 0 <= offset && 0 <= count && offset + count <= buffer.Length
      modifies this, file
      ensures file.content == Written(old(file.content), old(position), buffer[offset..offset + count])
      ensures position == old(position) + count
    {
      if Length() - position < count {
        SetLength(position + count);
      }
      file.content := file.content[..position] + buffer[offset..offset + count] + file.content[position + count..];
      position := position + count;
    }
  }
}
