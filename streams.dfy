/**
 * The Python file objects the archives wrap (BytesIO, FileIO, pipe ends,
 * temporary files): their bytes, a read cursor, whether they can seek,
 * whether they are closed, and their optional `name` attribute.
 */
module Streams {

  /** The `name` attribute of a file object: absent, a `str`, or some other
      object (a file descriptor number, a path object) shown by its `str()`. */
  datatype PyName = NoName | StrName(s: string) | OtherName(shown: string)

  class Stream {
    /** every byte the object will ever yield (for a pipe: what the far end writes) */
    const data: seq<int>
    const seekable: bool
    const name: PyName
    var pos: nat
    var closed: bool

    ghost predicate Valid()
      reads this
    {
      pos <= |data|
    }

    constructor (data: seq<int>, seekable: bool, name: PyName)
      ensures Valid()
      ensures this.data == data && this.seekable == seekable && this.name == name
      ensures pos == 0 && !closed
    {
      this.data := data;
      this.seekable := seekable;
      this.name := name;
      pos := 0;
      closed := false;
    }

    /** The bytes a `read()` from the current position would return. */
    function Remaining(): (r: seq<int>)
      reads this
      requires Valid()
      ensures |r| == |data| - pos && r == data[pos..]
    {
      data[pos..]
    }

    /** Read to the end of data. */
    method ReadAll() returns (bytes: seq<int>)
      requires Valid()
      modifies this`pos
      ensures Valid()
      ensures bytes == old(Remaining()) && pos == |data|
    {
      bytes := data[pos..];
      pos := |data|;
    }

    method Tell() returns (p: nat)
      requires Valid() && seekable
      ensures p == pos
    {
      p := pos;
    }

    /** Every seek in the system goes to 0, to the end or to a position
        saved by `Tell`, so positions past the end, which Python accepts,
        are not modelled. */
    method Seek(p: nat)
      requires seekable && p <= |data|
      modifies this`pos
      ensures Valid() && pos == p
    {
      pos := p;
    }

    method Close()
      modifies this`closed
      ensures closed
    {
      closed := true;
    }
  }
}
