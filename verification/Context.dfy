/** stbi__context: the bytes an image is read from, in memory. */
module Context {
  import opened Bits

  /** The next byte of the unread input; past the end the reader yields zeros. */
  function Head(rest: seq<byte>): byte {
    if rest == [] then 0 else rest[0]
  }

  function Tail(rest: seq<byte>): seq<byte> {
    if rest == [] then [] else rest[1..]
  }

  function Drop(rest: seq<byte>, n: nat): seq<byte> {
    if n <= |rest| then rest[n..] else []
  }

  /** The bytes being read; past the end they are zeros. */
  class Source {
    const buffer: seq<byte>
    var at: nat

    constructor (data: seq<byte>)
      ensures buffer == data && Rest() == data
    {
      buffer := data;
      at := 0;
    }

    ghost function Rest(): seq<byte>
      reads this
    {
      Drop(buffer, at)
    }

    method Get8() returns (b: byte)
      modifies this
      ensures b == Head(old(Rest())) && Rest() == Tail(old(Rest()))
    {
      if at < |buffer| {
        b := buffer[at];
        at := at + 1;
      } else {
        b := 0;
      }
    }

    method Skip(n: nat)
      modifies this
      ensures Rest() == Drop(old(Rest()), n)
    {
      at := at + n;
    }
  }
}
