/** The observable up-sizing contract of a stream data-width converter
    feeding a 64-bit output: input chunks are collected in arrival order, the
    first one in the least-significant position, and a word is emitted once
    eight bytes are held. */
module StreamConverter {
  import opened Words

  class UpConverter {
    /** Input width in bytes: 4 for a 32-to-64 converter, 2 for 16-to-64,
        1 for 8-to-64. */
    const chunk: nat
    /** Bytes received since the last emitted word, oldest first. */
    var buffer: seq<Byte>

    ghost predicate Valid()
      reads this
    {
      (chunk == 1 || chunk == 2 || chunk == 4) &&
      |buffer| < 8 && |buffer| % chunk == 0
    }

    constructor (chunk: nat)
      requires chunk == 1 || chunk == 2 || chunk == 4
      ensures Valid() && this.chunk == chunk && buffer == []
    {
      this.chunk := chunk;
      buffer := [];
    }

    /** One accepted input chunk (the output side is always ready). */
    method Push(data: seq<Byte>) returns (out: Option<Word>)
      requires Valid() && |data| == chunk
      modifies this
      ensures Valid()
      ensures |old(buffer)| + chunk == 8 ==>
                out == Some(PackWord(old(buffer) + data)) && buffer == []
      ensures |old(buffer)| + chunk < 8 ==>
                out == None && buffer == old(buffer) + data
    {
      assert |buffer| + chunk <= 8 by {
        if chunk == 2 { assert |buffer| <= 6; }
        if chunk == 4 { assert |buffer| <= 4; }
      }
      if |buffer| + chunk == 8 {
        out := Some(PackWord(buffer + data));
        buffer := [];
      } else {
        out := None;
        buffer := buffer + data;
        assert |buffer| % chunk == 0 by {
          if chunk == 2 { assert |buffer| == |old(buffer)| + 2; }
          if chunk == 4 { assert |buffer| == 4; }
        }
      }
    }
  }
}
