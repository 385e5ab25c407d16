/** Byte strings and the two result datatypes shared by the whole model. */
module Basics {

  type Bytes = seq<bv8>

  /** A byte read as a number: a sequence number, a dispatch byte or an AM identifier. */
  type U8 = x: int | 0 <= x < 256

  function ToByte(x: U8): bv8 {
    x as bv8
  }

  function FromByte(b: bv8): U8 {
    b as int
  }

  lemma {:induction false} NumberOfByte(x: U8)
    ensures FromByte(ToByte(x)) == x
  {
    if x == 0 {
      ZeroByte();
    } else {
      NumberOfByte(x - 1);
      var b := ToByte(x - 1);
      hide ToByte;
      NextByte(b);
      NumberDeterminesByte(x, b + 1);
    }
  }

  lemma ZeroByte()
    ensures FromByte(ToByte(0)) == 0
  {
  }

  lemma NextByte(b: bv8)
    requires FromByte(b) < 255
    ensures FromByte(b + 1) == FromByte(b) + 1
  {
  }

  lemma NumberDeterminesByte(x: U8, b: bv8)
    requires FromByte(b) == x
    ensures ToByte(x) == b
  {
  }

  datatype Option<+T> = None | Some(value: T)

  datatype Result<+T, +E> = Ok(value: T) | Err(error: E)

  /** The concatenation of a list of byte strings. */
  function Flatten(chunks: seq<Bytes>): Bytes {
    if chunks == [] then [] else Flatten(chunks[..|chunks| - 1]) + chunks[|chunks| - 1]
  }

  lemma {:induction false} FlattenConcat(a: seq<Bytes>, b: seq<Bytes>)
    ensures Flatten(a + b) == Flatten(a) + Flatten(b)
  {
    if b == [] {
      assert a + b == a;
    } else {
      var init := b[..|b| - 1];
      assert (a + b)[..|a + b| - 1] == a + init;
      FlattenConcat(a, init);
    }
  }
}
