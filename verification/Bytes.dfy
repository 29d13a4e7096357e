/** Disk blocks as bytes, and the little-endian 32-bit words the kernel keeps in them. */
module Bytes {

  type Byte = x: int | 0 <= x < 256

  const BSIZE := 512
  const WORDS := 128
  const WORD := 0x1_0000_0000

  type Block = b: seq<Byte> | |b| == BSIZE witness seq(BSIZE, _ => 0)

  /** `((uint*)b)[i]`. */
  function Word(b: Block, i: nat): (v: nat)
    requires i < WORDS
    ensures v < WORD
  {
    b[4 * i] as int + 0x100 * (b[4 * i + 1] as int) + 0x1_0000 * (b[4 * i + 2] as int)
    + 0x100_0000 * (b[4 * i + 3] as int)
  }

  /** `((uint*)b)[i] = v`. */
  function SetWord(b: Block, i: nat, v: nat): Block
    requires i < WORDS && v < WORD
  {
    b[4 * i := v % 0x100][4 * i + 1 := v / 0x100 % 0x100]
     [4 * i + 2 := v / 0x1_0000 % 0x100][4 * i + 3 := v / 0x100_0000]
  }

  lemma WordOfSet(b: Block, i: nat, v: nat, j: nat)
    requires i < WORDS && v < WORD && j < WORDS
    ensures Word(SetWord(b, i, v), j) == if i == j then v else Word(b, j)
  {
    var c := SetWord(b, i, v);
    if i == j {
      assert c[4 * i] == v % 0x100 && c[4 * i + 1] == v / 0x100 % 0x100;
      assert c[4 * i + 2] == v / 0x1_0000 % 0x100 && c[4 * i + 3] == v / 0x100_0000;
      assert v == v / 0x100 * 0x100 + v % 0x100;
      assert v / 0x100 == v / 0x1_0000 * 0x100 + v / 0x100 % 0x100;
      assert v / 0x1_0000 == v / 0x100_0000 * 0x100 + v / 0x1_0000 % 0x100;
    } else {
      assert c[4 * j] == b[4 * j] && c[4 * j + 1] == b[4 * j + 1];
      assert c[4 * j + 2] == b[4 * j + 2] && c[4 * j + 3] == b[4 * j + 3];
    }
  }
}
