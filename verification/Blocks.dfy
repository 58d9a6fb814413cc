/** Disk blocks: BSIZE bytes, also read as little-endian 32-bit words
    (kernel/fs.h:6, and the header and indirect blocks of log.c and fs.c). */
module Blocks {
  const BSIZE: nat := 1024
  const WORDS: nat := 256

  type Byte = b: int | 0 <= b < 256
  type Word = w: int | 0 <= w < 0x1_0000_0000
  type Block = s: seq<Byte> | |s| == BSIZE witness seq(BSIZE, _ => 0)

  function Zeros(): (b: Block) {
    seq(BSIZE, _ => 0)
  }

  function Join(b0: Byte, b1: Byte, b2: Byte, b3: Byte): (w: Word) {
    var i0: int, i1: int, i2: int, i3: int := b0, b1, b2, b3;
    i0 + 0x100 * i1 + 0x1_0000 * i2 + 0x100_0000 * i3
  }

  function GetWord(b: Block, i: nat): (w: Word)
    requires i < WORDS
  {
    Join(b[4 * i], b[4 * i + 1], b[4 * i + 2], b[4 * i + 3])
  }

  function SetWord(b: Block, i: nat, w: Word): (r: Block)
    requires i < WORDS
  {
    b[4 * i := w % 0x100][4 * i + 1 := w / 0x100 % 0x100]
     [4 * i + 2 := w / 0x1_0000 % 0x100][4 * i + 3 := w / 0x100_0000]
  }

  lemma JoinSplit(w: Word)
    ensures Join(w % 0x100, w / 0x100 % 0x100, w / 0x1_0000 % 0x100, w / 0x100_0000) == w
  {
    var q1, q2 := w / 0x100, w / 0x1_0000;
    assert q2 == q1 / 0x100;
    assert w / 0x100_0000 == q2 / 0x100;
  }

  /** Storing a word changes that word and no other. */
  lemma SetGetWord(b: Block, i: nat, w: Word, j: nat)
    requires i < WORDS && j < WORDS
    ensures GetWord(SetWord(b, i, w), j) == if i == j then w else GetWord(b, j)
  {
    JoinSplit(w);
  }

  lemma ZeroWord(i: nat)
    requires i < WORDS
    ensures GetWord(Zeros(), i) == 0
  {
  }
}
