/** Disk blocks as bytes, and the 32-bit little-endian words the kernel stores in them
    (the log header and the indirect block of an inode are arrays of such words). */
module Blocks {
  const BSIZE: nat := 1024  // kernel/fs.h
  const WORDS: nat := 256  // BSIZE / sizeof(uint)
  const WORDLIMIT: nat := 0x1_0000_0000

  type byte = x: int | 0 <= x < 256
  type word = x: int | 0 <= x < WORDLIMIT

  predicate Distinct(s: seq<nat>) {
    forall i, j | 0 <= i < j < |s| :: s[i] != s[j]
  }

  // Counting distinct numbers.

  function Elements(s: seq<nat>): (r: set<nat>) {
    set k | k in s
  }

  lemma ElementsStep(s: seq<nat>, t: nat)
    requires t < |s|
    ensures Elements(s[..t + 1]) == Elements(s[..t]) + {s[t]}
  {
    assert s[..t + 1] == s[..t] + [s[t]];
  }

  lemma {:induction false} DistinctSize(s: seq<nat>)
    requires Distinct(s)
    ensures |Elements(s)| == |s|
  {
    if s != [] {
      var t := |s| - 1;
      DistinctSize(s[..t]);
      ElementsStep(s, t);
      assert s[..t + 1] == s && s[t] !in Elements(s[..t]);
    }
  }

  lemma SubsetSize(a: set<nat>, b: set<nat>)
    requires a <= b
    ensures |a| <= |b|
  {
    assert b == a + (b - a);
  }

  lemma DistinctBound(s: seq<nat>, bound: set<nat>)
    requires Distinct(s) && forall x | x in s :: x in bound
    ensures |s| <= |bound|
  {
    DistinctSize(s);
    SubsetSize(Elements(s), bound);
  }

  lemma OneMoreElement(s: set<nat>, x: nat)
    ensures |s + {x}| <= |s| + 1
  {
  }

  lemma {:induction false} RangeSize(a: nat, n: nat, s: set<nat>)
    requires forall k | k in s :: a <= k < a + n
    ensures |s| <= n
  {
    if n == 0 {
      assert s == {};
    } else {
      var last := a + n - 1;
      RangeSize(a, n - 1, s - {last});
      SubsetSize(s, (s - {last}) + {last});
    }
  }

  // Blocks.

  datatype RawBlock = RawBlock(bytes: seq<byte>)
  type Block = b: RawBlock | |b.bytes| == BSIZE witness RawBlock(seq(BSIZE, _ => 0))

  /** A block of zeros. */
  function ZeroBlock(): (b: Block) {
    RawBlock(seq(BSIZE, _ => 0))
  }

  /** Word i of a block, as a 32-bit little-endian number. */
  function WordAt(b: Block, i: nat): (w: word)
    requires i < WORDS
  {
    var b0: int, b1: int, b2: int, b3: int := b.bytes[4 * i], b.bytes[4 * i + 1], b.bytes[4 * i + 2],
                                              b.bytes[4 * i + 3];
    b0 + 0x100 * b1 + 0x1_0000 * b2 + 0x100_0000 * b3
  }

  /** The block with word i replaced. */
  function PutWord(b: Block, i: nat, w: word): (r: Block)
    requires i < WORDS
  {
    RawBlock(b.bytes[4 * i := w % 0x100]
             [4 * i + 1 := w / 0x100 % 0x100]
             [4 * i + 2 := w / 0x1_0000 % 0x100]
             [4 * i + 3 := w / 0x100_0000])
  }

  /** A word reads back what was last put there, and no other word changes. */
  lemma PutWordAt(b: Block, i: nat, w: word, j: nat)
    requires i < WORDS && j < WORDS
    ensures WordAt(PutWord(b, i, w), j) == if i == j then w else WordAt(b, j)
  {
    if i == j {
      WordBytes(w);
    }
  }

  lemma WordBytes(w: word)
    ensures w == w % 0x100 + 0x100 * (w / 0x100 % 0x100) + 0x1_0000 * (w / 0x1_0000 % 0x100)
                 + 0x100_0000 * (w / 0x100_0000)
  {
    var w1 := w / 0x100;
    var w2 := w1 / 0x100;
    assert w2 == w / 0x1_0000;
    assert w2 / 0x100 == w / 0x100_0000;
  }

  lemma ZeroWords(i: nat)
    requires i < WORDS
    ensures WordAt(ZeroBlock(), i) == 0
  {
  }

  /** The number stored in the n bytes from at on, the lowest first. */
  function NumberAt(b: Block, at: nat, n: nat): (x: nat)
    requires at + n <= BSIZE
    decreases n
  {
    if n == 0 then 0 else b.bytes[at] as nat + 0x100 * NumberAt(b, at + 1, n - 1)
  }

  lemma NumberShort(b: Block, at: nat)
    requires at + 2 <= BSIZE
    ensures NumberAt(b, at, 2) == b.bytes[at] as nat + 0x100 * b.bytes[at + 1] as nat
  {
    assert NumberAt(b, at + 1, 1) == b.bytes[at + 1] + 0x100 * NumberAt(b, at + 2, 0);
  }

  /** A word is stored in four bytes, and its halves in two each. */
  lemma NumberWord(b: Block, j: nat)
    requires j < WORDS
    ensures WordAt(b, j) == NumberAt(b, 4 * j, 4)
    ensures WordAt(b, j) % 0x1_0000 == NumberAt(b, 4 * j, 2) && WordAt(b, j) / 0x1_0000 == NumberAt(b, 4 * j + 2, 2)
  {
    NumberShort(b, 4 * j);
    NumberShort(b, 4 * j + 2);
    var low, high := NumberAt(b, 4 * j, 2), NumberAt(b, 4 * j + 2, 2);
    assert NumberAt(b, 4 * j, 4) == b.bytes[4 * j] + 0x100 * NumberAt(b, 4 * j + 1, 3);
    assert NumberAt(b, 4 * j + 1, 3) == b.bytes[4 * j + 1] + 0x100 * high;
    assert WordAt(b, j) == low + 0x1_0000 * high;
  }
}
