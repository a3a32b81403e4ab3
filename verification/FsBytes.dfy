/** What fs.c keeps in disk blocks: bytes, bitmap bits and 32-bit block numbers. */
module FsBytes {
  import opened Bytes

  type byte = bv8

  type Block = b: seq<byte> | |b| == 1024 witness seq(1024, _ => 0)

  /** A block of zero bytes. */
  function Zero(): (z: Block)
    ensures forall i | 0 <= i < 1024 :: z[i] == 0
  {
    seq(1024, _ => 0)
  }

  /** 1 << i */
  function Mask(i: nat): byte
    requires i < 8
  {
    match i
    case 0 => 1 case 1 => 2 case 2 => 4 case 3 => 8
    case 4 => 16 case 5 => 32 case 6 => 64 case _ => 128
  }

  lemma MaskShifts(i: nat)
    requires i < 8
    ensures Mask(i) == 1 << i
  {
  }

  predicate Bit(x: byte, i: nat)
    requires i < 8
  {
    x & Mask(i) != 0
  }

  lemma MaskBits(x: byte, i: nat, j: nat)
    requires i < 8 && j < 8
    ensures Bit(x | Mask(i), j) <==> i == j || Bit(x, j)
    ensures Bit(x & !Mask(i), j) <==> i != j && Bit(x, j)
  {
  }

  /** The j-th uint of a block, low byte first. */
  function Word(b: Block, j: nat): (v: nat)
    requires j < 256
    ensures v < 0x1_0000_0000
  {
    (b[4 * j] as int) + 0x100 * (b[4 * j + 1] as int) + 0x1_0000 * (b[4 * j + 2] as int)
      + 0x100_0000 * (b[4 * j + 3] as int)
  }

  lemma LowByteFirst(b: Block, j: nat)
    requires j < 256
    ensures var v := Word(b, j);
            && v % 0x100 == b[4 * j] as int && v / 0x100 % 0x100 == b[4 * j + 1] as int
            && v / 0x1_0000 % 0x100 == b[4 * j + 2] as int && v / 0x100_0000 == b[4 * j + 3] as int
  {
    var x, y, z, w := b[4 * j], b[4 * j + 1], b[4 * j + 2], b[4 * j + 3];
    WordDigits(x, y, z, w);
  }

  lemma WordDigits(x: byte, y: byte, z: byte, w: byte)
    ensures var v := (x as int) + 0x100 * (y as int) + 0x1_0000 * (z as int) + 0x100_0000 * (w as int);
            && v % 0x100 == x as int && v / 0x100 % 0x100 == y as int
            && v / 0x1_0000 % 0x100 == z as int && v / 0x100_0000 == w as int
  {
    Digits(x as int, y as int, z as int, w as int);
  }

  lemma Digits(x: nat, y: nat, z: nat, w: nat)
    requires x < 256 && y < 256 && z < 256
    ensures var v := x + 0x100 * y + 0x1_0000 * z + 0x100_0000 * w;
            v % 0x100 == x && v / 0x100 % 0x100 == y && v / 0x1_0000 % 0x100 == z && v / 0x100_0000 == w
  {
    var t := z + 0x100 * w;
    var u := y + 0x100 * t;
    Digit(x, u);
    Digit(y, t);
    Digit(z, w);
    Above(x + 0x100 * y, t);
    Above3(x + 0x100 * y + 0x1_0000 * z, w);
  }

  lemma Digit(x: nat, r: nat)
    requires x < 0x100
    ensures (x + 0x100 * r) % 0x100 == x && (x + 0x100 * r) / 0x100 == r
  {
  }

  lemma Above(x: nat, r: nat)
    requires x < 0x1_0000
    ensures (x + 0x1_0000 * r) / 0x1_0000 == r
  {
  }

  lemma Above3(x: nat, r: nat)
    requires x < 0x100_0000
    ensures (x + 0x100_0000 * r) / 0x100_0000 == r
  {
  }

  function SetWord(b: Block, j: nat, v: nat): Block
    requires j < 256 && v < 0x1_0000_0000
  {
    b[4 * j := (v % 256) as bv8][4 * j + 1 := (v / 256 % 256) as bv8]
    [4 * j + 2 := (v / 256 / 256 % 256) as bv8][4 * j + 3 := (v / 256 / 256 / 256) as bv8]
  }

  lemma LittleBytes(v: nat)
    requires v < 0x1_0000_0000
    ensures v % 256 + 0x100 * (v / 256 % 256) + 0x1_0000 * (v / 256 / 256 % 256) + 0x100_0000 * (v / 256 / 256 / 256)
            == v
    ensures v / 256 / 256 / 256 < 256
  {
  }

  lemma BlockSet4(b: Block, o: nat, x: byte, y: byte, z: byte, w: byte, k: nat)
    requires o + 4 <= 1024 && k < 1024
    ensures b[o := x][o + 1 := y][o + 2 := z][o + 3 := w][k]
         == if k == o then x else if k == o + 1 then y else if k == o + 2 then z else if k == o + 3 then w else b[k]
  {
  }

  lemma WordSet(b: Block, j: nat, v: nat, k: nat)
    requires j < 256 && k < 256 && v < 0x1_0000_0000
    ensures Word(SetWord(b, j, v), k) == if k == j then v else Word(b, k)
  {
    LittleBytes(v);
    var x, y, z, w := v % 256, v / 256 % 256, v / 256 / 256 % 256, v / 256 / 256 / 256;
    ByteValue(x);
    ByteValue(y);
    ByteValue(z);
    ByteValue(w);
    BlockSet4(b, 4 * j, x as bv8, y as bv8, z as bv8, w as bv8, 4 * k);
    BlockSet4(b, 4 * j, x as bv8, y as bv8, z as bv8, w as bv8, 4 * k + 1);
    BlockSet4(b, 4 * j, x as bv8, y as bv8, z as bv8, w as bv8, 4 * k + 2);
    BlockSet4(b, 4 * j, x as bv8, y as bv8, z as bv8, w as bv8, 4 * k + 3);
  }

  lemma WordZero(k: nat)
    requires k < 256
    ensures Word(Zero(), k) == 0
  {
  }
}
