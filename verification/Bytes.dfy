/** File contents as bytes, and the encodings the history files use. */
module Bytes {
  import opened Samples

  type Byte = b: int | 0 <= b < 256

  /** A byte of a file. Integers and text are plain bytes. The four bytes of a float
      are kept symbolically, each knowing the reading it belongs to and its place in
      it, so that a reading survives a write and a read without naming its bits. */
  datatype FileByte = Raw(b: Byte) | FloatPart(reading: Reading, part: nat)

  type Image = seq<FileByte>

  const TWO32: nat := 0x1_0000_0000
  const TWO63: int := 0x8000_0000_0000_0000
  const TWO64: nat := 0x1_0000_0000_0000_0000

  /** Value of a byte when it is read as part of an integer or of text. What one byte
      of a float image would read as is outside the model. */
  function ByteValue(b: FileByte): Byte
  {
    match b
    case Raw(v) => v
    case FloatPart(_, _) => 255
  }

  function Zeros(n: nat): (z: Image)
    ensures |z| == n
  {
    seq(n, _ => Raw(0))
  }

  // ------------------------------------------------------------ integers

  function Pow256(k: nat): (p: nat)
    ensures p > 0
  {
    if k == 0 then 1 else 256 * Pow256(k - 1)
  }

  /** Little-endian, low byte first, as memcpy leaves it on both target CPUs. */
  function EncodeLE(n: nat, width: nat): (s: Image)
    ensures |s| == width
  {
    if width == 0 then [] else [Raw(n % 256)] + EncodeLE(n / 256, width - 1)
  }

  function DecodeLE(s: Image): nat
  {
    if s == [] then 0 else ByteValue(s[0]) + 256 * DecodeLE(s[1..])
  }

  lemma {:induction false} DecodeEncodeLE(n: nat, width: nat)
    requires n < Pow256(width)
    ensures DecodeLE(EncodeLE(n, width)) == n
    decreases width
  {
    if width > 0 {
      var s := EncodeLE(n, width);
      DecodeEncodeLE(n / 256, width - 1);
      assert s[1..] == EncodeLE(n / 256, width - 1);
    }
  }

  lemma {:induction false} Pow256Values()
    ensures Pow256(4) == TWO32 && Pow256(8) == TWO64
  {
    assert Pow256(2) == 65536;
    assert Pow256(4) == 256 * (256 * Pow256(2));
    assert Pow256(6) == 256 * (256 * Pow256(4));
    assert Pow256(8) == 256 * (256 * Pow256(6));
  }

  function EncodeU32(n: nat): (s: Image)
    ensures |s| == 4
  {
    EncodeLE(n, 4)
  }

  lemma {:induction false} DecodeEncodeU32(n: nat)
    requires n < TWO32
    ensures DecodeLE(EncodeU32(n)) == n
  {
    Pow256Values();
    DecodeEncodeLE(n, 4);
  }

  predicate IsInt64(t: int) { -TWO63 <= t < TWO63 }

  function EncodeI64(t: int): (s: Image)
    requires IsInt64(t)
    ensures |s| == 8
  {
    EncodeLE(if t < 0 then t + TWO64 else t, 8)
  }

  /** Two's complement: the top half of the unsigned range is the negative numbers. */
  function DecodeI64(s: Image): (t: int)
    ensures IsInt64(t)
  {
    var u := DecodeLE(s) % TWO64;
    if u >= TWO63 then u - TWO64 else u
  }

  lemma {:induction false} DecodeEncodeI64(t: int)
    requires IsInt64(t)
    ensures DecodeI64(EncodeI64(t)) == t
  {
    Pow256Values();
    DecodeEncodeLE(if t < 0 then t + TWO64 else t, 8);
  }

  // -------------------------------------------------------------- floats

  function EncodeFloat(r: Reading): (s: Image)
    ensures |s| == 4
  {
    [FloatPart(r, 0), FloatPart(r, 1), FloatPart(r, 2), FloatPart(r, 3)]
  }

  /** Four parts of one float give it back and four zero bytes are 0.0. Other bit
      patterns never occur in a slot the index covers; they read as absent here. */
  function DecodeFloat(s: Image): Reading
    requires |s| == 4
  {
    if s[0].FloatPart? && s == EncodeFloat(s[0].reading) then s[0].reading
    else if s == Zeros(4) then Present(0.0)
    else Absent
  }

  function EncodeFloats(row: Row): (s: Image)
    ensures |s| == 4 * |row|
  {
    if row == [] then [] else EncodeFloat(row[0]) + EncodeFloats(row[1..])
  }

  lemma {:induction false} EncodeFloatsAt(row: Row, i: nat)
    requires i < |row|
    ensures EncodeFloats(row)[4 * i..4 * i + 4] == EncodeFloat(row[i])
    decreases i
  {
    var s := EncodeFloats(row);
    if i == 0 {
      assert s[0..4] == EncodeFloat(row[0]);
    } else {
      EncodeFloatsAt(row[1..], i - 1);
      assert s[4..] == EncodeFloats(row[1..]);
      assert s[4 * i..4 * i + 4] == s[4..][4 * (i - 1)..4 * (i - 1) + 4];
    }
  }

  // ---------------------------------------------------------- file writes

  /** pwrite: overwrites in place, and a write past the end fills the gap with zeros. */
  function Splice(image: Image, offset: nat, data: Image): (r: Image)
    ensures data == [] ==> r == image
    ensures data != [] ==> |r| == if offset + |data| < |image| then |image| else offset + |data|
    ensures data != [] ==> r[offset..offset + |data|] == data
    ensures forall i :: 0 <= i < |image| && !(offset <= i < offset + |data|) ==> r[i] == image[i]
    ensures data != [] ==> forall i :: |image| <= i < offset ==> r[i] == Raw(0)
  {
    if data == [] then image
    else
      var base := if |image| < offset then image + Zeros(offset - |image|) else image;
      base[..offset] + data + (if offset + |data| < |image| then image[offset + |data|..] else [])
  }

  /** ftruncate: cuts the file, or extends it with zeros. */
  function Resize(image: Image, size: nat): (r: Image)
    ensures |r| == size
    ensures forall i :: 0 <= i < |image| && i < size ==> r[i] == image[i]
    ensures forall i :: |image| <= i < size ==> r[i] == Raw(0)
  {
    if size <= |image| then image[..size] else image + Zeros(size - |image|)
  }

  /** A range that does not meet the written one reads as before. */
  lemma {:induction false} SpliceElsewhere(image: Image, offset: nat, data: Image, lo: nat, hi: nat)
    requires lo <= hi <= |image| && (hi <= offset || offset + |data| <= lo)
    ensures hi <= |Splice(image, offset, data)|
    ensures Splice(image, offset, data)[lo..hi] == image[lo..hi]
  {
  }
}
