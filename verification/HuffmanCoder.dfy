/** The writer of Huffman codes: codes of any number of bits, lowest bit first, packed
    into bytes, and padded to a whole byte at the end of a word. */
module HuffmanCoder {
  import opened Words
  import opened HuffmanTree
  import opened WordLayout

  /** A number's low n bits in two parts. */
  lemma {:induction false} SplitBits(v: nat, k: nat, n: nat)
    requires k <= n
    ensures ToBits(v, n) == ToBits(v, k) + ToBits(High(v, k), n - k)
  {
    if k > 0 {
      SplitBits(v / 2, k - 1, n - 1);
    }
  }

  /** The bits of a code are its path. */
  lemma {:induction false} PathBits(path: seq<bool>)
    ensures ToBits(Value(path), |path|) == path
  {
    if path != [] {
      PathBits(path[1..]);
      assert path == [path[0]] + path[1..];
    }
  }

  /** byte |= (code & mask) << at, for n bits of the code. */
  function OrInto(byte: seq<bool>, at: nat, code: nat, n: nat): (r: seq<bool>)
    requires |byte| == 8 && at + n <= 8
    ensures |r| == 8
  {
    Or(byte, Zeros(at) + ToBits(code, n) + Zeros(8 - at - n))
  }

  lemma OrIntoBits(byte: seq<bool>, at: nat, code: nat, n: nat)
    requires |byte| == 8 && at + n <= 8 && forall i :: at <= i < 8 ==> !byte[i]
    ensures OrInto(byte, at, code, n)[..at + n] == byte[..at] + ToBits(code, n)
    ensures forall i :: at + n <= i < 8 ==> !OrInto(byte, at, code, n)[i]
  {
    var s := Zeros(at) + ToBits(code, n) + Zeros(8 - at - n);
    var r := OrInto(byte, at, code, n);
    forall i | 0 <= i < at + n ensures r[i] == (byte[..at] + ToBits(code, n))[i] {
      assert r[i] == (byte[i] || s[i]);
    }
    forall i | at + n <= i < 8 ensures !r[i] {
      assert r[i] == (byte[i] || s[i]);
    }
  }

  class Coder {
    var w: seq<bool>
    var outputBits: nat
    var outputByte: seq<bool>

    ghost predicate Valid()
      reads this
    {
      && |w| % 8 == 0 && outputBits < 8 && |outputByte| == 8
      && forall i :: outputBits <= i < 8 ==> !outputByte[i]
    }

    /** All bits so far. */
    ghost function Bits(): seq<bool>
      reads this
      requires Valid()
    {
      w + outputByte[..outputBits]
    }

    constructor ()
      ensures Valid() && w == [] && outputBits == 0
    {
      w, outputBits, outputByte := [], 0, Zeros(8);
    }

    method Encode(code: nat, codeBits: nat)
      requires Valid()
      modifies this
      ensures Valid() && Bits() == old(Bits()) + ToBits(code, codeBits)
    {
      var c: nat, n: nat := code, codeBits;
      while n > 0
        invariant Valid() && n <= codeBits && Bits() + ToBits(c, n) == old(Bits()) + ToBits(code, codeBits)
      {
        var bitsUsed := if outputBits + n > 8 then 8 - outputBits else n;
        ghost var before := Bits();
        SplitBits(c, bitsUsed, n);
        WriteBits(c, bitsUsed);
        assert Bits() + ToBits(High(c, bitsUsed), n - bitsUsed) == before + ToBits(c, n);
        c, n := High(c, bitsUsed), n - bitsUsed;
      }
    }

    /** As many bits as fit the current byte. */
    method WriteBits(code: nat, n: nat)
      requires Valid() && outputBits + n <= 8
      modifies this
      ensures Valid() && Bits() == old(Bits()) + ToBits(code, n)
    {
      OrIntoBits(outputByte, outputBits, code, n);
      outputByte := OrInto(outputByte, outputBits, code, n);
      outputBits := outputBits + n;
      if outputBits == 8 {
        assert outputByte[..8] == outputByte;
        w := w + outputByte;
        outputBits, outputByte := 0, Zeros(8);
      }
    }

    /** Pad to a whole byte. */
    method Flush()
      requires Valid()
      modifies this
      ensures Valid() && outputBits == 0 && old(Bits()) <= Bits() == w && |w| == 8 * NextByte(|old(Bits())|)
    {
      ghost var p := |w| / 8;
      assert |w| == 8 * p;
      NextByteOf(p, outputBits);
      if outputBits > 0 {
        w := w + outputByte;
        outputBits, outputByte := 0, Zeros(8);
      }
    }

    /** Uncoded characters, at a byte boundary. */
    method Write(bytes: seq<nat>)
      requires Valid() && outputBits == 0 && forall i :: 0 <= i < |bytes| ==> bytes[i] < 256
      modifies this
      ensures Valid() && outputBits == 0 && Bits() == old(Bits()) + Raw(bytes)
    {
      w := w + Raw(bytes);
    }
  }

  /** The bits of a sequence of bytes. */
  function Raw(bytes: seq<nat>): (r: seq<bool>)
    ensures |r| == 8 * |bytes|
  {
    if bytes == [] then [] else Raw(bytes[..|bytes| - 1]) + ToBits(bytes[|bytes| - 1], 8)
  }
}
