/** Disk blocks, and the numbers an indirect block holds. */
module Blocks {

  /** What an entry of a cache holds: nothing, what is on the disk, or what is not
      there yet. */
  datatype EntryState = Invalid | Clean | Dirty

  type Byte = x: int | 0 <= x < 256

  /** 512 bytes */
  type Block = b: seq<Byte> | |b| == 512 witness seq(512, _ => 0)

  function ZeroBlock(): (z: Block)
    ensures forall j :: 0 <= j < 512 ==> z[j] == 0
  {
    seq(512, _ => 0)
  }

  /** The 32-bit number in four bytes, the lowest first. */
  function Word(b: seq<Byte>, i: nat): (v: nat)
    requires i + 4 <= |b|
    ensures v < 0x1_0000_0000
  {
    (b[i] as int) + 256 * (b[i + 1] as int) + 65536 * (b[i + 2] as int) + 16777216 * (b[i + 3] as int)
  }

  function WordBytes(v: nat): (r: seq<Byte>)
    requires v < 0x1_0000_0000
    ensures |r| == 4
  {
    [v % 256, v / 256 % 256, v / 65536 % 256, v / 16777216]
  }

  /** ((int *)data)[k], for numbers that are not negative. */
  function Entry(b: Block, k: nat): (v: nat)
    requires k < 128
    ensures v < 0x1_0000_0000
  {
    Word(b, 4 * k)
  }

  function WithEntry(b: Block, k: nat, v: nat): Block
    requires k < 128 && v < 0x1_0000_0000
  {
    b[..4 * k] + WordBytes(v) + b[4 * k + 4..]
  }

  lemma FourBytes(v: nat)
    requires v < 0x1_0000_0000
    ensures v % 256 + 256 * (v / 256 % 256) + 65536 * (v / 65536 % 256) + 16777216 * (v / 16777216) == v
  {
    assert v / 65536 == v / 256 / 256 && v / 16777216 == v / 65536 / 256;
  }

  lemma EntryRoundTrip(b: Block, k: nat, v: nat, l: nat)
    requires k < 128 && v < 0x1_0000_0000 && l < 128
    ensures Entry(WithEntry(b, k, v), l) == if l == k then v else Entry(b, l)
  {
    if l == k {
      FourBytes(v);
    }
  }

  /** An entry takes up four bytes, the lowest first, and no others change. */
  lemma EntryBytes(b: Block, k: nat, v: nat)
    requires k < 128 && v < 0x1_0000_0000
    ensures var b' := WithEntry(b, k, v);
            && v == (b'[4 * k] as int) + 256 * ((b'[4 * k + 1] as int) + 256 * ((b'[4 * k + 2] as int) +
                    256 * (b'[4 * k + 3] as int)))
            && forall j :: 0 <= j < 512 && !(4 * k <= j < 4 * k + 4) ==> b'[j] == b[j]
  {
    FourBytes(v);
  }

  lemma NoEntries(k: nat)
    requires k < 128
    ensures Entry(ZeroBlock(), k) == 0
  {
  }
}
