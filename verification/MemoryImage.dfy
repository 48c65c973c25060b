/** Concrete memories given as 64-bit words, for exhibiting layouts. */
module MemoryImage {
  import opened Memory

  /** Word i at address 8 * i, little-endian; nothing else is readable. */
  function Image(words: seq<u64>): Mem {
    map a: nat | a < 8 * |words| :: LeBytes(words[a / 8], 8)[a % 8]
  }

  lemma {:induction false} LePrefix(v: nat, m: nat, n: nat)
    requires m <= n
    ensures LeBytes(v, m) == LeBytes(v, n)[..m]
  {
    if m > 0 { LePrefix(v / 256, m - 1, n - 1); }
  }

  /** The low bytes of a word are held at its address. */
  lemma BytesHeld(words: seq<u64>, i: nat, n: nat)
    requires i < |words| && n <= 8
    ensures Holds(Image(words), 8 * i, LeBytes(words[i], n))
  {
    hide LeBytes, Image;
    forall a: nat | 8 * i <= a < 8 * i + n
      ensures a in Image(words) && Image(words)[a] == LeBytes(words[i], n)[a - 8 * i]
    {
      ImageAt(words, i, a);
      PrefixAt(words[i], n, a - 8 * i);
    }
  }

  lemma PrefixAt(v: nat, n: nat, k: nat)
    requires k < n <= 8
    ensures LeBytes(v, n)[k] == LeBytes(v, 8)[k]
  {
    LePrefix(v, n, 8);
    hide LeBytes;
  }

  lemma ImageAt(words: seq<u64>, i: nat, a: nat)
    requires i < |words| && 8 * i <= a < 8 * i + 8
    ensures a in Image(words) && Image(words)[a] == LeBytes(words[i], 8)[a - 8 * i]
  {
    hide LeBytes;
    WithinWord(i, a);
  }

  lemma WithinWord(i: nat, a: nat)
    requires 8 * i <= a < 8 * i + 8
    ensures a / 8 == i && a % 8 == a - 8 * i
  {
  }

  /** A word is held at its address, and so is its low half if the word is small. */
  lemma WordHeld(words: seq<u64>, i: nat)
    requires i < |words|
    ensures Holds64(Image(words), 8 * i, words[i])
    ensures words[i] < 0x1_0000_0000 ==> Holds32(Image(words), 8 * i, words[i])
  {
    hide LeBytes, Holds;
    BytesHeld(words, i, 8);
    BytesHeld(words, i, 4);
  }

  lemma AllReadable(words: seq<u64>, addr: nat, n: nat)
    requires addr + n <= 8 * |words|
    ensures Readable(Image(words), addr, n)
  {
    hide LeBytes;
  }

  /** Addresses inside an image do not wrap around. */
  lemma AddInside(words: seq<u64>, i: nat, k: nat)
    requires i + k < |words| && 8 * |words| < U64
    ensures Add(8 * i, 8 * k) == 8 * (i + k)
  {
  }
}
