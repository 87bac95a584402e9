/** Record headers as they are written, in either byte order (src/wire/record_header.rs). */
module RecordHeaders {
  import opened Bytes
  import opened RecordScanning

  const HEADER_WORDS := 14

  function Reversed(s: seq<byte>): (r: seq<byte>)
    requires |s| == 4
    ensures |r| == 4
  {
    [s[3], s[2], s[1], s[0]]
  }

  function WordBytes(w: u32, big: bool): (r: seq<byte>)
    ensures |r| == 4
  {
    if big then Reversed(U32LE(w)) else U32LE(w)
  }

  /** The words one after the other. */
  function Image(words: seq<u32>, big: bool): (r: seq<byte>)
    ensures |r| == 4 * |words|
  {
    if words == [] then [] else WordBytes(words[0], big) + Image(words[1..], big)
  }

  lemma {:induction false} ImageAt(words: seq<u32>, big: bool, k: nat)
    requires k < |words|
    ensures Image(words, big)[4 * k..4 * k + 4] == WordBytes(words[k], big)
  {
    hide WordBytes;
    if k > 0 {
      ImageAt(words[1..], big, k - 1);
      assert Image(words, big)[4 * k..4 * k + 4] == Image(words[1..], big)[4 * (k - 1)..4 * (k - 1) + 4];
    }
  }

  /** A word reads back in its own byte order; read in the wrong one it comes out reversed. */
  lemma WordOfImage(words: seq<u32>, big: bool, k: nat)
    requires k < |words|
    ensures Word(Image(words, big), 4 * k, big) == words[k]
  {
    var s, w := Image(words, big), WordBytes(words[k], big);
    ImageAt(words, big, k);
    hide Image;
    assert w[0] == s[4 * k] && w[1] == s[4 * k + 1] && w[2] == s[4 * k + 2] && w[3] == s[4 * k + 3];
  }

  lemma MagicOfImage(words: seq<u32>, big: bool)
    requires |words| == HEADER_WORDS && words[7] == HEADER_MAGIC
    ensures ReadU32(Image(words, big), RH_MAGIC_NUMBER) == if big then HEADER_MAGIC_BE else HEADER_MAGIC
  {
    var s := Image(words, big);
    ImageAt(words, big, 7);
    hide Image;
    assert U32LE(HEADER_MAGIC) == [0x00, 0x01, 0xda, 0xc0];
    var w := WordBytes(words[7], big);
    assert w[0] == s[28] && w[1] == s[29] && w[2] == s[30] && w[3] == s[31];
  }

  /** A 64-bit word in its two halves: the low one first, or the high one. */
  function Joined(a: u32, b: u32, big: bool): nat
  {
    if big then U32_LIMIT * a + b else a + U32_LIMIT * b
  }

  /** The words of a header: what `write` puts down for the fields the index needs, whatever the other
      words hold. */
  predicate Writes(h: RecordHeader, words: seq<u32>, big: bool)
  {
    && |words| == HEADER_WORDS && words[7] == HEADER_MAGIC
    && h.recordLength == 4 * words[0] as int
    && h.headerLength == (if 4 * words[2] as int < U32_LIMIT then 4 * words[2] as int else 0xffff_ffff)
    && h.eventCount == words[3] && h.indexArrayLength == words[4] && h.userHeaderLength == words[6]
    && h.userHeaderPadding == words[5] / 0x10_0000 % 4 && h.dataLength == words[8]
    && h.compression == words[9] / 0x1000_0000
    && h.userWord1 == Joined(words[10], words[11], big)
  }

  /** A written header parses back to itself in either byte order, exactly when its codec is known
      and it is no longer than its record; otherwise it is refused. */
  lemma WrittenParses(h: RecordHeader, words: seq<u32>, big: bool)
    requires Writes(h, words, big)
    ensures ParseRecordHeader(Image(words, big))
      == if h.compression <= 14 && h.headerLength <= h.recordLength then Some(h) else None
  {
    MagicOfImage(words, big);
    WordOfImage(words, big, 0);
    WordOfImage(words, big, 2);
    WordOfImage(words, big, 3);
    WordOfImage(words, big, 4);
    WordOfImage(words, big, 5);
    WordOfImage(words, big, 6);
    WordOfImage(words, big, 8);
    WordOfImage(words, big, 9);
    WordOfImage(words, big, 10);
    WordOfImage(words, big, 11);
    hide Image, Word, ReadU32;
  }

  /** Wherever the 56 bytes of a header stand in a file, at its very end too, they parse as they do alone. */
  lemma HeaderAnywhere(before: seq<byte>, header: seq<byte>, after: seq<byte>)
    requires |header| == 56
    ensures ParseAt(before + header + after, |before|) == ParseRecordHeader(header)
  {
    hide ParseRecordHeader;
    var file := before + header + after;
    assert file[|before|..|before| + 56] == header;
  }

  /** Nothing parses without all its bytes, or without the mark in one byte order or the other. */
  lemma OnlyMarkedParse(s: seq<byte>)
    requires ParseRecordHeader(s).Some?
    ensures |s| >= 56 && (s[28..32] == [0x00, 0x01, 0xda, 0xc0] || s[28..32] == [0xc0, 0xda, 0x01, 0x00])
  {
    hide Word, ReadU32;
    WordOfReadU32(s, 28);
    assert U32LE(HEADER_MAGIC) == [0x00, 0x01, 0xda, 0xc0];
    assert U32LE(HEADER_MAGIC_BE) == [0xc0, 0xda, 0x01, 0x00];
  }
}
