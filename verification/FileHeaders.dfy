/** The header of a file: where its data begins and whether a trailer is claimed
    (src/wire/file_header.rs). */
module FileHeaders {
  import opened Bytes
  import opened RecordScanning
  import opened RecordHeaders

  const FILE_HEADER_SIZE := 56
  const FH_HEADER_LENGTH := 8
  const FH_BIT_INFO := 20
  const FH_USER_HEADER_LEN := 24
  const FH_MAGIC_NUMBER := 28
  const FH_TRAILER_POS := 40
  const HIPO_FILE_UNIQUE_WORD := 0x4F50_4948
  const HIPO_VERSION := 6

  datatype FileHeader = FileHeader(headerLength: nat, userHeaderLength: nat, trailerPosition: nat) {
    /** The dictionary follows the header, the data follows the dictionary. */
    function FirstData(): nat { headerLength + userHeaderLength }
  }

  /** `FileHeader::parse`: the file's mark, either byte order, a version up to 6. */
  function ParseFileHeader(file: seq<byte>): (r: Option<FileHeader>)
    ensures r.Some? ==> FILE_HEADER_SIZE <= |file|
  {
    if |file| < FILE_HEADER_SIZE || ReadU32(file, 0) != HIPO_FILE_UNIQUE_WORD then None
    else
      var magic := ReadU32(file, FH_MAGIC_NUMBER);
      if magic != HEADER_MAGIC && magic != HEADER_MAGIC_BE then None
      else
        var big := magic == HEADER_MAGIC_BE;
        var version := Word(file, FH_BIT_INFO, big) % 256;
        if version == 0 || version > HIPO_VERSION then None
        else
          Some(FileHeader(Min(4 * Word(file, FH_HEADER_LENGTH, big), U32_LIMIT - 1), Word(file, FH_USER_HEADER_LEN, big),
                          LongWord(file, FH_TRAILER_POS, big)))
  }

  /** A file that claims no trailer opens to the records a strict scan finds after its header. */
  predicate OpensTo(file: seq<byte>, found: seq<Found>)
  {
    && ParseFileHeader(file).Some? && ParseFileHeader(file).value.trailerPosition == 0
    && Scan(file, ParseFileHeader(file).value.FirstData(), 0, false) == Some(found)
  }

  /** The file's mark, then thirteen words in one byte order. */
  function FileImage(words: seq<u32>, big: bool): (r: seq<byte>)
    ensures |r| == 4 + 4 * |words|
  {
    U32LE(HIPO_FILE_UNIQUE_WORD) + Image(words, big)
  }

  /** The words of a header after the mark. */
  predicate WritesFile(h: FileHeader, words: seq<u32>, big: bool)
  {
    && |words| == 13 && words[6] == HEADER_MAGIC
    && h.headerLength == (if 4 * words[1] as int < U32_LIMIT then 4 * words[1] as int else 0xffff_ffff)
    && h.userHeaderLength == words[5]
    && h.trailerPosition == Joined(words[9], words[10], big)
  }

  lemma WordAfterMark(words: seq<u32>, big: bool, rest: seq<byte>, k: nat)
    requires k < |words|
    ensures Word(FileImage(words, big) + rest, 4 + 4 * k, big) == words[k]
    ensures words[k] == HEADER_MAGIC ==>
      ReadU32(FileImage(words, big) + rest, 4 + 4 * k) == if big then HEADER_MAGIC_BE else HEADER_MAGIC
  {
    var s, w := FileImage(words, big) + rest, WordBytes(words[k], big);
    ImageAt(words, big, k);
    assert Image(words, big)[4 * k..4 * k + 4] == s[4 + 4 * k..8 + 4 * k];
    hide Image, FileImage;
    assert w[0] == s[4 + 4 * k] && w[1] == s[5 + 4 * k] && w[2] == s[6 + 4 * k] && w[3] == s[7 + 4 * k];
    assert U32LE(HEADER_MAGIC) == [0x00, 0x01, 0xda, 0xc0];
  }

  /** A header, whatever file follows it, parses back in either byte order exactly when its version is
      one of the six. */
  lemma FileHeaderParses(h: FileHeader, words: seq<u32>, big: bool, rest: seq<byte>)
    requires WritesFile(h, words, big)
    ensures ParseFileHeader(FileImage(words, big) + rest) == if 1 <= words[4] % 256 <= 6 then Some(h) else None
  {
    var file := FileImage(words, big) + rest;
    assert file[0..4] == U32LE(HIPO_FILE_UNIQUE_WORD);
    ReadU32OfWord(HIPO_FILE_UNIQUE_WORD, file, 0);
    hide FileImage, U32LE;
    WordAfterMark(words, big, rest, 1);
    WordAfterMark(words, big, rest, 4);
    WordAfterMark(words, big, rest, 5);
    WordAfterMark(words, big, rest, 6);
    WordAfterMark(words, big, rest, 9);
    WordAfterMark(words, big, rest, 10);
    hide Word, ReadU32;
  }

  /** Nothing parses as a file header without the letters HIPO in front and the mark of either byte order. */
  lemma OnlyMarkedFiles(file: seq<byte>)
    requires ParseFileHeader(file).Some?
    ensures |file| >= 56 && file[..4] == [0x48, 0x49, 0x50, 0x4f]
    ensures file[28..32] == [0x00, 0x01, 0xda, 0xc0] || file[28..32] == [0xc0, 0xda, 0x01, 0x00]
  {
    hide Word, ReadU32;
    WordOfReadU32(file, 0);
    WordOfReadU32(file, 28);
    assert file[..4] == file[0..4];
    assert U32LE(HIPO_FILE_UNIQUE_WORD) == [0x48, 0x49, 0x50, 0x4f];
    assert U32LE(HEADER_MAGIC) == [0x00, 0x01, 0xda, 0xc0];
    assert U32LE(HEADER_MAGIC_BE) == [0xc0, 0xda, 0x01, 0x00];
  }
}
