/** Code as bytes at an address, read one 32-bit word at a time. */
module CodeMemory {
  import opened Words

  /** Code is fetched from its own byte sequence, placed at address `start`. */
  datatype Code = Code(start: int, bytes: seq<Byte>)

  /** The instruction word at an address of the code, if it lies within the code. */
  function Fetch(code: Code, pc: int): Option<Word> {
    var k := pc - code.start;
    if 0 <= k && k + 4 <= |code.bytes| then
      Some(WordOf(code.bytes[k], code.bytes[k + 1], code.bytes[k + 2], code.bytes[k + 3]))
    else None
  }

  /** Byte b of a word, the least significant first. */
  function ExtractByte(v: Word, b: nat): Byte
    requires b < 4
  {
    v / (if b == 0 then 1 else if b == 1 then 0x100 else if b == 2 then 0x1_0000 else 0x100_0000) % 0x100
  }

  lemma ExtractedBytes(v: Word)
    ensures v == WordOf(ExtractByte(v, 0), ExtractByte(v, 1), ExtractByte(v, 2), ExtractByte(v, 3))
  {
    hide WordOf;
    BytesOfWord(v);
    var top := v / 0x100_0000;
    assert v == 0x100_0000 * top + v % 0x100_0000;
    assert 0 <= top < 0x100 && v / 1 == v;
  }
}
