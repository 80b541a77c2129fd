/** The glyph codec: the code page 437 (Wingdings variant) table that maps a
    character to the byte index of its glyph in the 16x16 font atlas and back.
    The table itself belongs to an external crate that is not part of this
    model; it is taken here as a value `CodePage` holding the 256 characters of
    the atlas in slot order, and encode/decode are derived from it. */
module Codec {
  import opened Bytes

  datatype CodePage = CodePage(table: seq<char>) {

    /** A code page has one character per glyph slot of the atlas. */
    predicate Valid() {
      |table| == 256
    }

    /** No character appears in two slots. */
    predicate Injective() {
      forall i, j | 0 <= i < j < |table| :: table[i] != table[j]
    }

    /** `decode`: total, every byte names a character. */
    function Decode(b: u8): (c: char)
      requires Valid()
      ensures c in table
    {
      table[b as int]
    }

    /** `encode`: partial, `None` exactly for characters outside the table;
        otherwise the first slot that holds the character. */
    function Encode(c: char): (r: Option<u8>)
      requires Valid()
      ensures r.None? <==> c !in table
      ensures r.Some? ==> table[r.value as int] == c
      ensures r.Some? ==> forall k | 0 <= k < r.value as int :: table[k] != c
    {
      match Find(table, c, 0)
      case None => None
      case Some(i) => Some(i as u8)
    }
  }

  /** The first index at or after `from` where `t` holds `c`. */
  function Find(t: seq<char>, c: char, from: nat): (r: Option<nat>)
    requires from <= |t|
    ensures r.None? <==> c !in t[from..]
    ensures r.Some? ==> from <= r.value < |t| && t[r.value] == c
    ensures r.Some? ==> forall k | from <= k < r.value :: t[k] != c
    decreases |t| - from
  {
    if from == |t| then None
    else if t[from] == c then Some(from)
    else
      assert t[from..] == [t[from]] + t[from + 1..];
      Find(t, c, from + 1)
  }

  /** decode(encode(c)) == c for every encodable character. */
  lemma DecodeEncode(cp: CodePage, c: char)
    requires cp.Valid() && cp.Encode(c).Some?
    ensures cp.Decode(cp.Encode(c).value) == c
  {
  }

  /** On an injective table encode(decode(b)) == b: the codec is a bijection
      between the table's characters and the 256 byte values. */
  lemma EncodeDecode(cp: CodePage, b: u8)
    requires cp.Valid() && cp.Injective()
    ensures cp.Encode(cp.Decode(b)) == Some(b)
  {
    var r := cp.Encode(cp.Decode(b));
    assert r.Some?;
  }

  /** `ch_to_u8`: encodes a character, panicking (`unwrap`) when it has no glyph. */
  function CharToByte(cp: CodePage, c: char): (b: u8)
    requires cp.Valid() && c in cp.table
    ensures cp.Decode(b) == c
  {
    cp.Encode(c).value
  }

  /** `u8_to_ch`: decodes a glyph byte; the result is always encodable again. */
  function ByteToChar(cp: CodePage, b: u8): (c: char)
    requires cp.Valid()
    ensures cp.Encode(c).Some?
  {
    cp.Decode(b)
  }
}
