/**
 The PNG chunk the image fixtures write, against a reader of that layout (section 3.2 of RFC 2083).
 */
module PngChunk {
  import opened Crc32
  import opened CrcBursts

  // Big-endian bytes of a length or a checksum.
  function WordBytes(w: Word): (bytes: seq<Byte>)
    ensures |bytes| == 4
  {
    [ByteAt(w, 24), ByteAt(w, 16), ByteAt(w, 8), ByteAt(w, 0)]
  }

  function ByteAt(w: Word, shift: bv6): Byte
    requires shift <= 24
  {
    ((w >> shift) & 0xff) as Byte
  }

  function ReadWord(s: seq<Byte>): Word
    requires |s| >= 4
  {
    (Wide(s[0]) << 24) | (Wide(s[1]) << 16) | (Wide(s[2]) << 8) | Wide(s[3])
  }

  lemma WordRoundTrip(w: Word)
    ensures ReadWord(WordBytes(w)) == w
  {
  }

  /** Most significant byte first. */
  lemma BigEndian(a: Byte, b: Byte, c: Byte, d: Byte)
    ensures WordBytes(0x01020304) == [0x01, 0x02, 0x03, 0x04]
    ensures WordBytes((Wide(a) << 24) | (Wide(b) << 16) | (Wide(c) << 8) | Wide(d)) == [a, b, c, d]
  {
  }

  // A buffer's length as the 32-bit word that is written for it.
  ghost predicate IsLength(len: Word, data: seq<Byte>) { len as int == |data| }

  /** Length, type, data, and the checksum of type and data. */
  function ChunkBytes(len: Word, kind: seq<Byte>, data: seq<Byte>): seq<Byte> {
    WordBytes(len) + (kind + data) + WordBytes(Reference(kind + data))
  }

  datatype Parsed = Chunk(kind: seq<Byte>, data: seq<Byte>, rest: seq<Byte>) | Truncated | BadChecksum

  /** A reader of the layout: it rejects a chunk whose checksum does not match. */
  function ReadChunk(s: seq<Byte>): Parsed {
    if |s| < 12 then Truncated else ReadBody(ReadWord(s) as int, s[4..])
  }

  function ReadBody(n: nat, s: seq<Byte>): Parsed {
    if |s| < n + 8 then Truncated
    else if ReadWord(s[4 + n..]) == Reference(s[..4 + n]) then Chunk(s[..4], s[4..4 + n], s[8 + n..])
    else BadChecksum
  }

  lemma BodyReads(kind: seq<Byte>, data: seq<Byte>, crc: Word, rest: seq<Byte>)
    requires |kind| == 4
    ensures ReadBody(|data|, (kind + data) + (WordBytes(crc) + rest))
         == if crc == Reference(kind + data) then Chunk(kind, data, rest) else BadChecksum
  {
    var m, tail := kind + data, WordBytes(crc) + rest;
    var s := m + tail;
    assert s[..4 + |data|] == m && s[4 + |data|..] == tail;
    assert s[..4] == kind && s[4..4 + |data|] == data && s[8 + |data|..] == rest;
    WordRoundTrip(crc);
    assert ReadWord(tail) == ReadWord(WordBytes(crc));
  }

  lemma HeadReads(head: seq<Byte>, n: nat, body: seq<Byte>)
    requires |head| == 4 && ReadWord(head) as int == n && |body| >= 8
    ensures ReadChunk(head + body) == ReadBody(n, body)
  {
  }

  lemma Regroup(a: seq<Byte>, b: seq<Byte>, c: seq<Byte>, d: seq<Byte>)
    ensures a + b + c + d == a + (b + (c + d))
  {
  }

  lemma ChunkReads(len: Word, kind: seq<Byte>, data: seq<Byte>, crc: Word, rest: seq<Byte>)
    requires |kind| == 4 && IsLength(len, data)
    ensures ReadChunk(WordBytes(len) + (kind + data) + WordBytes(crc) + rest)
         == if crc == Reference(kind + data) then Chunk(kind, data, rest) else BadChecksum
  {
    Regroup(WordBytes(len), kind + data, WordBytes(crc), rest);
    WordRoundTrip(len);
    HeadReads(WordBytes(len), |data|, (kind + data) + (WordBytes(crc) + rest));
    BodyReads(kind, data, crc, rest);
  }

  /** Reading a written chunk returns its type and data and leaves what follows. */
  lemma ReadsBack(len: Word, kind: seq<Byte>, data: seq<Byte>, rest: seq<Byte>)
    requires |kind| == 4 && IsLength(len, data)
    ensures ReadChunk(ChunkBytes(len, kind, data) + rest) == Chunk(kind, data, rest)
  {
    ChunkReads(len, kind, data, Reference(kind + data), rest);
  }

  /** Type and data damaged by one burst of at most 32 bits are never accepted under the old checksum. */
  lemma DamageIsRejected(len: Word, kind: seq<Byte>, data: seq<Byte>, kind': seq<Byte>, data': seq<Byte>,
                         rest: seq<Byte>,
                         i: nat, k: nat)
    requires |kind| == |kind'| == 4 && |data| == |data'| && IsLength(len, data)
    requires Burst(kind + data, kind' + data', i, k) && k <= 32
    ensures ReadChunk(WordBytes(len) + (kind' + data') + WordBytes(Reference(kind + data)) + rest) == BadChecksum
  {
    BurstChangesChecksum(kind + data, kind' + data', i, k);
    BadChunk(len, kind', data', Reference(kind + data), rest);
  }

  lemma BadChunk(len: Word, kind: seq<Byte>, data: seq<Byte>, crc: Word, rest: seq<Byte>)
    requires |kind| == 4 && IsLength(len, data) && crc != Reference(kind + data)
    ensures ReadChunk(WordBytes(len) + (kind + data) + WordBytes(crc) + rest) == BadChecksum
  {
    ChunkReads(len, kind, data, crc, rest);
  }

  /** Write a chunk into a buffer of its own. */
  method WriteChunk(table: array<Word>, len: Word, kind: seq<Byte>, data: seq<Byte>) returns (out: array<Byte>)
    requires IsCrcTable(table[..]) && |kind| == 4 && IsLength(len, data)
    ensures out[..] == ChunkBytes(len, kind, data)
  {
    var body;
    out, body := WriteBody(WordBytes(len), kind, data);
    var crc := Checksum(table, body);
    WriteTail(out, WordBytes(len) + (kind + data), WordBytes(crc));
  }

  method WriteBody(head: seq<Byte>, kind: seq<Byte>, data: seq<Byte>) returns (out: array<Byte>, body: seq<Byte>)
    requires |head| == |kind| == 4
    ensures fresh(out) && out.Length == |data| + 12 && out[..8 + |data|] == head + (kind + data) && body == kind + data
  {
    out := new Byte[|data| + 12];
    Place(out, 0, head);
    Place(out, 4, kind);
    Place(out, 8, data);
    body := out[4..8 + |data|];
    assert body == kind + data;
    assert out[..4] == head;
  }

  method WriteTail(out: array<Byte>, before: seq<Byte>, tail: seq<Byte>)
    requires |before| + |tail| == out.Length && out[..|before|] == before
    modifies out
    ensures out[..] == before + tail
  {
    Place(out, |before|, tail);
  }

  method Place(out: array<Byte>, at: nat, bytes: seq<Byte>)
    requires at + |bytes| <= out.Length
    modifies out
    ensures forall k :: 0 <= k < |bytes| ==> out[at + k] == bytes[k]
    ensures forall k :: 0 <= k < out.Length && !(at <= k < at + |bytes|) ==> out[k] == old(out[k])
  {
    forall k | 0 <= k < |bytes| { out[at + k] := bytes[k]; }
  }

  /** The end chunk, byte by byte. */
  lemma EndChunk()
    ensures ChunkBytes(0, [0x49, 0x45, 0x4e, 0x44], [])
         == [0x00, 0x00, 0x00, 0x00, 0x49, 0x45, 0x4e, 0x44, 0xae, 0x42, 0x60, 0x82]
  {
    var kind: seq<Byte> := [0x49, 0x45, 0x4e, 0x44];
    ChecksumOfEnd();
    assert kind + [] == kind;
    assert WordBytes(0) == [0, 0, 0, 0] && WordBytes(0xae426082) == [0xae, 0x42, 0x60, 0x82];
  }
}
