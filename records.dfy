/** The fixed-layout records of a message (header.rs, query.rs, rr.rs):
    the 12-byte header of RFC 1035 section 4.1.1, the question of section
    4.1.2 and the resource record of section 4.1.3. Their encoders and
    decoders are not part of this model beyond what the message layout
    fixes: a header is its six 16-bit fields, big-endian, in declaration
    order, and a question is its encoded name followed by QTYPE and QCLASS. */
module Records {
  import opened Wire
  import opened Codes
  import opened Cursor

  /** The six header fields, in wire order. */
  datatype Header = Header(id: u16, flags: u16, qdCount: u16, anCount: u16, nsCount: u16, adCount: u16)

  /** A question: the encoded name, then its QTYPE and QCLASS. */
  datatype Query = Query(qname: seq<u8>, qtype: QueryType, qclass: QueryClass)

  /** A resource record; `rdata` is kept as raw bytes. */
  datatype ResponseRecord = ResponseRecord(
    name: seq<u8>, rtype: ResponseType, rclass: ResponseClass, ttl: u32, rdLength: u16, rdata: seq<u8>)

  /** The length of an encoded header. */
  const HEADER_LENGTH: nat := 12

  /** `Header::new(id, flags)`: the given id and flags, every count 0. */
  function NewHeader(id: u16, flags: u16): (h: Header)
    ensures h.id == id && h.flags == flags
    ensures h.qdCount == 0 && h.anCount == 0 && h.nsCount == 0 && h.adCount == 0
  {
    Header(id, flags, 0, 0, 0, 0)
  }

  /** `Header::encode`: the six fields as big-endian 16-bit integers. */
  function EncodeHeader(h: Header): (b: seq<u8>)
    ensures |b| == HEADER_LENGTH
  {
    ToBE(h.id, 2) + ToBE(h.flags, 2) + ToBE(h.qdCount, 2)
      + ToBE(h.anCount, 2) + ToBE(h.nsCount, 2) + ToBE(h.adCount, 2)
  }

  /** The 16-bit field at index `i` of a 12-byte header. */
  function Field(b: seq<u8>, i: nat): (x: u16)
    requires |b| == HEADER_LENGTH && i < 6
    ensures x == 256 * b[2 * i] as int + b[2 * i + 1] as int
  {
    FromBE2(b[2 * i], b[2 * i + 1]);
    assert b[2 * i..2 * i + 2] == [b[2 * i], b[2 * i + 1]];
    FromBE(b[2 * i..2 * i + 2])
  }

  /** The header twelve bytes hold. */
  function HeaderFromBytes(b: seq<u8>): Header
    requires |b| == HEADER_LENGTH
  {
    Header(Field(b, 0), Field(b, 1), Field(b, 2), Field(b, 3), Field(b, 4), Field(b, 5))
  }

  /** Decoding an encoded header gives the header back. */
  lemma HeaderRoundTrip(h: Header)
    ensures HeaderFromBytes(EncodeHeader(h)) == h
  {
    ToBE2(h.id);
    ToBE2(h.flags);
    ToBE2(h.qdCount);
    ToBE2(h.anCount);
    ToBE2(h.nsCount);
    ToBE2(h.adCount);
  }

  /** Encoding the header twelve bytes hold gives the bytes back: every
      12-byte string is a header. */
  lemma HeaderBytesRoundTrip(b: seq<u8>)
    requires |b| == HEADER_LENGTH
    ensures EncodeHeader(HeaderFromBytes(b)) == b
  {
    FieldBytes(b, 0);
    FieldBytes(b, 1);
    FieldBytes(b, 2);
    FieldBytes(b, 3);
    FieldBytes(b, 4);
    FieldBytes(b, 5);
    SixPairs(b);
  }

  /** Twelve bytes are their six consecutive pairs. */
  lemma SixPairs(b: seq<u8>)
    requires |b| == HEADER_LENGTH
    ensures b == b[0..2] + b[2..4] + b[4..6] + b[6..8] + b[8..10] + b[10..12]
  {
    assert b[0..4] == b[0..2] + b[2..4];
    assert b[0..6] == b[0..4] + b[4..6];
    assert b[0..8] == b[0..6] + b[6..8];
    assert b[0..10] == b[0..8] + b[8..10];
    assert b == b[0..10] + b[10..12];
  }

  /** A field written back big-endian is the two bytes it was read from. */
  lemma FieldBytes(b: seq<u8>, i: nat)
    requires |b| == HEADER_LENGTH && i < 6
    ensures ToBE(Field(b, i), 2) == b[2 * i..2 * i + 2]
  {
    ToBE2(Field(b, i));
    assert b[2 * i..2 * i + 2] == [b[2 * i], b[2 * i + 1]];
  }

  /** `Header::decode` on a cursor at absolute offset `p`: six 16-bit
      reads, which panic when fewer than 12 bytes remain. */
  function HeaderAt(buffer: seq<u8>, p: nat): (r: Outcome<Header>)
    ensures r.Ok? <==> p + HEADER_LENGTH <= |buffer|
    ensures r.Ok? ==> EncodeHeader(r.value) == buffer[p..p + HEADER_LENGTH]
    ensures r != Err
  {
    if p + HEADER_LENGTH > |buffer| then Panic
    else
      var b := buffer[p..p + HEADER_LENGTH];
      HeaderBytesRoundTrip(b);
      Ok(HeaderFromBytes(b))
  }

  /** `Header::decode`: takes the twelve header bytes off the cursor and
      reads the six fields from them. */
  method DecodeHeader(decoder: Decoder) returns (r: Outcome<Header>)
    requires decoder.Valid()
    modifies decoder
    ensures decoder.Valid()
    ensures r == HeaderAt(decoder.buffer, old(decoder.Current()))
    ensures r.Ok? ==> decoder.Current() == old(decoder.Current()) + HEADER_LENGTH
  {
    if |decoder.remaining| < HEADER_LENGTH {
      return Panic;
    }
    var b := decoder.ReadSlice(HEADER_LENGTH);
    return Ok(HeaderFromBytes(b));
  }

  /** `Query::encode`: the encoded name, then the QTYPE and QCLASS codes,
      big-endian. */
  function EncodeQuery(q: Query): (b: seq<u8>)
    ensures |b| == |q.qname| + 4 && b[..|q.qname|] == q.qname
  {
    q.qname + ToBE(QueryTypeCode(q.qtype), 2) + ToBE(QueryClassCode(q.qclass), 2)
  }

  /** The four bytes after the name read back as the question's own QTYPE
      and QCLASS. */
  lemma QueryCodesRoundTrip(q: Query)
    ensures var b := EncodeQuery(q);
      QueryTypeTryFrom(256 * b[|q.qname|] as int + b[|q.qname| + 1] as int) == Ok(q.qtype)
      && QueryClassFrom(256 * b[|q.qname| + 2] as int + b[|q.qname| + 3] as int) == Ok(q.qclass)
  {
    ToBE2(QueryTypeCode(q.qtype));
    ToBE2(QueryClassCode(q.qclass));
    QueryTypeRoundTrip(q.qtype);
    QueryClassRoundTrip(q.qclass);
  }
}
