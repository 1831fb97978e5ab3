/** `build_query` (lib.rs): a 12-byte header with the recursion-desired
    flag and one question, then the question itself — the encoded name,
    the QTYPE and class IN — in a byte array of capacity 281. */
module Queries {
  import opened Wire
  import opened Codes
  import opened Names
  import opened Records

  /** Capacity of the query array (`ArrayVec<u8, 281>`). */
  const QUERY_CAPACITY: nat := 281
  /** The header flags of a query, `1 << 8`: only RD (recursion desired) set. */
  const RD: u16 := 0x0100

  /** The header of every query: the id, RD, one question and no records. */
  function QueryHeader(id: u16): (h: Header)
    ensures h == Header(id, RD, 1, 0, 0, 0)
  {
    var h := NewHeader(id, RD);
    h.(qdCount := h.qdCount + 1)
  }

  /** The bytes `build_query(id, qtype, text)` returns: the header, then
      the question. A text over 255 bytes fails the length assertion, and
      a text `Domain::new` rejects panics there. */
  function QueryWire(id: u16, qtype: QueryType, text: seq<u8>): (r: Outcome<seq<u8>>)
    ensures r.Ok? <==> AtMost(Split(text), LABEL_CAPACITY - 1) && |text| + 2 <= NAME_CAPACITY
    ensures !r.Ok? ==> r == Panic
    ensures r.Ok? ==> |r.value| == HEADER_LENGTH + |text| + 6 <= QUERY_CAPACITY
  {
    if |text| > NAME_CAPACITY then Panic
    else
      match DomainNew(text)
      case Ok(name) =>
        EncodedNameShape(text);
        WireLength(text);
        Ok(EncodeHeader(QueryHeader(id)) + EncodeQuery(Query(name, qtype, QueryClass.IN)))
      case _ => Panic
  }

  /** `build_query`: asserts the text length, fills in the header, bumps
      its question count, and appends the header and the question to the
      query array; the array never overflows. */
  method BuildQuery(id: u16, qtype: QueryType, text: seq<u8>) returns (r: Outcome<seq<u8>>)
    ensures r == QueryWire(id, qtype, text)
  {
    if |text| > NAME_CAPACITY {
      return Panic;
    }
    var query: seq<u8> := [];
    var header := NewHeader(id, RD);
    header := header.(qdCount := header.qdCount + 1);
    var head := EncodeHeader(header);
    assert |query| + |head| <= QUERY_CAPACITY;
    query := query + head;
    assert query == EncodeHeader(QueryHeader(id));
    var name := DomainNew(text);
    if !name.Ok? {
      return Panic;
    }
    var question := Query(name.value, qtype, QueryClass.IN);
    var body := EncodeQuery(question);
    EncodedNameShape(text);
    assert |query| + |body| <= QUERY_CAPACITY;
    query := query + body;
    return Ok(query);
  }

  /** The header bytes of a query: the id big-endian, the flags `0x0100`,
      a question count of 1 and three counts of 0; they decode back to
      that header. */
  lemma QueryHeaderBytes(id: u16, qtype: QueryType, text: seq<u8>)
    requires QueryWire(id, qtype, text).Ok?
    ensures var b := QueryWire(id, qtype, text).value;
      b[..HEADER_LENGTH] == [id / 256, id % 256, 1, 0, 0, 1, 0, 0, 0, 0, 0, 0]
      && HeaderFromBytes(b[..HEADER_LENGTH]) == Header(id, RD, 1, 0, 0, 0)
  {
    var h := QueryHeader(id);
    var b := QueryWire(id, qtype, text).value;
    assert b[..HEADER_LENGTH] == EncodeHeader(h);
    HeaderBytes(h);
    HeaderRoundTrip(h);
  }

  /** The twelve bytes of a header, field by field. */
  lemma HeaderBytes(h: Header)
    ensures EncodeHeader(h) == [h.id / 256, h.id % 256, h.flags / 256, h.flags % 256,
                                h.qdCount / 256, h.qdCount % 256, h.anCount / 256, h.anCount % 256,
                                h.nsCount / 256, h.nsCount % 256, h.adCount / 256, h.adCount % 256]
  {
    ToBE2(h.id);
    ToBE2(h.flags);
    ToBE2(h.qdCount);
    ToBE2(h.anCount);
    ToBE2(h.nsCount);
    ToBE2(h.adCount);
  }

  /** After the header come the encoded name, then the QTYPE, which reads
      back as `qtype`, then the class, which reads back as IN. */
  lemma QueryQuestionBytes(id: u16, qtype: QueryType, text: seq<u8>)
    requires QueryWire(id, qtype, text).Ok?
    ensures var b := QueryWire(id, qtype, text).value;
      var n := HEADER_LENGTH + |text| + 2;
      b[HEADER_LENGTH..n] == DomainNew(text).value
      && QueryTypeTryFrom(256 * b[n] as int + b[n + 1] as int) == Ok(qtype)
      && b[n + 2..] == [0, 1]
  {
    var b := QueryWire(id, qtype, text).value;
    var name := DomainNew(text).value;
    WireLength(text);
    QueryLayout(id, qtype, text, name);
    var head: seq<u8> := [id / 256, id % 256, 1, 0, 0, 1, 0, 0, 0, 0, 0, 0];
    var code := QueryTypeCode(qtype);
    var tail: seq<u8> := [code / 256, code % 256, 0, 1];
    assert b == head + name + tail;
    var n := HEADER_LENGTH + |text| + 2;
    assert b[HEADER_LENGTH..n] == name;
    assert b[n] == tail[0] && b[n + 1] == tail[1];
    QueryTypeRoundTrip(qtype);
    assert b[n + 2..] == tail[2..];
  }

  /** The name inside a query reads back with `Domain::from_bytes` from
      offset 12 as `[0, 0]` followed by its labels, and the cursor stops
      on the name's terminator. Empty parts are excluded, as their label
      is a 0 octet; a 253-byte text is excluded, as its decoding overflows. */
  lemma {:induction false} QueryNameDecodes(id: u16, qtype: QueryType, text: seq<u8>)
    requires QueryWire(id, qtype, text).Ok? && |text| + 3 <= NAME_CAPACITY
    requires forall i :: 0 <= i < |Split(text)| ==> Split(text)[i] != []
    ensures Walk(QueryWire(id, qtype, text).value, HEADER_LENGTH, [0, 0]) ==
      Walked(Ok([0, 0] + LabelsWire(Split(text))), HEADER_LENGTH + |text| + 1)
  {
    var b := QueryWire(id, qtype, text).value;
    var parts := Split(text);
    var wire := LabelsWire(parts);
    var name := DomainNew(text).value;
    assert name == wire + [0];
    QueryLayout(id, qtype, text, name);
    var head: seq<u8> := [id / 256, id % 256, 1, 0, 0, 1, 0, 0, 0, 0, 0, 0];
    var code := QueryTypeCode(qtype);
    var tail: seq<u8> := [code / 256, code % 256, 0, 1];
    assert b == head + wire + ([0] + tail);
    assert b[HEADER_LENGTH..HEADER_LENGTH + |wire|] == wire;
    assert b[HEADER_LENGTH + |wire|] == 0;
    WireHoldsLabels(b, HEADER_LENGTH, parts);
    LabelsDecode(b, HEADER_LENGTH, [0, 0], parts);
  }

  /** The label `www` of the test vector, in ASCII. */
  const WWW: seq<u8> := [0x77, 0x77, 0x77]

  /** The query of the test in lib.rs, byte for byte: the hex string
      `3c5f0100000100000000000003777777076578616d706c6503636f6d0000010001`. */
  const CHECK_QUERY_HEX: seq<u8> :=
    [0x3c, 0x5f, 0x01, 0x00, 0x00, 0x01, 0x00, 0x00, 0x00, 0x00, 0x00, 0x00]
    + [0x03, 0x77, 0x77, 0x77, 0x07, 0x65, 0x78, 0x61, 0x6d, 0x70, 0x6c, 0x65, 0x03, 0x63, 0x6f, 0x6d, 0x00]
    + [0x00, 0x01, 0x00, 0x01]

  /** `build_query(0x3c5f, A, "www.example.com")` is the test's hex string. */
  lemma CheckQueryHex()
    ensures QueryWire(0x3c5f, QueryType.A, WWW + [DOT] + EXAMPLE + [DOT] + COM) == Ok(CHECK_QUERY_HEX)
  {
    ThreePartsEncode(WWW, EXAMPLE, COM);
    QueryLayout(0x3c5f, QueryType.A, WWW + [DOT] + EXAMPLE + [DOT] + COM, [3] + WWW + [7] + EXAMPLE + [3] + COM + [0]);
    NameHex();
    HexPieces();
  }

  /** The encoded `www.example.com`, byte for byte. */
  lemma NameHex()
    ensures [3] + WWW + [7] + EXAMPLE + [3] + COM + [0] ==
      [0x03, 0x77, 0x77, 0x77, 0x07, 0x65, 0x78, 0x61, 0x6d, 0x70, 0x6c, 0x65, 0x03, 0x63, 0x6f, 0x6d, 0x00]
  {
  }

  /** The hex string is the header bytes, the encoded name and the QTYPE
      and class codes of A and IN. */
  lemma HexPieces()
    ensures [0x3c5f / 256, 0x3c5f % 256, 1, 0, 0, 1, 0, 0, 0, 0, 0, 0]
      + [0x03, 0x77, 0x77, 0x77, 0x07, 0x65, 0x78, 0x61, 0x6d, 0x70, 0x6c, 0x65, 0x03, 0x63, 0x6f, 0x6d, 0x00]
      + [QueryTypeCode(QueryType.A) / 256, QueryTypeCode(QueryType.A) % 256, 0, 1] == CHECK_QUERY_HEX
  {
  }

  /** A query is the header bytes with the id, RD and one question, then
      the encoded name, the QTYPE and class IN. */
  lemma QueryLayout(id: u16, qtype: QueryType, text: seq<u8>, name: seq<u8>)
    requires DomainNew(text) == Ok(name)
    ensures QueryWire(id, qtype, text) ==
      Ok([id / 256, id % 256, 1, 0, 0, 1, 0, 0, 0, 0, 0, 0] + name
         + [QueryTypeCode(qtype) / 256, QueryTypeCode(qtype) % 256, 0, 1])
  {
    EncodedNameShape(text);
    WireLength(text);
    var head := EncodeHeader(QueryHeader(id));
    var question := EncodeQuery(Query(name, qtype, QueryClass.IN));
    assert QueryWire(id, qtype, text) == Ok(head + question);
    assert head == [id / 256, id % 256, 1, 0, 0, 1, 0, 0, 0, 0, 0, 0] by {
      HeaderBytes(QueryHeader(id));
    }
    QuestionBytes(name, qtype);
    var tail: seq<u8> := [QueryTypeCode(qtype) / 256, QueryTypeCode(qtype) % 256, 0, 1];
    assert question == name + tail;
    assert head + (name + tail) == head + name + tail;
  }

  /** The bytes of a question of class IN. */
  lemma QuestionBytes(name: seq<u8>, qtype: QueryType)
    ensures EncodeQuery(Query(name, qtype, QueryClass.IN)) ==
      name + [QueryTypeCode(qtype) / 256, QueryTypeCode(qtype) % 256, 0, 1]
  {
    ToBE2(QueryTypeCode(qtype));
    ToBE2(QueryClassCode(QueryClass.IN));
  }
}
