/** `Message::decode` (message.rs): one cursor threaded through the header,
    one question, and then exactly as many resource records for each of the
    answer, authority and additional sections as the header counts say.

    The question and record decoders (`Query::decode`,
    `ResponseRecord::decode`) are not part of this model: they are
    parameters, readers that take the buffer and the cursor's offset and
    either panic or return a value and the offset where they left the
    cursor. The one thing required of them is that they move the cursor
    forward and stay inside the buffer, as any reader built on the cursor
    does. */
module Messages {
  import opened Wire
  import opened Cursor
  import opened Records

  /** What a reader does from one offset: it returns a value and the
      offset it leaves the cursor at, or it panics. */
  datatype Step<+T> = Took(value: T, next: nat) | Panicked

  /** The answer, authority and additional sections of a message. */
  datatype Sections = Sections(answer: seq<ResponseRecord>, authority: seq<ResponseRecord>, additional: seq<ResponseRecord>)

  /** A decoded message: the header, one question and the three sections. */
  datatype Message = Message(
    header: Header, question: Query,
    answer: seq<ResponseRecord>, authority: seq<ResponseRecord>, additional: seq<ResponseRecord>)

  /** A reader never moves the cursor backwards or past the end of `buffer`. */
  ghost predicate Forward<T>(read: (seq<u8>, nat) -> Step<T>, buffer: seq<u8>)
  {
    forall p: nat :: p <= |buffer| && read(buffer, p).Took? ==> p <= read(buffer, p).next <= |buffer|
  }

  /** `count` records read one after the other from offset `p`: the
      records in order and the offset after the last one, or a panic as
      soon as one read panics. */
  function RecordsAt(buffer: seq<u8>, p: nat, count: nat, read: (seq<u8>, nat) -> Step<ResponseRecord>)
    : (r: Step<seq<ResponseRecord>>)
    requires p <= |buffer| && Forward(read, buffer)
    ensures r.Took? ==> |r.value| == count && p <= r.next <= |buffer|
    decreases count
  {
    if count == 0 then Took([], p)
    else
      match RecordsAt(buffer, p, count - 1, read)
      case Panicked => Panicked
      case Took(records, q) =>
        match read(buffer, q)
        case Panicked => Panicked
        case Took(record, next) => Took(records + [record], next)
  }

  /** The three sections of a message with header `h`, read back to back
      from offset `p`: exactly as many answer, authority and additional
      records as the header counts say, each section starting where the
      previous one ended, or a panic as soon as one record read panics. */
  function SectionsAt(buffer: seq<u8>, p: nat, h: Header, read: (seq<u8>, nat) -> Step<ResponseRecord>)
    : (r: Step<Sections>)
    requires p <= |buffer| && Forward(read, buffer)
    ensures r.Took? ==> |r.value.answer| == h.anCount && |r.value.authority| == h.nsCount
    ensures r.Took? ==> |r.value.additional| == h.adCount && p <= r.next <= |buffer|
  {
    match RecordsAt(buffer, p, h.anCount, read)
    case Took(answer, p2) =>
      (match RecordsAt(buffer, p2, h.nsCount, read)
       case Took(authority, p3) =>
         (match RecordsAt(buffer, p3, h.adCount, read)
          case Took(additional, p4) => Took(Sections(answer, authority, additional), p4)
          case Panicked => Panicked)
       case Panicked => Panicked)
    case Panicked => Panicked
  }

  /** The message a buffer holds from offset `p`: the header, the question
      right after it, then the three sections right after the question.
      The header is the one the first twelve bytes encode. */
  function MessageAt(buffer: seq<u8>, p: nat,
                     readQuery: (seq<u8>, nat) -> Step<Query>,
                     readRecord: (seq<u8>, nat) -> Step<ResponseRecord>): (r: Step<Message>)
    requires p <= |buffer| && Forward(readQuery, buffer) && Forward(readRecord, buffer)
    ensures r.Took? ==> HeaderAt(buffer, p) == Ok(r.value.header)
    ensures r.Took? ==> |r.value.answer| == r.value.header.anCount
    ensures r.Took? ==> |r.value.authority| == r.value.header.nsCount
    ensures r.Took? ==> |r.value.additional| == r.value.header.adCount
    ensures r.Took? ==> p + HEADER_LENGTH <= r.next <= |buffer|
  {
    match HeaderAt(buffer, p)
    case Ok(header) =>
      (match readQuery(buffer, p + HEADER_LENGTH)
       case Took(question, p1) =>
         (match SectionsAt(buffer, p1, header, readRecord)
          case Took(s, p4) => Took(Message(header, question, s.answer, s.authority, s.additional), p4)
          case Panicked => Panicked)
       case Panicked => Panicked)
    case _ => Panicked
  }

  /** A panic while reading records is final: reading more records after
      it panics too. */
  lemma {:induction false} PanicPersists(buffer: seq<u8>, p: nat, i: nat, count: nat,
                                         read: (seq<u8>, nat) -> Step<ResponseRecord>)
    requires p <= |buffer| && Forward(read, buffer) && i <= count
    requires RecordsAt(buffer, p, i, read).Panicked?
    ensures RecordsAt(buffer, p, count, read).Panicked?
    decreases count
  {
    if count > i {
      PanicPersists(buffer, p, i, count - 1, read);
    }
  }

  /** A reader run on the cursor: the value it reads, with the cursor
      moved to where the reader left it, or a panic. */
  method Read<T>(decoder: Decoder, read: (seq<u8>, nat) -> Step<T>) returns (r: Outcome<T>)
    requires decoder.Valid() && Forward(read, decoder.buffer)
    modifies decoder
    ensures decoder.Valid()
    ensures var step := read(decoder.buffer, old(decoder.Current()));
      match step
      case Took(value, next) => r == Ok(value) && decoder.Current() == next
      case Panicked => r == Panic
  {
    var step := read(decoder.buffer, decoder.Current());
    if step.Panicked? {
      return Panic;
    }
    var _ := decoder.ReadSlice(step.next - decoder.Current());
    return Ok(step.value);
  }

  /** The loop of one section: `(0..count).map(|_| ResponseRecord::decode)`
      collected, reading each record where the previous one left the cursor. */
  method DecodeRecords(decoder: Decoder, count: u16, read: (seq<u8>, nat) -> Step<ResponseRecord>)
    returns (r: Outcome<seq<ResponseRecord>>)
    requires decoder.Valid() && Forward(read, decoder.buffer)
    modifies decoder
    ensures decoder.Valid() && r != Err
    ensures r.Panic? <==> RecordsAt(decoder.buffer, old(decoder.Current()), count, read).Panicked?
    ensures r.Ok? ==> r.value == RecordsAt(decoder.buffer, old(decoder.Current()), count, read).value
    ensures r.Ok? ==> decoder.Current() == RecordsAt(decoder.buffer, old(decoder.Current()), count, read).next
  {
    ghost var start := decoder.Current();
    var records := [];
    for i := 0 to count
      invariant decoder.Valid()
      invariant RecordsAt(decoder.buffer, start, i, read) == Took(records, decoder.Current())
    {
      var record := Read(decoder, read);
      if !record.Ok? {
        PanicPersists(decoder.buffer, start, i + 1, count, read);
        return Panic;
      }
      records := records + [record.value];
    }
    return Ok(records);
  }

  /** `Message::decode`: the header, the question, then the three
      sections, over one cursor. Trailing bytes after the last record are
      not looked at. */
  method Decode(decoder: Decoder,
                readQuery: (seq<u8>, nat) -> Step<Query>,
                readRecord: (seq<u8>, nat) -> Step<ResponseRecord>) returns (r: Outcome<Message>)
    requires decoder.Valid() && Forward(readQuery, decoder.buffer) && Forward(readRecord, decoder.buffer)
    modifies decoder
    ensures decoder.Valid() && r != Err
    ensures r.Panic? <==> MessageAt(decoder.buffer, old(decoder.Current()), readQuery, readRecord).Panicked?
    ensures r.Ok? ==> r.value == MessageAt(decoder.buffer, old(decoder.Current()), readQuery, readRecord).value
    ensures r.Ok? ==> decoder.Current() == MessageAt(decoder.buffer, old(decoder.Current()), readQuery, readRecord).next
  {
    var header := DecodeHeader(decoder);
    if !header.Ok? {
      return Panic;
    }
    var question := Read(decoder, readQuery);
    if !question.Ok? {
      return Panic;
    }
    var sections := DecodeSections(decoder, header.value, readRecord);
    if !sections.Ok? {
      return Panic;
    }
    var s := sections.value;
    return Ok(Message(header.value, question.value, s.answer, s.authority, s.additional));
  }

  /** The three section loops of `Message::decode`, one after the other
      over the same cursor. */
  method DecodeSections(decoder: Decoder, h: Header, read: (seq<u8>, nat) -> Step<ResponseRecord>)
    returns (r: Outcome<Sections>)
    requires decoder.Valid() && Forward(read, decoder.buffer)
    modifies decoder
    ensures decoder.Valid() && r != Err
    ensures r.Panic? <==> SectionsAt(decoder.buffer, old(decoder.Current()), h, read).Panicked?
    ensures r.Ok? ==> r.value == SectionsAt(decoder.buffer, old(decoder.Current()), h, read).value
    ensures r.Ok? ==> decoder.Current() == SectionsAt(decoder.buffer, old(decoder.Current()), h, read).next
  {
    var answer := DecodeRecords(decoder, h.anCount, read);
    if !answer.Ok? {
      return Panic;
    }
    var authority := DecodeRecords(decoder, h.nsCount, read);
    if !authority.Ok? {
      return Panic;
    }
    var additional := DecodeRecords(decoder, h.adCount, read);
    if !additional.Ok? {
      return Panic;
    }
    return Ok(Sections(answer.value, authority.value, additional.value));
  }

  /** Reading `m + n` records is reading `m`, then `n` more from where
      those ended. */
  lemma {:induction false} RecordsSplit(buffer: seq<u8>, p: nat, m: nat, n: nat,
                                        read: (seq<u8>, nat) -> Step<ResponseRecord>)
    requires p <= |buffer| && Forward(read, buffer)
    requires RecordsAt(buffer, p, m, read).Took?
    ensures var first := RecordsAt(buffer, p, m, read);
      RecordsAt(buffer, p, m + n, read) ==
        match RecordsAt(buffer, first.next, n, read)
        case Took(more, q) => Took(first.value + more, q)
        case Panicked => Panicked
    decreases n
  {
    var first := RecordsAt(buffer, p, m, read);
    if n == 0 {
      assert first.value + [] == first.value;
    } else {
      RecordsSplit(buffer, p, m, n - 1, read);
      var rest := RecordsAt(buffer, first.next, n - 1, read);
      if rest.Took? && read(buffer, rest.next).Took? {
        var record := read(buffer, rest.next).value;
        assert first.value + rest.value + [record] == first.value + (rest.value + [record]);
      }
    }
  }

  /** The three sections are one run of `an + ns + ad` records read back
      to back after the question, cut at the counts. */
  lemma SectionsAreOneRun(buffer: seq<u8>, p: nat,
                          readQuery: (seq<u8>, nat) -> Step<Query>,
                          readRecord: (seq<u8>, nat) -> Step<ResponseRecord>)
    returns (p1: nat)
    requires p <= |buffer| && Forward(readQuery, buffer) && Forward(readRecord, buffer)
    requires MessageAt(buffer, p, readQuery, readRecord).Took?
    ensures var m := MessageAt(buffer, p, readQuery, readRecord);
      readQuery(buffer, p + HEADER_LENGTH) == Took(m.value.question, p1) && p1 <= |buffer| &&
      RecordsAt(buffer, p1, m.value.header.anCount + m.value.header.nsCount + m.value.header.adCount, readRecord)
        == Took(m.value.answer + m.value.authority + m.value.additional, m.next)
  {
    p1 := MessageParts(buffer, p, readQuery, readRecord);
    SectionsInOneRun(buffer, p1, MessageAt(buffer, p, readQuery, readRecord).value.header, readRecord);
  }

  /** What a decoded message is made of: the question read right after the
      header, then the sections read right after the question. */
  lemma MessageParts(buffer: seq<u8>, p: nat,
                     readQuery: (seq<u8>, nat) -> Step<Query>,
                     readRecord: (seq<u8>, nat) -> Step<ResponseRecord>)
    returns (p1: nat)
    requires p <= |buffer| && Forward(readQuery, buffer) && Forward(readRecord, buffer)
    requires MessageAt(buffer, p, readQuery, readRecord).Took?
    ensures var m := MessageAt(buffer, p, readQuery, readRecord);
      readQuery(buffer, p + HEADER_LENGTH) == Took(m.value.question, p1) && p1 <= |buffer|
      && SectionsAt(buffer, p1, m.value.header, readRecord)
        == Took(Sections(m.value.answer, m.value.authority, m.value.additional), m.next)
  {
    p1 := readQuery(buffer, p + HEADER_LENGTH).next;
  }

  /** The sections of a message, read back to back, are one run of
      `an + ns + ad` records. */
  lemma SectionsInOneRun(buffer: seq<u8>, p: nat, h: Header, read: (seq<u8>, nat) -> Step<ResponseRecord>)
    requires p <= |buffer| && Forward(read, buffer) && SectionsAt(buffer, p, h, read).Took?
    ensures var s := SectionsAt(buffer, p, h, read);
      RecordsAt(buffer, p, h.anCount + h.nsCount + h.adCount, read)
        == Took(s.value.answer + s.value.authority + s.value.additional, s.next)
  {
    var s := SectionsAt(buffer, p, h, read);
    var p2 := RecordsAt(buffer, p, h.anCount, read).next;
    var p3 := RecordsAt(buffer, p2, h.nsCount, read).next;
    ThreeRuns(buffer, p, p2, p3, s.next, h.anCount as nat, h.nsCount as nat, h.adCount as nat,
              s.value.answer, s.value.authority, s.value.additional, read);
  }

  /** Two runs of records read back to back are one run. */
  lemma {:induction false} RecordsAppend(buffer: seq<u8>, p: nat, q: nat, r: nat, m: nat, n: nat,
                                         first: seq<ResponseRecord>, second: seq<ResponseRecord>,
                                         read: (seq<u8>, nat) -> Step<ResponseRecord>)
    requires p <= |buffer| && q <= |buffer| && Forward(read, buffer)
    requires RecordsAt(buffer, p, m, read) == Took(first, q)
    requires RecordsAt(buffer, q, n, read) == Took(second, r)
    ensures RecordsAt(buffer, p, m + n, read) == Took(first + second, r)
    decreases n
  {
    if n == 0 {
      assert first + second == first;
    } else {
      var mid := RecordsAt(buffer, q, n - 1, read);
      var init := mid.value;
      RecordsAppend(buffer, p, q, mid.next, m, n - 1, first, init, read);
      assert first + second == (first + init) + [second[n - 1]];
    }
  }

  /** Three runs of records read back to back are one run. */
  lemma ThreeRuns(buffer: seq<u8>, p: nat, p1: nat, p2: nat, p3: nat, a: nat, b: nat, c: nat,
                  first: seq<ResponseRecord>, second: seq<ResponseRecord>, third: seq<ResponseRecord>,
                  read: (seq<u8>, nat) -> Step<ResponseRecord>)
    requires p <= |buffer| && p1 <= |buffer| && p2 <= |buffer| && Forward(read, buffer)
    requires RecordsAt(buffer, p, a, read) == Took(first, p1)
    requires RecordsAt(buffer, p1, b, read) == Took(second, p2)
    requires RecordsAt(buffer, p2, c, read) == Took(third, p3)
    ensures RecordsAt(buffer, p, a + b + c, read) == Took(first + second + third, p3)
  {
    RecordsAppend(buffer, p, p1, p2, a, b, first, second, read);
    RecordsAppend(buffer, p, p2, p3, a + b, c, first + second, third, read);
  }

  /** A reader that reads the same thing from `buffer` and from `buffer`
      with `extra` bytes appended, wherever it succeeds on `buffer`. */
  ghost predicate Stable<T>(read: (seq<u8>, nat) -> Step<T>, buffer: seq<u8>, extra: seq<u8>)
  {
    forall p: nat :: p <= |buffer| && read(buffer, p).Took? ==> read(buffer + extra, p) == read(buffer, p)
  }

  /** Appended bytes do not change what records are read. */
  lemma {:induction false} RecordsIgnoreTrailing(buffer: seq<u8>, extra: seq<u8>, p: nat, count: nat,
                                                 read: (seq<u8>, nat) -> Step<ResponseRecord>)
    requires p <= |buffer| && Forward(read, buffer) && Forward(read, buffer + extra)
    requires Stable(read, buffer, extra)
    requires RecordsAt(buffer, p, count, read).Took?
    ensures RecordsAt(buffer + extra, p, count, read) == RecordsAt(buffer, p, count, read)
    decreases count
  {
    if count > 0 {
      RecordsIgnoreTrailing(buffer, extra, p, count - 1, read);
    }
  }

  /** No check is made on trailing bytes: a message decoded from a buffer
      decodes the same, to the same end offset, with any bytes appended. */
  lemma TrailingBytesIgnored(buffer: seq<u8>, extra: seq<u8>, p: nat,
                             readQuery: (seq<u8>, nat) -> Step<Query>,
                             readRecord: (seq<u8>, nat) -> Step<ResponseRecord>)
    requires p <= |buffer| && Forward(readQuery, buffer) && Forward(readRecord, buffer)
    requires Forward(readQuery, buffer + extra) && Forward(readRecord, buffer + extra)
    requires Stable(readQuery, buffer, extra) && Stable(readRecord, buffer, extra)
    requires MessageAt(buffer, p, readQuery, readRecord).Took?
    ensures MessageAt(buffer + extra, p, readQuery, readRecord) == MessageAt(buffer, p, readQuery, readRecord)
  {
    var m := MessageAt(buffer, p, readQuery, readRecord).value;
    var h := m.header;
    assert (buffer + extra)[p..p + HEADER_LENGTH] == buffer[p..p + HEADER_LENGTH];
    var p1 := readQuery(buffer, p + HEADER_LENGTH).next;
    RecordsIgnoreTrailing(buffer, extra, p1, h.anCount, readRecord);
    var p2 := RecordsAt(buffer, p1, h.anCount, readRecord).next;
    RecordsIgnoreTrailing(buffer, extra, p2, h.nsCount, readRecord);
    var p3 := RecordsAt(buffer, p2, h.nsCount, readRecord).next;
    RecordsIgnoreTrailing(buffer, extra, p3, h.adCount, readRecord);
  }
}
