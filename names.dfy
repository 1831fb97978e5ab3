/** Domain names (domain.rs): the text-to-wire encoder `Domain::new`, the
    wire decoder `Domain::from_bytes`, and the label helpers they use.
    RFC 1035 sections 3.1 and 4.1.4 describe the format; the model follows
    the code, which departs from the RFC as the lemmas below show. */
module Names {
  import opened Wire
  import opened Cursor

  /** The label separator of domain text, `'.'`. */
  const DOT: u8 := 0x2E
  /** Capacity of a `Domain` (`ArrayVec<u8, 255>`). */
  const NAME_CAPACITY: nat := 255
  /** Capacity of a `Label` (`ArrayVec<u8, 63>`). */
  const LABEL_CAPACITY: nat := 63

  // ---------------------------------------------------------------------
  // Text side: `str::split('.')`
  // ---------------------------------------------------------------------

  /** The `.`-separated parts of a text, as `split('.')` yields them: always
      at least one part, empty parts kept. */
  function Split(text: seq<u8>): (parts: seq<seq<u8>>)
    ensures |parts| >= 1
    ensures forall i :: 0 <= i < |parts| ==> DOT !in parts[i]
    decreases |text|
  {
    if text == [] then [[]]
    else
      var rest := Split(text[1..]);
      if text[0] == DOT then [[]] + rest
      else [[text[0]] + rest[0]] + rest[1..]
  }

  /** The parts put back together with `.` between them. */
  function Join(parts: seq<seq<u8>>): seq<u8>
    requires |parts| >= 1
  {
    if |parts| == 1 then parts[0] else parts[0] + [DOT] + Join(parts[1..])
  }

  /** Splitting loses nothing: joining the parts gives the text back. */
  lemma {:induction false} JoinSplit(text: seq<u8>)
    ensures Join(Split(text)) == text
    decreases |text|
  {
    if text != [] {
      var rest := Split(text[1..]);
      JoinSplit(text[1..]);
      if text[0] == DOT {
        assert ([[]] + rest)[1..] == rest;
        assert text == [DOT] + text[1..];
      } else if |rest| == 1 {
        assert text == [text[0]] + text[1..];
      } else {
        var parts := [[text[0]] + rest[0]] + rest[1..];
        assert parts[1..] == rest[1..];
        assert text == [text[0]] + text[1..];
      }
    }
  }

  /** A dot-free prefix joins the first part of what follows it. */
  lemma {:induction false} SplitDotFreePrefix(p: seq<u8>, rest: seq<u8>)
    requires DOT !in p
    ensures Split(p + rest) == [p + Split(rest)[0]] + Split(rest)[1..]
    decreases |p|
  {
    if p != [] {
      assert (p + rest)[1..] == p[1..] + rest;
      assert (p + rest)[0] == p[0] && p[0] != DOT;
      SplitDotFreePrefix(p[1..], rest);
      assert [p[0]] + (p[1..] + Split(rest)[0]) == p + Split(rest)[0];
    } else {
      var parts := Split(rest);
      assert p + rest == rest;
      assert p + parts[0] == parts[0];
      assert parts == [parts[0]] + parts[1..];
    }
  }

  /** Joining dot-free parts and splitting again gives the same parts. */
  lemma {:induction false} SplitJoin(parts: seq<seq<u8>>)
    requires |parts| >= 1
    requires forall i :: 0 <= i < |parts| ==> DOT !in parts[i]
    ensures Split(Join(parts)) == parts
    decreases |parts|
  {
    if |parts| == 1 {
      SplitDotFreePrefix(parts[0], []);
      var none := Split([]);
      assert none == [[]];
      assert parts[0] + none[0] == parts[0] + [] == parts[0];
      assert none[1..] == [];
      assert Join(parts) == parts[0] + [];
      assert parts == [parts[0]];
    } else {
      var tail := Join(parts[1..]);
      SplitJoin(parts[1..]);
      var dotted := [DOT] + tail;
      assert Join(parts) == parts[0] + dotted;
      SplitDotFreePrefix(parts[0], dotted);
      assert dotted[1..] == tail && dotted[0] == DOT;
      var after := Split(dotted);
      assert after == [[]] + parts[1..];
      assert after[0] == [] && after[1..] == parts[1..];
      assert parts[0] + after[0] == parts[0];
      assert parts == [parts[0]] + parts[1..];
    }
  }

  // ---------------------------------------------------------------------
  // Encoding: `Label::new` and `Domain::new`
  // ---------------------------------------------------------------------

  /** Every part is at most `max` bytes long. */
  predicate AtMost(parts: seq<seq<u8>>, max: nat)
  {
    forall i :: 0 <= i < |parts| ==> |parts[i]| <= max
  }

  /** The wire form of a list of labels: for each, its length byte, then
      its bytes. */
  function LabelsWire(labels: seq<seq<u8>>): seq<u8>
    requires AtMost(labels, LABEL_CAPACITY)
  {
    if labels == [] then [] else [|labels[0]|] + labels[0] + LabelsWire(labels[1..])
  }

  /** One label in front of others. */
  lemma LabelsWireCons(first: seq<u8>, rest: seq<seq<u8>>)
    requires |first| <= LABEL_CAPACITY && AtMost(rest, LABEL_CAPACITY)
    ensures AtMost([first] + rest, LABEL_CAPACITY)
    ensures LabelsWire([first] + rest) == [|first|] + first + LabelsWire(rest)
  {
    assert ([first] + rest)[1..] == rest;
  }

  /** `Label::new`: the length byte followed by the part, in a 63-byte
      array. A part that does not fit panics. */
  function LabelNew(part: seq<u8>): (r: Outcome<seq<u8>>)
    ensures r.Ok? <==> |part| < LABEL_CAPACITY
    ensures r.Ok? ==> |r.value| == |part| + 1 && r.value[0] == |part| && r.value[1..] == part
    ensures r != Err
  {
    if |part| > 255 then Panic                        // u8::try_from(len).unwrap()
    else if 1 + |part| > LABEL_CAPACITY then Panic    // try_extend_from_slice(..).unwrap()
    else Ok([|part|] + part)
  }

  /** The `flat_map` of `Label::new` over the parts: panics as soon as one
      part does not fit a label. */
  function FlatLabels(parts: seq<seq<u8>>): (r: Outcome<seq<u8>>)
    ensures r.Ok? <==> AtMost(parts, LABEL_CAPACITY - 1)
    ensures r.Ok? ==> r.value == LabelsWire(parts)
    ensures r != Err
  {
    if parts == [] then Ok([])
    else
      var first := LabelNew(parts[0]);
      var more := FlatLabels(parts[1..]);
      if first.Ok? && more.Ok? then Ok(first.value + more.value) else Panic
  }

  /** The labels of a text take one length byte per part instead of one
      dot between parts: one byte more than the text. */
  lemma {:induction false} WireLength(text: seq<u8>)
    requires AtMost(Split(text), LABEL_CAPACITY)
    ensures |LabelsWire(Split(text))| == |text| + 1
    decreases |text|
  {
    if text != [] {
      var rest := Split(text[1..]);
      assert AtMost(rest, LABEL_CAPACITY) by {
        if text[0] == DOT {
          assert rest == Split(text)[1..];
        } else {
          assert forall i :: 1 <= i < |rest| ==> rest[i] == Split(text)[i];
          assert |rest[0]| < |Split(text)[0]|;
        }
      }
      WireLength(text[1..]);
      if text[0] != DOT {
        var parts := Split(text);
        assert parts[1..] == rest[1..];
      } else {
        assert Split(text)[1..] == rest;
      }
    }
  }

  /** `Domain::new`: the labels of the `.`-separated parts followed by a
      terminating 0, collected into a 255-byte array. A part longer than 62
      bytes panics, and so does a result longer than 255 bytes, which is a
      text longer than 253 bytes. */
  function DomainNew(text: seq<u8>): (r: Outcome<seq<u8>>)
    ensures r.Ok? <==> AtMost(Split(text), LABEL_CAPACITY - 1) && |text| + 2 <= NAME_CAPACITY
    ensures r.Ok? ==> r.value == LabelsWire(Split(text)) + [0]
    ensures r != Err
  {
    match FlatLabels(Split(text))
    case Ok(labels) =>
      WireLength(text);
      var bytes := labels + [0];
      if |bytes| > NAME_CAPACITY then Panic else Ok(bytes)
    case _ => Panic
  }

  /** The empty text is one empty part: `Domain::new("")` is `[0, 0]`. */
  lemma EmptyName()
    ensures DomainNew([]) == Ok([0, 0])
  {
    var empty: seq<u8> := [];
    var none: seq<seq<u8>> := [empty];
    assert Split(empty) == none;
    assert none[1..] == [];
    assert [0] + empty == [0];
    assert LabelNew(empty) == Ok([0]);
    assert FlatLabels(none) == Ok([0]);
    assert [0] + [0] == [0, 0];
    assert DomainNew(empty) == Ok([0, 0]);
  }

  /** Every encoded name ends in the 0 terminator and fits 255 bytes. */
  lemma EncodedNameShape(text: seq<u8>)
    requires DomainNew(text).Ok?
    ensures var w := DomainNew(text).value; 2 <= |w| <= NAME_CAPACITY && w[|w| - 1] == 0
  {
    WireLength(text);
  }

  /** The labels `example` and `com` of the test vectors, in ASCII. */
  const EXAMPLE: seq<u8> := [0x65, 0x78, 0x61, 0x6d, 0x70, 0x6c, 0x65]
  const COM: seq<u8> := [0x63, 0x6f, 0x6d]

  /** The encoding of `example.com`. */
  lemma ExampleComEncodes()
    ensures DomainNew(EXAMPLE + [DOT] + COM) == Ok([7] + EXAMPLE + [3] + COM + [0])
  {
    TwoPartsEncode(EXAMPLE, COM);
  }

  /** Two dot-free parts joined by a dot encode to their two labels. */
  lemma TwoPartsEncode(a: seq<u8>, b: seq<u8>)
    requires DOT !in a && DOT !in b
    requires |a| < LABEL_CAPACITY && |b| < LABEL_CAPACITY
    ensures DomainNew(a + [DOT] + b) == Ok([|a|] + a + [|b|] + b + [0])
  {
    var parts := [a, b];
    assert Join(parts) == a + [DOT] + b by {
      assert parts[1..] == [b];
    }
    assert LabelsWire(parts) == [|a|] + a + [|b|] + b by {
      LabelsWireCons(b, []);
      LabelsWireCons(a, [b]);
    }
    JoinedEncodes(parts);
  }

  /** Three dot-free parts joined by dots encode to their three labels. */
  lemma ThreePartsEncode(a: seq<u8>, b: seq<u8>, c: seq<u8>)
    requires DOT !in a && DOT !in b && DOT !in c
    requires |a| < LABEL_CAPACITY && |b| < LABEL_CAPACITY && |c| < LABEL_CAPACITY
    ensures DomainNew(a + [DOT] + b + [DOT] + c) == Ok([|a|] + a + [|b|] + b + [|c|] + c + [0])
  {
    var parts := [a, b, c];
    assert Join(parts) == a + [DOT] + b + [DOT] + c by {
      assert Join([b, c]) == b + [DOT] + c by {
        assert [b, c][1..] == [c];
      }
      assert parts[1..] == [b, c];
      assert Join(parts) == a + [DOT] + (b + [DOT] + c);
    }
    assert LabelsWire(parts) == [|a|] + a + [|b|] + b + [|c|] + c by {
      LabelsWireCons(c, []);
      LabelsWireCons(b, [c]);
      LabelsWireCons(a, [b, c]);
    }
    JoinedEncodes(parts);
  }

  /** Dot-free parts that fit labels and a name encode, once joined with
      dots, to their labels followed by the terminator. */
  lemma JoinedEncodes(parts: seq<seq<u8>>)
    requires |parts| >= 1 && AtMost(parts, LABEL_CAPACITY - 1)
    requires forall i :: 0 <= i < |parts| ==> DOT !in parts[i]
    requires |Join(parts)| + 2 <= NAME_CAPACITY
    ensures DomainNew(Join(parts)) == Ok(LabelsWire(parts) + [0])
  {
    SplitJoin(parts);
    EncodesAs(Join(parts), parts);
  }

  /** A text whose parts are known encodes to the labels of those parts. */
  lemma EncodesAs(text: seq<u8>, parts: seq<seq<u8>>)
    requires Split(text) == parts && AtMost(parts, LABEL_CAPACITY - 1) && |text| + 2 <= NAME_CAPACITY
    ensures DomainNew(text) == Ok(LabelsWire(parts) + [0])
  {
  }

  // ---------------------------------------------------------------------
  // Decoding: `Label::from_bytes`, `push_label` and `Domain::from_bytes`
  // ---------------------------------------------------------------------

  /** `Label::from_bytes` on a cursor at absolute offset `p`: the length
      byte, then that many bytes. It panics on an empty cursor (`unwrap`),
      on a length over 63 (`assert!`) and when fewer bytes remain than the
      length says (`split_at`). */
  function LabelAt(buffer: seq<u8>, p: nat): (r: Outcome<seq<u8>>)
    requires p <= |buffer|
    ensures r.Ok? <==>
      p < |buffer| && buffer[p] <= LABEL_CAPACITY && p + 1 + buffer[p] <= |buffer|
    ensures r.Ok? ==> r.value == buffer[p + 1..p + 1 + buffer[p]]
    ensures r != Err
  {
    if p == |buffer| then Panic
    else if buffer[p] > LABEL_CAPACITY then Panic
    else if p + 1 + buffer[p] > |buffer| then Panic
    else Ok(buffer[p + 1..p + 1 + buffer[p]])
  }

  /** `Label::from_bytes`: consumes the length byte and the label from the
      cursor. */
  method LabelFromBytes(decoder: Decoder) returns (r: Outcome<seq<u8>>)
    requires decoder.Valid()
    modifies decoder
    ensures decoder.Valid()
    ensures r == LabelAt(decoder.buffer, old(decoder.Current()))
    ensures r.Ok? ==> decoder.Current() == old(decoder.Current()) + 1 + |r.value|
  {
    var first := decoder.Pop();
    if first.None? {
      return Panic;
    }
    var length := first.value;
    if length > LABEL_CAPACITY {
      return Panic;
    }
    if length > |decoder.remaining| {
      return Panic;
    }
    var bytes := decoder.ReadSlice(length);
    return Ok(bytes);
  }

  /** `push_label`: appends the label's length byte, then its bytes; a push
      past the 255-byte capacity panics. */
  function PushLabel(domain: seq<u8>, piece: seq<u8>): (r: Outcome<seq<u8>>)
    requires |piece| <= LABEL_CAPACITY
    ensures r.Ok? <==> |domain| + 1 + |piece| <= NAME_CAPACITY
    ensures r.Ok? ==> r.value == domain + [|piece|] + piece
    ensures r != Err
  {
    if |domain| >= NAME_CAPACITY then Panic                  // push(len) on a full array
    else if |domain| + 1 + |piece| > NAME_CAPACITY then Panic  // try_extend_from_slice(..).unwrap()
    else Ok(domain + [|piece|] + piece)
  }

  /** Where `Domain::from_bytes` ends: its result, and the offset of the
      outer cursor when it returned. */
  datatype Walked = Walked(result: Outcome<seq<u8>>, stop: nat)

  /** What one pass of the loop of `Domain::from_bytes` does: it returns,
      or it goes round again from a new outer offset with a longer name. */
  datatype Next = Stop(walked: Walked) | Continue(at: nat, name: seq<u8>)

  /** One pass of the loop of `Domain::from_bytes` at outer offset `pos`
      with the name built so far `domain`. A 0 octet ends the loop without
      being consumed; a label octet (top bits 00) reads one label from the
      outer cursor; a pointer octet (top bits 11) reads one label at the
      absolute offset of its low six bits from a separate cursor, leaving
      the outer cursor where it is; top bits 01 or 10, or the end of the
      buffer, are an `Err`. A pass that goes on has made the name longer. */
  function Pass(buffer: seq<u8>, pos: nat, domain: seq<u8>): (n: Next)
    requires pos <= |buffer| && |domain| <= NAME_CAPACITY
    ensures n.Continue? ==> pos <= n.at <= |buffer| && domain < n.name && |n.name| <= NAME_CAPACITY
    ensures n.Stop? ==> n.walked.stop == pos
    ensures n.Stop? && n.walked.result.Ok? ==> pos < |buffer| && buffer[pos] == 0 && n.walked.result.value == domain
    ensures n.Stop? && n.walked.result.Err? ==> pos == |buffer| || 64 <= buffer[pos] < 192
  {
    if pos == |buffer| then Stop(Walked(Err, pos))
    else
      var octet := buffer[pos];
      if octet == 0 then Stop(Walked(Ok(domain), pos))
      else if octet / 64 == 0 then
        match LabelAt(buffer, pos)
        case Ok(piece) =>
          (match PushLabel(domain, piece)
           case Ok(longer) => Continue(pos + 1 + |piece|, longer)
           case _ => Stop(Walked(Panic, pos)))
        case _ => Stop(Walked(Panic, pos))
      else if octet / 64 == 3 then
        var pointer := octet % 64;
        if pointer > |buffer| then Stop(Walked(Panic, pos))   // clone_at_index past the end
        else
          match LabelAt(buffer, pointer)
          case Ok(piece) =>
            (match PushLabel(domain, piece)
             case Ok(longer) => Continue(pos, longer)
             case _ => Stop(Walked(Panic, pos)))
          case _ => Stop(Walked(Panic, pos))
      else Stop(Walked(Err, pos))
  }

  /** The whole loop of `Domain::from_bytes`: passes until one returns.
      Each pass lengthens the name, so the 255-byte capacity bounds it. */
  function Walk(buffer: seq<u8>, pos: nat, domain: seq<u8>): (w: Walked)
    requires pos <= |buffer| && |domain| <= NAME_CAPACITY
    ensures w.result.Ok? ==> domain <= w.result.value && |w.result.value| <= NAME_CAPACITY
    ensures w.result.Ok? ==> pos <= w.stop < |buffer| && buffer[w.stop] == 0
    ensures w.result.Err? ==>
      pos <= w.stop <= |buffer| && (w.stop == |buffer| || 64 <= buffer[w.stop] < 192)
    decreases NAME_CAPACITY + 1 - |domain|
  {
    match Pass(buffer, pos, domain)
    case Stop(w) => w
    case Continue(at, name) => Walk(buffer, at, name)
  }

  /** One pass of the loop body of `Domain::from_bytes` on the cursor:
      it peeks at the next octet and reads a label from the cursor or from
      a clone positioned at the pointer. When the pass goes on, the cursor
      is at the offset the next pass starts from; when it returns without
      panicking, the cursor has not moved. */
  method OnePass(decoder: Decoder, domain: seq<u8>) returns (next: Next)
    requires decoder.Valid() && |domain| <= NAME_CAPACITY
    modifies decoder
    ensures decoder.Valid()
    ensures next == Pass(decoder.buffer, old(decoder.Current()), domain)
    ensures next.Continue? ==> decoder.Current() == next.at
    ensures next.Stop? && !next.walked.result.Panic? ==> decoder.Current() == old(decoder.Current())
  {
    var cur := decoder.Current();
    match decoder.Peek()
    case None =>
      return Stop(Walked(Err, cur));
    case Some(octet) =>
      if octet == 0 {
        return Stop(Walked(Ok(domain), cur));
      } else if octet / 64 == 0 {
        var piece := LabelFromBytes(decoder);
        if !piece.Ok? {
          return Stop(Walked(Panic, cur));
        }
        LabelStep(decoder.buffer, cur, domain, piece.value);
        var pushed := PushLabel(domain, piece.value);
        if !pushed.Ok? {
          return Stop(Walked(Panic, cur));
        }
        return Continue(decoder.Current(), pushed.value);
      } else if octet / 64 == 3 {
        PointerStep(decoder.buffer, cur, domain);
        var pointer := octet % 64;
        if pointer > |decoder.buffer| {
          return Stop(Walked(Panic, cur));
        }
        var jump := decoder.CloneAtIndex(pointer);
        var piece := LabelFromBytes(jump);
        if !piece.Ok? {
          return Stop(Walked(Panic, cur));
        }
        var pushed := PushLabel(domain, piece.value);
        if !pushed.Ok? {
          return Stop(Walked(Panic, cur));
        }
        return Continue(cur, pushed.value);
      } else {
        return Stop(Walked(Err, cur));
      }
  }

  /** `Domain::from_bytes`: starts from `Domain::new("")`, that is `[0, 0]`,
      and runs the loop `Walk` describes over the cursor. Unless it panics,
      the cursor is left where `Walk` stops. */
  method FromBytes(decoder: Decoder) returns (r: Outcome<seq<u8>>)
    requires decoder.Valid()
    modifies decoder
    ensures decoder.Valid()
    ensures r == Walk(decoder.buffer, old(decoder.Current()), [0, 0]).result
    ensures !r.Panic? ==> decoder.Current() == Walk(decoder.buffer, old(decoder.Current()), [0, 0]).stop
  {
    EmptyName();
    var domain := DomainNew([]).value;
    ghost var start := decoder.Current();
    while true
      invariant decoder.Valid() && |domain| <= NAME_CAPACITY
      invariant Walk(decoder.buffer, decoder.Current(), domain) == Walk(decoder.buffer, start, [0, 0])
      decreases NAME_CAPACITY + 1 - |domain|
    {
      var next := OnePass(decoder, domain);
      match next
      case Stop(walked) =>
        return walked.result;
      case Continue(_, name) =>
        domain := name;
    }
  }

  // ---------------------------------------------------------------------
  // Properties of the decoder
  // ---------------------------------------------------------------------

  /** The buffer holds, from offset `pos`, each of `labels` in turn as a
      length octet of 1 to 63 and that many bytes. */
  predicate LabelsAt(buffer: seq<u8>, pos: nat, labels: seq<seq<u8>>)
    decreases |labels|
  {
    labels == [] ||
    (pos < |buffer| && 0 < |labels[0]| <= LABEL_CAPACITY && buffer[pos] == |labels[0]|
     && LabelAt(buffer, pos) == Ok(labels[0]) && LabelsAt(buffer, pos + 1 + |labels[0]|, labels[1..]))
  }

  /** Wire bytes of non-empty labels, found in the buffer at `pos`, are
      those labels one after the other. */
  lemma {:induction false} WireHoldsLabels(buffer: seq<u8>, pos: nat, labels: seq<seq<u8>>)
    requires AtMost(labels, LABEL_CAPACITY)
    requires forall i :: 0 <= i < |labels| ==> labels[i] != []
    requires pos + |LabelsWire(labels)| <= |buffer|
    requires buffer[pos..pos + |LabelsWire(labels)|] == LabelsWire(labels)
    ensures LabelsAt(buffer, pos, labels)
    decreases |labels|
  {
    if labels != [] {
      WireCons(labels);
      LabelInWindow(buffer, pos, labels[0], LabelsWire(labels[1..]));
      NonEmptyTail(labels);
      WireHoldsLabels(buffer, pos + 1 + |labels[0]|, labels[1..]);
    }
  }

  /** Labels of 1 to 63 bytes followed by a 0 decode to the name built so
      far followed by their wire bytes, when that fits 255 bytes, and the
      cursor stops on the 0 without consuming it. */
  lemma {:induction false} LabelsDecode(buffer: seq<u8>, pos: nat, domain: seq<u8>, labels: seq<seq<u8>>)
    requires LabelsAt(buffer, pos, labels) && AtMost(labels, LABEL_CAPACITY)
    requires |domain| + |LabelsWire(labels)| <= NAME_CAPACITY
    requires pos + |LabelsWire(labels)| < |buffer| && buffer[pos + |LabelsWire(labels)|] == 0
    ensures Walk(buffer, pos, domain) == Walked(Ok(domain + LabelsWire(labels)), pos + |LabelsWire(labels)|)
    decreases |labels|
  {
    if labels == [] {
      WalkStops(buffer, pos, domain);
      assert domain + LabelsWire(labels) == domain;
    } else {
      var first := labels[0];
      WireCons(labels);
      LabelsDecode(buffer, pos + 1 + |first|, domain + [|first|] + first, labels[1..]);
      LabelThenRest(buffer, pos, domain, first, LabelsWire(labels[1..]));
    }
  }

  /** A label, then a walk that reads `rest` after it, is a walk that
      reads the label and `rest`. */
  lemma LabelThenRest(buffer: seq<u8>, pos: nat, domain: seq<u8>, first: seq<u8>, rest: seq<u8>)
    requires pos < |buffer| && 0 < buffer[pos] < 64 && LabelAt(buffer, pos) == Ok(first)
    requires |domain| + 1 + |first| + |rest| <= NAME_CAPACITY
    requires Walk(buffer, pos + 1 + |first|, domain + [|first|] + first) ==
      Walked(Ok(domain + [|first|] + first + rest), pos + 1 + |first| + |rest|)
    ensures Walk(buffer, pos, domain) == Walked(Ok(domain + ([|first|] + first + rest)), pos + 1 + |first| + |rest|)
  {
    LabelWalk(buffer, pos, domain, first);
    Regroup(domain, |first|, first, rest);
  }

  /** Labels of 1 to 63 bytes that would make the name built so far
      outgrow 255 bytes make the decoder panic. */
  lemma {:induction false} LabelsOverflow(buffer: seq<u8>, pos: nat, domain: seq<u8>, labels: seq<seq<u8>>)
    requires LabelsAt(buffer, pos, labels) && AtMost(labels, LABEL_CAPACITY)
    requires |domain| <= NAME_CAPACITY < |domain| + |LabelsWire(labels)|
    ensures Walk(buffer, pos, domain).result == Panic
    decreases |labels|
  {
    var first := labels[0];
    WireCons(labels);
    if |domain| + 1 + |first| > NAME_CAPACITY {
      LabelPanics(buffer, pos, domain, first);
    } else {
      LabelWalk(buffer, pos, domain, first);
      LabelsOverflow(buffer, pos + 1 + |first|, domain + [|first|] + first, labels[1..]);
    }
  }

  /** The wire bytes of labels are the first label's, then the others'. */
  lemma WireCons(labels: seq<seq<u8>>)
    requires labels != [] && AtMost(labels, LABEL_CAPACITY)
    ensures AtMost(labels[1..], LABEL_CAPACITY)
    ensures LabelsWire(labels) == [|labels[0]|] + labels[0] + LabelsWire(labels[1..])
  {
    assert forall i :: 0 <= i < |labels[1..]| ==> labels[1..][i] == labels[i + 1];
  }

  /** The walk over a label octet that fits: the label is pushed and the
      walk goes on after it. */
  lemma LabelWalk(buffer: seq<u8>, pos: nat, domain: seq<u8>, piece: seq<u8>)
    requires pos < |buffer| && 0 < buffer[pos] < 64 && LabelAt(buffer, pos) == Ok(piece)
    requires |domain| + 1 + |piece| <= NAME_CAPACITY
    ensures Walk(buffer, pos, domain) == Walk(buffer, pos + 1 + |piece|, domain + [|piece|] + piece)
  {
    LabelStep(buffer, pos, domain, piece);
  }

  /** The walk over a label octet that does not fit: the push panics. */
  lemma LabelPanics(buffer: seq<u8>, pos: nat, domain: seq<u8>, piece: seq<u8>)
    requires pos < |buffer| && 0 < buffer[pos] < 64 && LabelAt(buffer, pos) == Ok(piece)
    requires |domain| <= NAME_CAPACITY < |domain| + 1 + |piece|
    ensures Walk(buffer, pos, domain) == Walked(Panic, pos)
  {
    LabelStep(buffer, pos, domain, piece);
    WalkStops(buffer, pos, domain);
  }

  /** The labels after the first are non-empty when all are. */
  lemma NonEmptyTail(labels: seq<seq<u8>>)
    requires labels != []
    requires forall i :: 0 <= i < |labels| ==> labels[i] != []
    ensures forall i :: 0 <= i < |labels[1..]| ==> labels[1..][i] != []
  {
    assert forall i :: 0 <= i < |labels[1..]| ==> labels[1..][i] == labels[i + 1];
  }

  /** A pass that returns ends the walk. */
  lemma WalkStops(buffer: seq<u8>, pos: nat, domain: seq<u8>)
    requires pos <= |buffer| && |domain| <= NAME_CAPACITY
    requires Pass(buffer, pos, domain).Stop?
    ensures Walk(buffer, pos, domain) == Pass(buffer, pos, domain).walked
  {
  }

  /** A label moved from the wire bytes onto the name built so far. */
  lemma Regroup(domain: seq<u8>, n: u8, first: seq<u8>, rest: seq<u8>)
    ensures domain + [n] + first + rest == domain + ([n] + first + rest)
  {
  }

  /** A window of the buffer holding a label octet, the label and more
      bytes holds the label where `LabelAt` reads it, and the more bytes
      right after it. */
  lemma LabelInWindow(buffer: seq<u8>, pos: nat, first: seq<u8>, rest: seq<u8>)
    requires |first| <= LABEL_CAPACITY
    requires pos + 1 + |first| + |rest| <= |buffer|
    requires buffer[pos..pos + 1 + |first| + |rest|] == [|first|] + first + rest
    ensures buffer[pos] == |first| && LabelAt(buffer, pos) == Ok(first)
    ensures buffer[pos + 1 + |first|..pos + 1 + |first| + |rest|] == rest
  {
    Window(buffer, pos, [|first|], first, rest);
  }

  /** A window of the buffer holding three pieces holds each of them. */
  lemma Window(buffer: seq<u8>, pos: nat, a: seq<u8>, b: seq<u8>, c: seq<u8>)
    requires pos + |a| + |b| + |c| <= |buffer|
    requires buffer[pos..pos + |a| + |b| + |c|] == a + b + c
    ensures buffer[pos..pos + |a|] == a
    ensures buffer[pos + |a|..pos + |a| + |b|] == b
    ensures buffer[pos + |a| + |b|..pos + |a| + |b| + |c|] == c
  {
    assert (a + b + c) == a + (b + c);
    Halves(buffer, pos, a, b + c);
    Halves(buffer, pos + |a|, b, c);
  }

  /** A window of the buffer holding two pieces holds each of them. */
  lemma Halves(buffer: seq<u8>, pos: nat, a: seq<u8>, b: seq<u8>)
    requires pos + |a| + |b| <= |buffer|
    requires buffer[pos..pos + |a| + |b|] == a + b
    ensures buffer[pos..pos + |a|] == a
    ensures buffer[pos + |a|..pos + |a| + |b|] == b
  {
    var window := buffer[pos..pos + |a| + |b|];
    assert window[..|a|] == a && window[|a|..] == b;
    assert buffer[pos..pos + |a|] == window[..|a|];
    assert buffer[pos + |a|..pos + |a| + |b|] == window[|a|..];
  }

  /** One pass of the loop over a label octet: the label is read from the
      outer cursor and pushed, or the push panics. */
  lemma LabelStep(buffer: seq<u8>, pos: nat, domain: seq<u8>, piece: seq<u8>)
    requires pos < |buffer| && |domain| <= NAME_CAPACITY
    requires 0 < buffer[pos] < 64 && LabelAt(buffer, pos) == Ok(piece)
    ensures Pass(buffer, pos, domain) ==
      if |domain| + 1 + |piece| <= NAME_CAPACITY
      then Continue(pos + 1 + |piece|, domain + [|piece|] + piece)
      else Stop(Walked(Panic, pos))
  {
  }

  /** One pass of the loop over a pointer octet: the label at the pointer
      is read from a separate cursor and pushed, and the outer cursor stays
      on the pointer. */
  lemma PointerStep(buffer: seq<u8>, pos: nat, domain: seq<u8>)
    requires pos < |buffer| && |domain| <= NAME_CAPACITY && buffer[pos] >= 192
    ensures var pointer := buffer[pos] % 64;
      Pass(buffer, pos, domain) ==
        if pointer > |buffer| || !LabelAt(buffer, pointer).Ok? then Stop(Walked(Panic, pos))
        else match PushLabel(domain, LabelAt(buffer, pointer).value)
          case Ok(longer) => Continue(pos, longer)
          case _ => Stop(Walked(Panic, pos))
  {
  }

  /** A pointer octet never lets `Domain::from_bytes` return: the outer
      cursor stays on the pointer, so each pass pushes the same label again
      until the 255-byte name overflows, or it panics earlier. */
  lemma {:induction false} PointerPanics(buffer: seq<u8>, pos: nat, domain: seq<u8>)
    requires pos < |buffer| && buffer[pos] >= 192 && |domain| <= NAME_CAPACITY
    ensures Walk(buffer, pos, domain).result == Panic
    decreases NAME_CAPACITY + 1 - |domain|
  {
    var pointer := buffer[pos] % 64;
    if pointer <= |buffer| && LabelAt(buffer, pointer).Ok? {
      var pushed := PushLabel(domain, LabelAt(buffer, pointer).value);
      if pushed.Ok? {
        PointerPanics(buffer, pos, pushed.value);
      }
    }
  }

  /** Whatever the buffer holds, a walk that returns `Ok` has appended to
      the name exactly the bytes it consumed, length octets included: no
      byte read through a pointer ever reaches a result. */
  lemma {:induction false} WalkOkIsBytes(buffer: seq<u8>, pos: nat, domain: seq<u8>)
    requires pos <= |buffer| && |domain| <= NAME_CAPACITY
    requires Walk(buffer, pos, domain).result.Ok?
    ensures var w := Walk(buffer, pos, domain);
      pos <= w.stop <= |buffer| && w.result.value == domain + buffer[pos..w.stop]
    decreases NAME_CAPACITY + 1 - |domain|
  {
    var w := Walk(buffer, pos, domain);
    match Pass(buffer, pos, domain)
    case Stop(_) =>
      assert buffer[pos..pos] == [];
    case Continue(at, name) =>
      if buffer[pos] >= 192 {
        PointerPanics(buffer, pos, domain);
        assert false;
      }
      PassTakesBytes(buffer, pos, domain);
      WalkOkIsBytes(buffer, at, name);
      SliceSplit(buffer, pos, at, w.stop);
  }

  /** A slice of the buffer cut in two. */
  lemma SliceSplit(buffer: seq<u8>, i: nat, j: nat, k: nat)
    requires i <= j <= k <= |buffer|
    ensures buffer[i..k] == buffer[i..j] + buffer[j..k]
  {
  }

  /** A pass over a label octet that goes on appends the bytes it
      consumed to the name. */
  lemma PassTakesBytes(buffer: seq<u8>, pos: nat, domain: seq<u8>)
    requires pos <= |buffer| && |domain| <= NAME_CAPACITY
    requires Pass(buffer, pos, domain).Continue? && buffer[pos] < 192
    ensures Pass(buffer, pos, domain).name == domain + buffer[pos..Pass(buffer, pos, domain).at]
  {
    var at := Pass(buffer, pos, domain).at;
    assert buffer[pos..at] == [buffer[pos]] + buffer[pos + 1..at];
  }

  /** `Domain::from_bytes` returns `Err` when the buffer ends before a 0
      octet, and when the next octet's top two bits are 01 or 10, consuming
      nothing in either case. */
  lemma Rejects(buffer: seq<u8>, pos: nat, domain: seq<u8>)
    requires pos <= |buffer| && |domain| <= NAME_CAPACITY
    requires pos == |buffer| || 64 <= buffer[pos] < 192
    ensures Walk(buffer, pos, domain) == Walked(Err, pos)
  {
  }

  /** What `Domain::new` produces, `Domain::from_bytes` reads back as
      `[0, 0]` followed by the labels without the terminator, stopping on the
      terminator; when that is longer than 255 bytes (a 253-byte text) it
      panics. Empty parts are excluded: their label is a 0 octet, which ends
      the decoding early. */
  lemma {:induction false} EncodedNameDecodes(text: seq<u8>)
    requires DomainNew(text).Ok?
    requires forall i :: 0 <= i < |Split(text)| ==> Split(text)[i] != []
    ensures Walk(DomainNew(text).value, 0, [0, 0]).result ==
      if |text| <= 252 then Ok([0, 0] + LabelsWire(Split(text))) else Panic
    ensures |text| <= 252 ==> Walk(DomainNew(text).value, 0, [0, 0]).stop == |text| + 1
  {
    var parts := Split(text);
    var w := DomainNew(text).value;
    WireLength(text);
    assert w[0..|LabelsWire(parts)|] == LabelsWire(parts);
    WireHoldsLabels(w, 0, parts);
    if |text| <= 252 {
      LabelsDecode(w, 0, [0, 0], parts);
    } else {
      LabelsOverflow(w, 0, [0, 0], parts);
    }
  }

  /** An empty part of the text (`a..b`) encodes as a 0 length octet,
      which `Domain::from_bytes` takes for the terminator: decoding gives
      `[0, 0]` and the labels of the parts before the first empty one, and
      stops on that octet. */
  lemma EmptyPartEndsName(text: seq<u8>, k: nat)
    requires DomainNew(text).Ok?
    requires k < |Split(text)| && Split(text)[k] == []
    requires forall i :: 0 <= i < k ==> Split(text)[i] != []
    ensures var before := Split(text)[..k];
      AtMost(before, LABEL_CAPACITY) &&
      Walk(DomainNew(text).value, 0, [0, 0]) ==
        Walked(Ok([0, 0] + LabelsWire(before)), |LabelsWire(before)|)
  {
    var more := EmptyPartWire(text, k);
    LabelsThenZeroDecode(Split(text)[..k], more);
  }

  /** The encoding of a text whose part `k` is empty is the labels of the
      parts before it, then a 0 octet, then more bytes. */
  lemma EmptyPartWire(text: seq<u8>, k: nat) returns (more: seq<u8>)
    requires DomainNew(text).Ok?
    requires k < |Split(text)| && Split(text)[k] == []
    ensures AtMost(Split(text)[..k], LABEL_CAPACITY)
    ensures |LabelsWire(Split(text)[..k])| + 2 <= NAME_CAPACITY
    ensures DomainNew(text).value == LabelsWire(Split(text)[..k]) + [0] + more
  {
    var parts := Split(text);
    WireLength(text);
    var after := EmptyLabelWire(parts, k);
    more := after + [0];
  }

  /** The wire bytes of labels whose label `k` is empty are those of the
      labels before it, a 0 octet, then the others. */
  lemma EmptyLabelWire(labels: seq<seq<u8>>, k: nat) returns (after: seq<u8>)
    requires AtMost(labels, LABEL_CAPACITY)
    requires k < |labels| && labels[k] == []
    ensures AtMost(labels[..k], LABEL_CAPACITY)
    ensures LabelsWire(labels) == LabelsWire(labels[..k]) + [0] + after
  {
    var before, rest := labels[..k], labels[k..];
    assert labels == before + rest;
    WireAppend(before, rest);
    WireCons(rest);
    assert rest[0] == [];
    after := LabelsWire(rest[1..]);
  }

  /** Non-empty labels followed by a 0, at the start of a buffer and
      whatever comes after, decode to `[0, 0]` followed by the labels, and
      the cursor stops on the 0. */
  lemma LabelsThenZeroDecode(labels: seq<seq<u8>>, more: seq<u8>)
    requires AtMost(labels, LABEL_CAPACITY)
    requires forall i :: 0 <= i < |labels| ==> labels[i] != []
    requires |LabelsWire(labels)| + 2 <= NAME_CAPACITY
    ensures Walk(LabelsWire(labels) + [0] + more, 0, [0, 0]) ==
      Walked(Ok([0, 0] + LabelsWire(labels)), |LabelsWire(labels)|)
  {
    var wire := LabelsWire(labels);
    var buffer := wire + [0] + more;
    assert buffer[0..|wire|] == wire;
    assert buffer[|wire|] == 0;
    WireHoldsLabels(buffer, 0, labels);
    LabelsDecode(buffer, 0, [0, 0], labels);
  }

  /** The wire bytes of two label lists one after the other are those of
      the joined list. */
  lemma {:induction false} WireAppend(a: seq<seq<u8>>, b: seq<seq<u8>>)
    requires AtMost(a, LABEL_CAPACITY) && AtMost(b, LABEL_CAPACITY)
    ensures AtMost(a + b, LABEL_CAPACITY)
    ensures LabelsWire(a + b) == LabelsWire(a) + LabelsWire(b)
    decreases |a|
  {
    assert forall i :: 0 <= i < |a + b| ==> (a + b)[i] == if i < |a| then a[i] else b[i - |a|];
    if a == [] {
      assert a + b == b;
    } else {
      WireCons(a);
      WireAppend(a[1..], b);
      assert (a + b)[1..] == a[1..] + b;
      assert (a + b)[0] == a[0];
      WireCons(a + b);
      assert LabelsWire(a + b) == [|a[0]|] + a[0] + (LabelsWire(a[1..]) + LabelsWire(b));
    }
  }

  /** The wire bytes of `example.com` decode without error, to `[0, 0]`
      followed by the two labels, and the cursor stops on the final 0. */
  lemma ExampleComDecodes()
    ensures Walk([7] + EXAMPLE + [3] + COM + [0], 0, [0, 0]) ==
      Walked(Ok([0, 0] + [7] + EXAMPLE + [3] + COM), 12)
  {
    var labels := [EXAMPLE, COM];
    assert LabelsWire(labels) == [7] + EXAMPLE + [3] + COM by {
      LabelsWireCons(COM, []);
      LabelsWireCons(EXAMPLE, [COM]);
    }
    var wire := [7] + EXAMPLE + [3] + COM;
    WireDecodes(labels);
    assert [0, 0] + wire == [0, 0] + [7] + EXAMPLE + [3] + COM;
  }

  /** Non-empty labels followed by a 0, from the start of a buffer, decode
      to `[0, 0]` followed by the labels, and the cursor stops on the 0. */
  lemma WireDecodes(labels: seq<seq<u8>>)
    requires AtMost(labels, LABEL_CAPACITY)
    requires forall i :: 0 <= i < |labels| ==> labels[i] != []
    requires |LabelsWire(labels)| + 2 <= NAME_CAPACITY
    ensures Walk(LabelsWire(labels) + [0], 0, [0, 0]) ==
      Walked(Ok([0, 0] + LabelsWire(labels)), |LabelsWire(labels)|)
  {
    LabelsThenZeroDecode(labels, []);
    assert LabelsWire(labels) + [0] + [] == LabelsWire(labels) + [0];
  }
}
